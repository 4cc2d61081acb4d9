/** The choice of the download slot to serve next (scrapy/pqueues.py, `_next_slot`) and its
    fairness over whole runs of choices. */
module SlotSelection {
  import opened Collections
  import opened Requests

  /** String order, character by character. */
  predicate Less(a: string, b: string) {
    b != [] && (a == [] || a[0] < b[0] || (a[0] == b[0] && Less(a[1..], b[1..])))
  }

  lemma {:induction false} LessIrreflexive(a: string)
    ensures !Less(a, a)
  {
    if a != [] { LessIrreflexive(a[1..]); }
  }

  lemma {:induction false} LessTotal(a: string, b: string)
    ensures Less(a, b) || a == b || Less(b, a)
  {
    if a != [] && b != [] && a[0] == b[0] {
      LessTotal(a[1..], b[1..]);
      assert a == [a[0]] + a[1..] && b == [b[0]] + b[1..];
    }
  }

  lemma {:induction false} LessTransitive(a: string, b: string, c: string)
    requires Less(a, b) && Less(b, c)
    ensures Less(a, c)
  {
    if a != [] && a[0] == b[0] && b[0] == c[0] {
      LessTransitive(a[1..], b[1..], c[1..]);
    }
  }

  /** The first `k` characters are the same; then the one name ends, or has the lesser character. */
  predicate FirstDifference(a: string, b: string, k: nat) {
    && k <= |a| && k < |b| && a[..k] == b[..k]
    && (k == |a| || a[k] < b[k])
  }

  lemma {:induction false} LessMeans(a: string, b: string)
    ensures Less(a, b) <==> exists k: nat :: FirstDifference(a, b, k)
    decreases |a|
  {
    if a != [] && b != [] && a[0] == b[0] {
      LessMeans(a[1..], b[1..]);
      if k: nat :| FirstDifference(a[1..], b[1..], k) {
        assert a[..k + 1] == [a[0]] + a[1..][..k] && b[..k + 1] == [b[0]] + b[1..][..k];
        assert FirstDifference(a, b, k + 1);
      }
      if k: nat :| FirstDifference(a, b, k) {
        assert k > 0 && a[1..][..k - 1] == a[..k][1..] && b[1..][..k - 1] == b[..k][1..];
        assert FirstDifference(a[1..], b[1..], k - 1);
      }
    } else {
      if b != [] {
        assert FirstDifference(a, b, 0) <==> a == [] || a[0] < b[0];
      }
      assert forall k: nat | FirstDifference(a, b, k) && k > 0 :: a[..k][0] == b[..k][0];
    }
  }

  /** All a proof needs to know of the order of slot names. */
  ghost predicate StrictOrder() {
    && (forall a :: !Less(a, a))
    && (forall a, b :: Less(a, b) || a == b || Less(b, a))
    && (forall a, b, c :: Less(a, b) && Less(b, c) ==> Less(a, c))
  }

  lemma SlotNamesAreOrdered()
    ensures StrictOrder()
  {
    forall a ensures !Less(a, a) { LessIrreflexive(a); }
    forall a, b ensures Less(a, b) || a == b || Less(b, a) { LessTotal(a, b); }
    forall a, b, c ensures Less(a, b) && Less(b, c) ==> Less(a, c) {
      if Less(a, b) && Less(b, c) { LessTransitive(a, b, c); }
    }
  }

  predicate After(last: Option<string>, s: string) {
    last.Some? && Less(last.value, s)
  }

  /** Round robin over the tied slots: the first name after the last selected one, else the
      first name of all. */
  ghost predicate Selects(last: Option<string>, tied: set<string>, slot: string) {
    && slot in tied
    && (After(last, slot) || forall t | t in tied :: !After(last, t))
    && (forall t | t in tied && (After(last, slot) ==> After(last, t)) :: !Less(t, slot))
  }

  lemma SelectsTied(last: Option<string>, tied: set<string>, slot: string)
    requires Selects(last, tied, slot)
    ensures slot in tied
  {}

  lemma SelectsOne(last: Option<string>, tied: set<string>, a: string, b: string)
    requires Selects(last, tied, a) && Selects(last, tied, b)
    ensures a == b
  {
    LessTotal(a, b);
  }

  /** The slots with the fewest active downloads. */
  ghost function Tied(stats: seq<(nat, string)>): set<string> {
    set i | 0 <= i < |stats| && (forall j | 0 <= j < |stats| :: stats[i].0 <= stats[j].0) :: stats[i].1
  }

  ghost predicate IsMin(stats: seq<(nat, string)>, m: nat) {
    && (exists i :: 0 <= i < |stats| && stats[i].0 == m)
    && (forall j | 0 <= j < |stats| :: m <= stats[j].0)
  }

  ghost function WithActive(stats: seq<(nat, string)>, m: nat): set<string> {
    set i | 0 <= i < |stats| && stats[i].0 == m :: stats[i].1
  }

  lemma TiedHaveMin(stats: seq<(nat, string)>, m: nat)
    requires IsMin(stats, m)
    ensures Tied(stats) == WithActive(stats, m)
  {
    var w :| 0 <= w < |stats| && stats[w].0 == m;
    forall i | 0 <= i < |stats| && forall j | 0 <= j < |stats| :: stats[i].0 <= stats[j].0
      ensures stats[i].0 == m
    {
      assert stats[i].0 <= stats[w].0;
    }
  }

  lemma WithActiveStep(stats: seq<(nat, string)>, active: nat, slot: string, m: nat)
    ensures WithActive(stats + [(active, slot)], m) == WithActive(stats, m) + if active == m then {slot} else {}
  {
    var all, n := stats + [(active, slot)], |stats|;
    assert all[n] == (active, slot);
    forall s | s in WithActive(stats, m) ensures s in WithActive(all, m) {
      var i :| 0 <= i < n && stats[i].0 == m && stats[i].1 == s;
      assert all[i] == stats[i];
    }
  }

  lemma MinStep(stats: seq<(nat, string)>, active: nat, slot: string, m: nat)
    requires stats != [] ==> IsMin(stats, m)
    ensures IsMin(stats + [(active, slot)], if stats == [] || active < m then active else m)
  {
    var all := stats + [(active, slot)];
    assert all[|stats|] == (active, slot);
    if stats != [] {
      var w :| 0 <= w < |stats| && stats[w].0 == m;
      assert all[w] == stats[w];
    }
  }

  lemma TiedStep(stats: seq<(nat, string)>, active: nat, slot: string, m: nat)
    requires stats != [] ==> IsMin(stats, m)
    ensures IsMin(stats + [(active, slot)], if stats == [] || active < m then active else m)
    ensures Tied(stats + [(active, slot)]) ==
            if stats == [] || active < m then {slot} else if active == m then Tied(stats) + {slot} else Tied(stats)
  {
    var m' := if stats == [] || active < m then active else m;
    MinStep(stats, active, slot, m);
    TiedHaveMin(stats + [(active, slot)], m');
    WithActiveStep(stats, active, slot, m');
    if stats == [] || active < m {
      assert WithActive(stats, m') == {};
    } else {
      TiedHaveMin(stats, m);
    }
  }

  /** The least of `s`, if `best` is to be one. */
  ghost predicate IsLeast(s: set<string>, best: Option<string>) {
    && (best.None? ==> s == {})
    && (best.Some? ==> best.value in s && forall t | t in s :: !Less(t, best.value))
  }

  ghost function Later(last: Option<string>, tied: set<string>): set<string> {
    set t | t in tied && After(last, t)
  }

  function Lesser(best: Option<string>, s: string): Option<string> {
    if best.None? || Less(s, best.value) then Some(s) else best
  }

  lemma LeastStep(s: set<string>, best: Option<string>, x: string)
    requires IsLeast(s, best)
    ensures IsLeast(s + {x}, Lesser(best, x))
  {
    SlotNamesAreOrdered();
    hide Less;
  }

  lemma LaterStep(last: Option<string>, tied: set<string>, x: string)
    ensures Later(last, tied + {x}) == if After(last, x) then Later(last, tied) + {x} else Later(last, tied)
    ensures Later(last, {}) == {}
  {}

  lemma LeastSelects(last: Option<string>, tied: set<string>, best: Option<string>, bestAfter: Option<string>)
    requires best.Some? && IsLeast(tied, best) && IsLeast(Later(last, tied), bestAfter)
    ensures Selects(last, tied, if bestAfter.Some? then bestAfter.value else best.value)
  {
    hide Less;
    if bestAfter.Some? {
      assert bestAfter.value in Later(last, tied);
      forall t | t in tied && After(last, t) ensures !Less(t, bestAfter.value) {
        assert t in Later(last, tied);
      }
    } else {
      forall t | t in tied ensures !After(last, t) {
        assert t !in Later(last, tied);
      }
    }
  }

  /** One pass over the slots with running minima. */
  method NextSlot(last: Option<string>, stats: seq<(nat, string)>) returns (slot: string)
    requires stats != []
    ensures Selects(last, Tied(stats), slot)
  {
    hide Tied, IsMin, Less, IsLeast, Later, Selects;
    var minActive: Option<nat> := None;
    var best: Option<string> := None;
    var bestAfter: Option<string> := None;
    for n := 0 to |stats|
      invariant minActive.None? <==> n == 0
      invariant n > 0 ==> IsMin(stats[..n], minActive.value) && best.Some?
      invariant n > 0 ==> IsLeast(Tied(stats[..n]), best)
      invariant n > 0 ==> IsLeast(Later(last, Tied(stats[..n])), bestAfter)
    {
      var (active, s) := stats[n];
      assert stats[..n + 1] == stats[..n] + [(active, s)];
      TiedStep(stats[..n], active, s, if n > 0 then minActive.value else 0);
      if minActive.None? || active < minActive.value {
        NothingYet();
        LeastStep({}, None, s);
        LaterStep(last, {}, s);
        assert {} + {s} == {s};
        minActive, best, bestAfter := Some(active), Some(s), None;
        if After(last, s) {
          bestAfter := Some(s);
        }
      } else if active == minActive.value {
        ghost var tied := Tied(stats[..n]);
        LeastStep(tied, best, s);
        LaterStep(last, tied, s);
        LeastStep(Later(last, tied), bestAfter, s);
        if best.None? || Less(s, best.value) {
          best := Some(s);
        }
        if After(last, s) && (bestAfter.None? || Less(s, bestAfter.value)) {
          bestAfter := Some(s);
        }
      }
    }
    assert stats[..|stats|] == stats;
    LeastSelects(last, Tied(stats), best, bestAfter);
    slot := if bestAfter.Some? then bestAfter.value else best.value;
  }

  lemma NothingYet()
    ensures IsLeast({}, None)
  {}

  /** A run of choices: `ties[k]` are the slots tied at choice `k`, `chosen[k]` the slot taken. */
  ghost predicate Run(last: Option<string>, ties: seq<set<string>>, chosen: seq<string>) {
    && |ties| == |chosen|
    && forall k | 0 <= k < |chosen| :: Selects(Previous(last, chosen, k), ties[k], chosen[k])
  }

  /** The slot selected before choice `k`. */
  function Previous(last: Option<string>, chosen: seq<string>, k: nat): Option<string>
    requires k < |chosen|
  {
    if k == 0 then last else Some(chosen[k - 1])
  }

  /** The slot selected last after these choices. */
  function LastOf(last: Option<string>, chosen: seq<string>): Option<string> {
    if chosen == [] then last else Some(chosen[|chosen| - 1])
  }

  lemma RunOneMore(last: Option<string>, ties: seq<set<string>>, chosen: seq<string>, tied: set<string>, slot: string)
    requires Run(last, ties, chosen) && Selects(LastOf(last, chosen), tied, slot)
    ensures Run(last, ties + [tied], chosen + [slot])
  {
    hide Selects;
    var all := chosen + [slot];
    forall k | 0 <= k < |all| ensures Selects(Previous(last, all, k), (ties + [tied])[k], all[k]) {
      if k < |chosen| {
        assert Previous(last, all, k) == Previous(last, chosen, k);
      }
    }
  }

  /** Going round the names once, starting just after `t`: `x` comes before `y`. */
  predicate EarlierInRound(t: string, x: string, y: string) {
    if Less(t, x) then Less(y, t) || Less(x, y) else Less(y, t) && Less(x, y)
  }

  /** A choice that passes over `t` goes forward in the round, from the one before. */
  lemma NextInRound(before: string, tied: set<string>, slot: string, t: string)
    requires Selects(Some(before), tied, slot) && t in tied && t != before && t != slot
    ensures EarlierInRound(t, before, slot)
  {
    SlotNamesAreOrdered();
    hide Less;
  }

  lemma RoundTransitive(t: string, x: string, y: string, z: string)
    requires EarlierInRound(t, x, y) && EarlierInRound(t, y, z)
    ensures EarlierInRound(t, x, z)
  {
    SlotNamesAreOrdered();
    hide Less;
  }

  /** While `t` stays tied and is passed over, the choices move forward within one round. */
  lemma {:induction false} ChoicesMoveForward(last: Option<string>, ties: seq<set<string>>, chosen: seq<string>,
      t: string, m: nat, n: nat)
    requires Run(last, ties, chosen)
    requires forall k | 0 <= k < |chosen| :: t in ties[k] && chosen[k] != t
    requires m < n < |chosen|
    ensures EarlierInRound(t, chosen[m], chosen[n])
    decreases n - m
  {
    hide Less, Selects, EarlierInRound;
    assert Selects(Previous(last, chosen, n), ties[n], chosen[n]);
    NextInRound(chosen[n - 1], ties[n], chosen[n], t);
    if m < n - 1 {
      ChoicesMoveForward(last, ties, chosen, t, m, n - 1);
      RoundTransitive(t, chosen[m], chosen[n - 1], chosen[n]);
    }
  }

  /** Bounded bypass: over any run, however slots come and go, no slot is chosen twice while
      another slot stays tied for the fewest downloads and is not chosen. */
  lemma BoundedBypass(last: Option<string>, ties: seq<set<string>>, chosen: seq<string>, t: string, m: nat, n: nat)
    requires Run(last, ties, chosen)
    requires forall k | 0 <= k < |chosen| :: t in ties[k] && chosen[k] != t
    requires m < n < |chosen|
    ensures chosen[m] != chosen[n]
  {
    ChoicesMoveForward(last, ties, chosen, t, m, n);
    LessIrreflexive(chosen[m]);
    if Less(t, chosen[m]) && Less(chosen[m], t) {
      LessTransitive(t, chosen[m], t);
      LessIrreflexive(t);
    }
  }

  lemma {:induction false} FewElements<T>(s: seq<T>)
    ensures |Elements(s)| <= |s|
    ensures |Elements(s)| == |s| ==> multiset(s) == multiset(Elements(s))
    ensures (forall i, j | 0 <= i < j < |s| :: s[i] != s[j]) ==> |Elements(s)| == |s|
  {
    if s != [] {
      var n := |s| - 1;
      FewElements(s[..n]);
      assert s == s[..n] + [s[n]];
      assert Elements(s) == Elements(s[..n]) + {s[n]};
      if s[n] in s[..n] {
        assert Elements(s) == Elements(s[..n]);
      }
    }
  }

  /** With a constant set of tied slots, any |tied| consecutive choices take each slot once. */
  lemma RoundRobin(last: Option<string>, tied: set<string>, chosen: seq<string>)
    requires |chosen| == |tied|
    requires Run(last, seq(|chosen|, k => tied), chosen)
    ensures multiset(chosen) == multiset(tied)
  {
    var ties := seq(|chosen|, k => tied);
    forall k | 0 <= k < |chosen| ensures chosen[k] in tied {
      var before := Previous(last, chosen, k);
      assert Selects(before, ties[k], chosen[k]);
      SelectsTied(before, ties[k], chosen[k]);
    }
    FewElements(chosen);
    assert Elements(chosen) <= tied;
    if t :| t in tied && t !in chosen {
      forall m, n | 0 <= m < n < |chosen| ensures chosen[m] != chosen[n] {
        BoundedBypass(last, ties, chosen, t, m, n);
      }
      StrictSubsetCard(Elements(chosen), tied, t);
    } else {
      assert Elements(chosen) == tied;
    }
  }

  lemma StrictSubsetCard<T>(s: set<T>, u: set<T>, x: T)
    requires s <= u && x in u && x !in s
    ensures |s| < |u|
  {
    var rest := u - s - {x};
    assert u == s + ({x} + rest);
  }
}
