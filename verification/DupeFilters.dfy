/** scrapy/dupefilters.py, RFPDupeFilter: the fingerprints seen, in memory and, for a job
    directory, one per line in an append-only file. */
module DupeFilters {
  import opened Collections

  /** A fingerprint as the default fingerprinter makes it. */
  predicate IsHex(fp: string) {
    forall c | c in fp :: c in "0123456789abcdef"
  }

  /** What `rstrip` takes away. */
  predicate IsSpace(c: char) {
    || '\t' <= c <= '\r' || '\U{1c}' <= c <= ' ' || c == '\U{85}' || c == '\U{a0}' || c == '\U{1680}'
    || '\U{2000}' <= c <= '\U{200a}' || c in "\U{2028}\U{2029}\U{202f}\U{205f}\U{3000}"
  }

  /** One by one: the controls from tab to carriage return and the four separators, the space, the
      next line, the no-break space, and the wider and narrower spaces of Unicode. */
  lemma SpacesAre(c: char)
    ensures IsSpace(c) <==>
        || c in "\t\n\U{b}\U{c}\r\U{1c}\U{1d}\U{1e}\U{1f} \U{85}\U{a0}\U{1680}\U{2028}\U{2029}\U{202f}\U{205f}\U{3000}"
        || c in "\U{2000}\U{2001}\U{2002}\U{2003}\U{2004}\U{2005}\U{2006}\U{2007}\U{2008}\U{2009}\U{200a}"
  {
  }

  predicate IsLineEnd(c: char) {
    c == '\n' || c == '\r'
  }

  /** A string that a line can hold and that `rstrip` leaves alone. */
  predicate Plain(fp: string) {
    && (forall c | c in fp :: !IsLineEnd(c))
    && (fp != [] ==> !IsSpace(fp[|fp| - 1]))
  }

  function RStrip(line: string): string {
    if line != [] && IsSpace(line[|line| - 1]) then RStrip(line[..|line| - 1]) else line
  }

  /** The lines of a text, without their ends, as reading in text mode finds them. */
  function Lines(text: string): seq<string> {
    LinesFrom([], text)
  }

  function LinesFrom(line: string, text: string): seq<string>
    decreases |text|
  {
    if text == [] then (if line == [] then [] else [line])
    else if text[0] == '\r' && |text| > 1 && text[1] == '\n' then [line] + LinesFrom([], text[2..])
    else if IsLineEnd(text[0]) then [line] + LinesFrom([], text[1..])
    else LinesFrom(line + [text[0]], text[1..])
  }

  function Stripped(lines: seq<string>): set<string> {
    if lines == [] then {} else {RStrip(lines[0])} + Stripped(lines[1..])
  }

  /** What a reader of the file gets: every line without trailing white space. */
  function Loaded(text: string): set<string> {
    Stripped(Lines(text))
  }

  /** The file after the fingerprints `fps` were written, in order. */
  function Render(fps: seq<string>): string {
    if fps == [] then [] else fps[0] + "\n" + Render(fps[1..])
  }

  lemma HexIsPlain(fp: string)
    requires IsHex(fp)
    ensures Plain(fp)
  {
    if fp != [] {
      assert fp[|fp| - 1] in fp;
    }
  }

  lemma {:induction false} RenderConcat(a: seq<string>, b: seq<string>)
    ensures Render(a + b) == Render(a) + Render(b)
    decreases |a|
  {
    if a == [] {
      assert a + b == b;
    } else {
      RenderConcat(a[1..], b);
      assert (a + b)[1..] == a[1..] + b;
    }
  }

  lemma RenderAppend(fps: seq<string>, fp: string)
    ensures Render(fps + [fp]) == Render(fps) + fp + "\n"
  {
    RenderConcat(fps, [fp]);
    assert Render([fp]) == fp + "\n" + Render([]);
    assert Render(fps) + (fp + "\n") == Render(fps) + fp + "\n";
  }

  /** What is left of a text after the first step of reading it, the line begun then, and the line
      ended, if one is. */
  function Unread(a: string): string
    requires a != []
  {
    if a[0] == '\r' && |a| > 1 && a[1] == '\n' then a[2..] else a[1..]
  }

  function Begun(line: string, a: string): string
    requires a != []
  {
    if IsLineEnd(a[0]) then [] else line + [a[0]]
  }

  function Ended(line: string, a: string): seq<string>
    requires a != []
  {
    if IsLineEnd(a[0]) then [line] else []
  }

  lemma FirstStepAlone(line: string, a: string)
    requires a != []
    ensures LinesFrom(line, a) == Ended(line, a) + LinesFrom(Begun(line, a), Unread(a))
  {
    assert [] + LinesFrom(line + [a[0]], a[1..]) == LinesFrom(line + [a[0]], a[1..]);
  }

  /** The first step of reading `a + b` does not look into `b`. */
  lemma FirstStep(line: string, a: string, b: string)
    requires a != [] && (|a| == 1 && a[0] == '\r' && b != [] ==> b[0] != '\n')
    ensures LinesFrom(line, a + b) == Ended(line, a) + LinesFrom(Begun(line, a), Unread(a) + b)
  {
    hide LinesFrom;
    var all := a + b;
    assert all[0] == a[0] && all[1..] == a[1..] + b;
    if |a| > 1 {
      assert all[1] == a[1] && all[2..] == a[2..] + b;
    }
    FirstStepAlone(line, all);
  }

  lemma NoLines()
    ensures Lines([]) == []
  {}

  /** Lines do not reach over the end of one, which "\r\n" is as a whole. */
  lemma {:induction false} LinesSplit(line: string, a: string, b: string)
    requires a != [] && IsLineEnd(a[|a| - 1])
    requires a[|a| - 1] == '\r' && b != [] ==> b[0] != '\n'
    ensures LinesFrom(line, a + b) == LinesFrom(line, a) + LinesFrom([], b)
    decreases |a|
  {
    FirstStep(line, a, b);
    FirstStepAlone(line, a);
    var out, next, rest := Ended(line, a), Begun(line, a), Unread(a);
    if rest == [] {
      NoLines();
      assert rest + b == b && next == [] && out + [] == out;
    } else {
      assert rest[|rest| - 1] == a[|a| - 1];
      hide LinesFrom, Ended, Begun, Unread;
      LinesSplit(next, rest, b);
      assert out + (LinesFrom(next, rest) + LinesFrom([], b)) == (out + LinesFrom(next, rest)) + LinesFrom([], b);
    }
  }

  lemma {:induction false} StrippedConcat(a: seq<string>, b: seq<string>)
    ensures Stripped(a + b) == Stripped(a) + Stripped(b)
    decreases |a|
  {
    if a == [] {
      assert a + b == b;
    } else {
      assert (a + b)[1..] == a[1..] + b;
      StrippedConcat(a[1..], b);
    }
  }

  /** Each fingerprint written adds what its own text is read as, and nothing else. */
  lemma LoadedSplit(fp: string, text: string)
    ensures Loaded(fp + "\n" + text) == Loaded(fp + "\n") + Loaded(text)
  {
    LinesSplit([], fp + "\n", text);
    StrippedConcat(Lines(fp + "\n"), Lines(text));
  }

  lemma {:induction false} OneLine(line: string, fp: string)
    requires forall c | c in fp :: !IsLineEnd(c)
    ensures LinesFrom(line, fp + "\n") == [line + fp]
    decreases |fp|
  {
    var text := fp + "\n";
    if fp == [] {
      assert text[1..] == [] && line + fp == line;
    } else {
      assert fp[0] in fp && text[0] == fp[0];
      assert text[1..] == fp[1..] + "\n";
      OneLine(line + [fp[0]], fp[1..]);
      assert line + [fp[0]] + fp[1..] == line + fp;
    }
  }

  lemma PlainLine(fp: string)
    requires Plain(fp)
    ensures Loaded(fp + "\n") == {fp}
  {
    OneLine([], fp);
    assert [] + fp == fp;
    assert RStrip(fp) == fp;
    assert Stripped([fp]) == {fp} + Stripped([]);
  }

  lemma {:induction false} RStripPlain(line: string)
    requires forall c | c in line :: !IsLineEnd(c)
    ensures Plain(RStrip(line))
    decreases |line|
  {
    if line != [] && IsSpace(line[|line| - 1]) {
      RStripPlain(line[..|line| - 1]);
    }
  }

  lemma {:induction false} LinesPlain(line: string, text: string)
    requires forall c | c in line :: !IsLineEnd(c)
    ensures forall x | x in Stripped(LinesFrom(line, text)) :: Plain(x)
    decreases |text|
  {
    RStripPlain(line);
    if text == [] {
    } else if text[0] == '\r' && |text| > 1 && text[1] == '\n' {
      LinesPlain([], text[2..]);
      StrippedConcat([line], LinesFrom([], text[2..]));
    } else if IsLineEnd(text[0]) {
      LinesPlain([], text[1..]);
      StrippedConcat([line], LinesFrom([], text[1..]));
    } else {
      LinesPlain(line + [text[0]], text[1..]);
    }
  }

  /** Only plain strings are ever read back. */
  lemma LoadedIsPlain(text: string)
    ensures forall x | x in Loaded(text) :: Plain(x)
  {
    LinesPlain([], text);
  }

  lemma {:induction false} LoadedConcat(a: seq<string>, b: seq<string>)
    ensures Loaded(Render(a + b)) == Loaded(Render(a)) + Loaded(Render(b))
    decreases |a|
  {
    if a == [] {
      assert a + b == b;
    } else {
      var rest := a[1..] + b;
      assert (a + b)[1..] == rest && (a + b)[0] == a[0];
      assert Render(a + b) == a[0] + "\n" + Render(rest);
      assert Render(a) == a[0] + "\n" + Render(a[1..]);
      hide Render, Loaded;
      LoadedConcat(a[1..], b);
      LoadedSplit(a[0], Render(a[1..]));
      LoadedSplit(a[0], Render(rest));
    }
  }

  lemma {:induction false} PlainIsLoaded(fps: seq<string>)
    ensures forall fp | fp in fps && Plain(fp) :: fp in Loaded(Render(fps))
    ensures (forall fp | fp in fps :: Plain(fp)) ==> Loaded(Render(fps)) == Elements(fps)
    decreases |fps|
  {
    if fps != [] {
      PlainIsLoaded(fps[1..]);
      LoadedSplit(fps[0], Render(fps[1..]));
      if Plain(fps[0]) {
        PlainLine(fps[0]);
      }
      assert fps == [fps[0]] + fps[1..];
    }
  }

  /** Reading back what was written gives the fingerprints written if and only if all of them
      are plain. */
  lemma ReloadRestores(fps: seq<string>)
    ensures Loaded(Render(fps)) == Elements(fps) <==> forall fp | fp in fps :: Plain(fp)
  {
    PlainIsLoaded(fps);
    LoadedIsPlain(Render(fps));
    if Loaded(Render(fps)) == Elements(fps) {
      forall fp | fp in fps ensures Plain(fp) {
        assert fp in Elements(fps);
      }
    }
  }

  /** The first fingerprint written behind `prior` does not get a line of its own: the last line
      of `prior` has not been ended, as when the process writing it was killed, or what ends the
      new line only completes the end of that one. */
  predicate Torn(prior: string, fp: string) {
    prior != [] && if prior[|prior| - 1] == '\r' then fp == [] else prior[|prior| - 1] != '\n'
  }

  predicate Intact(prior: string, written: seq<string>) {
    written == [] || !Torn(prior, written[0])
  }

  lemma {:induction false} CarriageReturnEnds(line: string, a: string)
    requires a != [] && a[|a| - 1] == '\r'
    ensures LinesFrom(line, a + "\n") == LinesFrom(line, a)
    decreases |a|
  {
    var text := a + "\n";
    assert text[0] == a[0] && (|a| > 1 ==> text[1] == a[1]);
    if |a| == 1 {
      assert text[2..] == [] && a[1..] == [];
    } else if a[0] == '\r' && a[1] == '\n' {
      assert text[2..] == a[2..] + "\n";
      CarriageReturnEnds([], a[2..]);
    } else {
      assert text[1..] == a[1..] + "\n";
      CarriageReturnEnds(if IsLineEnd(a[0]) then [] else line + [a[0]], a[1..]);
    }
  }

  lemma ReturnLoads(prior: string)
    requires prior != [] && prior[|prior| - 1] == '\r'
    ensures Loaded(prior + "\n") == Loaded(prior)
  {
    CarriageReturnEnds([], prior);
  }

  lemma LoadedBehind(prior: string, text: string)
    requires prior == [] || IsLineEnd(prior[|prior| - 1])
    requires prior != [] && prior[|prior| - 1] == '\r' && text != [] ==> text[0] != '\n'
    ensures Loaded(prior + text) == Loaded(prior) + Loaded(text)
  {
    if prior == [] {
      assert prior + text == text;
    } else {
      LinesSplit([], prior, text);
      StrippedConcat(Lines(prior), Lines(text));
    }
  }

  lemma CompletesLineEnd(prior: string, fp: string, written: seq<string>)
    requires prior != [] && prior[|prior| - 1] == '\r'
    ensures Loaded(prior + ("\n" + fp + "\n" + Render(written)))
         == Loaded(prior) + Loaded(fp + "\n") + Loaded(Render(written))
  {
    var rest := fp + "\n" + Render(written);
    assert prior + ("\n" + fp + "\n" + Render(written)) == (prior + "\n") + rest;
    LoadedBehind(prior + "\n", rest);
    ReturnLoads(prior);
    LoadedSplit(fp, Render(written));
  }

  /** Fingerprints written behind the end of a line are read back beside what is there. */
  lemma WrittenBehind(prior: string, written: seq<string>)
    requires Intact(prior, written)
    ensures forall fp | fp in Loaded(prior) :: fp in Loaded(prior + Render(written))
    ensures forall fp | fp in written && Plain(fp) :: fp in Loaded(prior + Render(written))
    ensures (forall fp | fp in written :: Plain(fp)) ==>
              Loaded(prior + Render(written)) == Loaded(prior) + Elements(written)
  {
    hide Loaded;
    PlainIsLoaded(written);
    if written == [] {
      assert prior + Render(written) == prior;
    } else if prior != [] && prior[|prior| - 1] == '\r' && written[0][0] == '\n' {
      var fp := written[0];
      PlainIsLoaded(written[1..]);
      assert Render(written) == "\n" + fp[1..] + "\n" + Render(written[1..]);
      CompletesLineEnd(prior, fp[1..], written[1..]);
      assert fp[0] in fp && fp in written;
    } else {
      assert written[0] == [] ==> Render(written)[0] == '\n';
      assert written[0] != [] ==> Render(written)[0] == written[0][0];
      LoadedBehind(prior, Render(written));
    }
  }

  lemma EndedLine(line: string, fp: string, text: string)
    requires forall c | c in fp :: !IsLineEnd(c)
    ensures LinesFrom(line, [] + (fp + "\n" + text)) == [] + [line + fp] + Lines(text)
  {
    assert [] + (fp + "\n" + text) == (fp + "\n") + text;
    hide LinesFrom;
    LinesSplit(line, fp + "\n", text);
    OneLine(line, fp);
  }

  /** A line that has not been ended goes on with what is written next. */
  lemma {:induction false} JoinedLine(line: string, a: string, fp: string, text: string)
      returns (full: seq<string>, last: string)
    requires forall c | c in fp :: !IsLineEnd(c)
    requires if a == [] then line != [] else !IsLineEnd(a[|a| - 1])
    ensures last != [] && LinesFrom(line, a) == full + [last]
    ensures LinesFrom(line, a + (fp + "\n" + text)) == full + [last + fp] + Lines(text)
    decreases |a|
  {
    hide Lines;
    if a == [] {
      full, last := [], line;
      EndedLine(line, fp, text);
    } else {
      hide LinesFrom;
      var more := fp + "\n" + text;
      FirstStep(line, a, more);
      FirstStepAlone(line, a);
      var later: seq<string>;
      later, last := JoinedLine(Begun(line, a), Unread(a), fp, text);
      full := Ended(line, a) + later;
      assert Ended(line, a) + (later + [last + fp] + Lines(text)) == full + [last + fp] + Lines(text);
      assert Ended(line, a) + (later + [last]) == full + [last];
    }
  }

  lemma JoinedForgets(prior: string, fp: string, text: string)
    requires prior != [] && !IsLineEnd(prior[|prior| - 1]) && Plain(fp)
    requires fp !in Loaded(prior) && fp !in Loaded(text)
    ensures fp !in Loaded(prior + (fp + "\n" + text))
  {
    var full, last := JoinedLine([], prior, fp, text);
    hide LinesFrom, IsSpace;
    StrippedConcat(full + [last + fp], Lines(text));
    StrippedConcat(full, [last + fp]);
    StrippedConcat(full, [last]);
    assert Stripped([last + fp]) == {RStrip(last + fp)} && Stripped([last]) == {RStrip(last)};
    if fp == [] {
      assert last + fp == last;
    } else {
      assert (last + fp)[|last + fp| - 1] == fp[|fp| - 1];
    }
  }

  /** The first fingerprint written behind a line that has not been ended is not read back. */
  lemma TornForgets(prior: string, written: seq<string>)
    requires !Intact(prior, written) && forall fp | fp in written :: Plain(fp)
    requires written[0] !in Loaded(prior) && written[0] !in written[1..]
    ensures written[0] !in Loaded(prior + Render(written))
  {
    var fp, rest := written[0], Render(written[1..]);
    assert fp in written && Render(written) == fp + "\n" + rest;
    PlainIsLoaded(written[1..]);
    hide Render, Plain, Lines, LinesFrom, Stripped;
    if prior[|prior| - 1] == '\r' {
      assert prior + Render(written) == (prior + "\n") + rest;
      LoadedBehind(prior + "\n", rest);
      ReturnLoads(prior);
    } else {
      JoinedForgets(prior, fp, rest);
    }
  }

  ghost predicate NoDuplicates<T>(s: seq<T>) {
    forall i, j | 0 <= i < j < |s| :: s[i] != s[j]
  }

  class RFPDupeFilter {
    const persistent: bool
    var fingerprints: set<string>
    /** The text of `requests.seen`. */
    var file: string
    /** What the file held when it was opened, and the fingerprints accepted since. */
    ghost const prior: string
    ghost var accepted: seq<string>

    ghost predicate Valid()
      reads this
    {
      && NoDuplicates(accepted)
      && fingerprints == Restored() + Elements(accepted)
      && (forall fp | fp in accepted :: fp !in Restored())
      && (persistent ==> file == prior + Render(accepted))
    }

    ghost function Restored(): set<string> {
      if persistent then Loaded(prior) else {}
    }

    /** Opens the filter on a file that earlier runs, or anybody else, left. */
    constructor (persistent: bool, file: string)
      ensures Valid() && this.persistent == persistent && this.prior == file && accepted == []
      ensures fingerprints == if persistent then Loaded(file) else {}
    {
      this.persistent, this.file, this.prior := persistent, file, file;
      accepted := [];
      fingerprints := if persistent then Loaded(file) else {};
      new;
      assert prior + [] == prior;
    }

    method RequestSeen(fp: string) returns (seen: bool)
      requires Valid()
      modifies this
      ensures Valid()
      ensures seen <==> fp in old(fingerprints)
      ensures accepted == if seen then old(accepted) else old(accepted) + [fp]
      ensures fingerprints == old(fingerprints) + {fp} && (!seen ==> fp !in old(accepted))
    {
      if fp in fingerprints {
        return true;
      }
      fingerprints := fingerprints + {fp};
      if persistent {
        RenderAppend(accepted, fp);
        assert prior + (Render(accepted) + fp + "\n") == prior + Render(accepted) + fp + "\n";
        file := file + fp + "\n";
      }
      accepted := accepted + [fp];
      return false;
    }
  }

  /** The next run on the same job directory remembers every plain fingerprint, unless the first
      one written ran on into a line that had not been ended; and it knows what this run knew if
      and only if that did not happen and all of it is plain. */
  method Reopen(df: RFPDupeFilter) returns (again: RFPDupeFilter)
    requires df.Valid() && df.persistent
    ensures fresh(again) && again.Valid() && again.persistent && again.accepted == []
    ensures Intact(df.prior, df.accepted) ==> forall fp | fp in df.fingerprints && Plain(fp) :: fp in again.fingerprints
    ensures again.fingerprints == df.fingerprints <==>
        Intact(df.prior, df.accepted) && forall fp | fp in df.fingerprints :: Plain(fp)
  {
    again := new RFPDupeFilter(true, df.file);
    LoadedIsPlain(df.file);
    LoadedIsPlain(df.prior);
    if Intact(df.prior, df.accepted) {
      WrittenBehind(df.prior, df.accepted);
    } else if forall fp | fp in df.accepted :: Plain(fp) {
      TornForgets(df.prior, df.accepted);
    }
  }

  /** A process killed in the middle of a line is enough: the next fingerprint is lost. */
  lemma TornLineForgets() returns (prior: string, fp: string)
    ensures Plain(fp) && fp !in Loaded(prior) && fp !in Loaded(prior + Render([fp]))
  {
    prior, fp := "ab", "cd";
    LoadedIsPlain(prior);
    assert Loaded(prior) == {"ab"} by {
      assert [] + ['a'] == "a" && prior[1..] == "b" && "a" + ['b'] == "ab" && "b"[1..] == [];
      assert LinesFrom("ab", []) == ["ab"];
      assert LinesFrom("a", "b") == LinesFrom("ab", []);
      assert Lines(prior) == LinesFrom("a", "b");
      assert Stripped(["ab"]) == {RStrip("ab")} + Stripped([]);
    }
    TornForgets(prior, [fp]);
  }

  // ----- Any number of runs on one job directory

  ghost predicate Offered(runs: seq<seq<string>>, n: nat, fp: string)
    requires n <= |runs|
  {
    exists i | 0 <= i < n :: fp in runs[i]
  }

  /** What is offered in more than one of the first `n` runs is plain. */
  ghost predicate PlainAgain(runs: seq<seq<string>>, n: nat)
    requires n <= |runs|
  {
    forall i, j, fp | 0 <= i < j < n && fp in runs[i] && fp in runs[j] :: Plain(fp)
  }

  ghost predicate AllPlain(runs: seq<seq<string>>, n: nat)
    requires n <= |runs|
  {
    forall i, fp | 0 <= i < n && fp in runs[i] :: Plain(fp)
  }

  ghost predicate RunsHold(runs: seq<seq<string>>, n: nat, accepted: seq<string>)
    requires n <= |runs|
  {
    && (forall fp | fp in accepted :: Offered(runs, n, fp))
    && (forall fp | Offered(runs, n, fp) && !Plain(fp) :: fp in accepted)
    && (NoDuplicates(accepted) <==> PlainAgain(runs, n))
    && (AllPlain(runs, n) ==> forall fp | Offered(runs, n, fp) :: fp in accepted)
  }

  ghost predicate RunAdds(run: seq<string>, accepted: seq<string>, now: seq<string>) {
    && NoDuplicates(now)
    && forall fp :: fp in now <==> fp in run && fp !in Loaded(Render(accepted))
  }

  lemma NoDuplicatesConcat(a: seq<string>, b: seq<string>)
    requires NoDuplicates(b)
    ensures NoDuplicates(a + b) <==> NoDuplicates(a) && forall fp | fp in a :: fp !in b
  {
    var all := a + b;
    if NoDuplicates(all) {
      forall i, j | 0 <= i < j < |a| ensures a[i] != a[j] {
        assert all[i] == a[i] && all[j] == a[j];
      }
      forall fp | fp in a ensures fp !in b {
        var i :| 0 <= i < |a| && a[i] == fp;
        forall j | 0 <= j < |b| ensures b[j] != fp {
          assert all[i] == fp && all[|a| + j] == b[j];
        }
      }
    }
    if NoDuplicates(a) && forall fp | fp in a :: fp !in b {
      forall i, j | 0 <= i < j < |all| ensures all[i] != all[j] {
        if i < |a| <= j {
          assert a[i] in a && all[j] == b[j - |a|] && b[j - |a|] in b;
        } else if |a| <= i {
          assert all[i] == b[i - |a|] && all[j] == b[j - |a|];
        }
      }
    }
  }

  lemma OfferedStep(runs: seq<seq<string>>, n: nat, fp: string)
    requires n < |runs|
    ensures Offered(runs, n + 1, fp) <==> Offered(runs, n, fp) || fp in runs[n]
  {}

  lemma PlainAgainStep(runs: seq<seq<string>>, n: nat)
    requires n < |runs|
    ensures PlainAgain(runs, n + 1) <==>
        PlainAgain(runs, n) && forall fp | Offered(runs, n, fp) && fp in runs[n] :: Plain(fp)
  {}

  /** A run accepts again what was accepted before exactly if it is not plain. */
  lemma RunAddsStep(runs: seq<seq<string>>, n: nat, accepted: seq<string>, now: seq<string>)
    requires n < |runs| && RunsHold(runs, n, accepted) && RunAdds(runs[n], accepted, now)
    ensures RunsHold(runs, n + 1, accepted + now)
  {
    LoadedIsPlain(Render(accepted));
    PlainIsLoaded(accepted);
    NoDuplicatesConcat(accepted, now);
    PlainAgainStep(runs, n);
    forall fp ensures Offered(runs, n + 1, fp) <==> Offered(runs, n, fp) || fp in runs[n] {
      OfferedStep(runs, n, fp);
    }
    hide Offered, PlainAgain, NoDuplicates, Plain, Loaded, Render;
    assert (forall fp | fp in accepted :: fp !in now) <==>
        forall fp | Offered(runs, n, fp) && fp in runs[n] :: Plain(fp);
    if AllPlain(runs, n + 1) {
      AllPlainAccepted(runs, n, accepted);
    }
  }

  lemma AllPlainAccepted(runs: seq<seq<string>>, n: nat, accepted: seq<string>)
    requires n < |runs| && RunsHold(runs, n, accepted) && AllPlain(runs, n + 1)
    ensures AllPlain(runs, n) && forall fp | fp in Loaded(Render(accepted)) :: fp in accepted
  {
    PlainIsLoaded(accepted);
    forall fp | fp in accepted ensures Plain(fp) {
      assert Offered(runs, n, fp);
    }
  }

  /** Each of the runs may stop after any number of requests. A fingerprint is accepted twice if
      and only if one that is not plain is offered in two runs; and if all are plain, every one
      offered is accepted. */
  method Runs(runs: seq<seq<string>>) returns (accepted: seq<string>)
    ensures NoDuplicates(accepted) <==> PlainAgain(runs, |runs|)
    ensures forall fp | fp in accepted :: Offered(runs, |runs|, fp)
    ensures AllPlain(runs, |runs|) ==> forall fp | Offered(runs, |runs|, fp) :: fp in accepted
  {
    accepted := [];
    var file := "";
    for n := 0 to |runs|
      invariant file == Render(accepted) && RunsHold(runs, n, accepted)
    {
      var now;
      now, file := OneRun(runs[n], file, accepted);
      RunAddsStep(runs, n, accepted, now);
      accepted := accepted + now;
    }
  }

  method OneRun(run: seq<string>, file: string, ghost earlier: seq<string>) returns (now: seq<string>, after: string)
    requires file == Render(earlier)
    ensures RunAdds(run, earlier, now) && after == Render(earlier + now)
  {
    hide Loaded, Render;
    now := [];
    var df := new RFPDupeFilter(true, file);
    for m := 0 to |run|
      invariant df.Valid() && df.persistent && df.prior == file && df.accepted == now
      invariant forall fp :: fp in now <==> fp in run[..m] && fp !in Loaded(file)
    {
      var fp := run[m];
      var seen := df.RequestSeen(fp);
      if !seen {
        now := now + [fp];
      }
      assert run[..m + 1] == run[..m] + [fp];
    }
    assert run[..|run|] == run;
    RenderConcat(earlier, now);
    after := df.file;
  }

  /** A fingerprint that ends in a space is enough. */
  method AcceptedTwice() returns (fp: string, accepted: seq<string>)
    ensures !NoDuplicates(accepted) && forall x | x in accepted :: x == fp
  {
    fp := "a ";
    var runs := [[fp], [fp]];
    accepted := Runs(runs);
    assert fp in runs[0] && fp in runs[1] && !Plain(fp);
  }
}
