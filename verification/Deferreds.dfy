/** Twisted's Deferred, as far as the closing protocols and the waiters of robots.txt depend on
    it. */
module Deferreds {
  import opened Requests

  /** A deferred that somebody may be waiting for, from the side of the code that fires it. */
  datatype Closing = NotSet | Waiting | Fired

  /** What the `k`-th coroutine that awaits one deferred gets from it. Awaiting adds a callback,
      directly or through a future, and what a callback returns is what the next one is called
      with. These callbacks return None, so that the first coroutine takes the result away. */
  function Awaited<T>(result: Option<T>, k: nat): Option<T> {
    if k == 0 then result else None
  }
}
