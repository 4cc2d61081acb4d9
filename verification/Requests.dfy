/** Values shared by the models of the scheduling stack. */
module Requests {

  datatype Option<+T> = None | Some(value: T)

  /** A crawl request, reduced to what the scheduling code reads.
      `priority` is the public attribute (higher is more urgent), `isStart` is the
      `is_start_request` meta key, `slot` is its downloader slot, and `serializable`
      says whether serializing it succeeds. */
  datatype Request = Request(
    id: nat,
    priority: int,
    isStart: bool,
    slot: string,
    fingerprint: string,
    dontFilter: bool,
    serializable: bool)
}
