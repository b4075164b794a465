/** A source of randomness (an io.Reader): a stream of bytes that may end. */
module Randomness {
  import opened Results
  import opened Bytes

  class Source {
    var pending: seq<byte>

    constructor (pending: seq<byte>)
      ensures this.pending == pending
    {
      this.pending := pending;
    }

    /** io.ReadFull: exactly n bytes, or an error at the end of the stream. */
    method ReadFull(n: nat) returns (r: Option<seq<byte>>)
      modifies this
      ensures r.Some? <==> |old(pending)| >= n
      ensures r.Some? ==> |r.value| == n && r.value + pending == old(pending)
    {
      if |pending| < n {
        pending := [];
        return None;
      }
      r := Some(pending[..n]);
      pending := pending[n..];
    }
  }
}
