/** Reading a response body with an upper bound on its size. */
module BodyReader {
  import opened Wrappers

  newtype Byte = b: int | 0 <= b < 256

  type Buffer = seq<Byte>

  /**
   * A body is missing, complete, or a stream. After its chunks a stream ends or fails; `closes` says whether the
   * iterator can be closed early without an error.
   */
  datatype Body = Missing | Whole(buffer: Buffer) | Stream(chunks: seq<Buffer>, fails: bool, closes: bool)

  datatype Read = Read(bytes: nat, truncated: bool, ended: bool, failed: bool)

  function Total(chunks: seq<Buffer>): nat {
    if chunks == [] then 0 else Total(chunks[..|chunks| - 1]) + |chunks[|chunks| - 1]|
  }

  lemma {:induction false} TotalOfPrefix(chunks: seq<Buffer>, k: nat)
    requires k <= |chunks|
    ensures Total(chunks[..k]) <= Total(chunks)
  {
    if k < |chunks| {
      TotalOfPrefix(chunks[..|chunks| - 1], k);
      assert chunks[..|chunks| - 1][..k] == chunks[..k];
    } else {
      assert chunks[..k] == chunks;
    }
  }

  /** The stop signal is never withdrawn; `stopped(i)` is its value when it is read for the i-th time. */
  ghost predicate StaysStopped(stopped: nat -> bool) {
    forall i: nat, j: nat :: i <= j && stopped(i) ==> stopped(j)
  }

  /** Nothing gets in the way of reading the whole stream. */
  ghost predicate Undisturbed(
    chunks: seq<Buffer>, fails: bool, maxBytes: nat, stopped: nat -> bool, accepts: nat -> bool)
  {
    !fails && Total(chunks) <= maxBytes && !stopped(|chunks|) && forall i :: 0 <= i < |chunks| ==> accepts(i)
  }

  /**
   * `delivered` lists the chunks handed to the consumer; `accepts(i)` says whether the consumer takes the i-th one
   * without an error. There is no result when the consumer refuses a complete body: its error reaches the caller.
   */
  method ReadBodyBounded(body: Body, maxBytes: nat, stopped: nat -> bool, accepts: nat -> bool)
    returns (result: Option<Read>, delivered: seq<Buffer>)
    requires StaysStopped(stopped)
    ensures result.None? <==> body.Whole? && |body.buffer| <= maxBytes && !accepts(0)
    ensures body.Missing? ==> result == Some(Read(0, false, false, false)) && delivered == []
    ensures body.Whole? && |body.buffer| > maxBytes ==>
      result == Some(Read(|body.buffer|, true, false, false)) && delivered == []
    ensures body.Whole? && |body.buffer| <= maxBytes ==> delivered == [body.buffer]
    ensures body.Whole? && |body.buffer| <= maxBytes && result.Some? ==>
      result.value == Read(|body.buffer|, false, true, false)
    ensures body.Stream? ==> StreamRead(body, maxBytes, stopped, accepts, result.value, delivered)
    ensures result.Some? ==>
      !(result.value.ended && result.value.truncated) && !(result.value.ended && result.value.failed)
  {
    match body
    case Missing =>
      return Some(Read(0, false, false, false)), [];
    case Whole(buffer) =>
      if |buffer| > maxBytes {
        return Some(Read(|buffer|, true, false, false)), [];
      }
      delivered := [buffer];
      result := if accepts(0) then Some(Read(|buffer|, false, true, false)) else None;
    case Stream(_, _, _) =>
      var read;
      read, delivered := ReadStream(body, maxBytes, stopped, accepts);
      result := Some(read);
  }

  /**
   * What a reader of a stream may rely on: it was handed a prefix within the bound; `ended` means exactly that
   * nothing got in the way, and then it was handed everything; `truncated` means the next chunk would have crossed the
   * bound; with none of the three flags set it was stopped; a failure is the stream's, the consumer's or that of
   * closing. It was never handed a chunk after the stop or after an error of the consumer.
   */
  ghost predicate StreamRead(
    body: Body, maxBytes: nat, stopped: nat -> bool, accepts: nat -> bool, read: Read, delivered: seq<Buffer>)
    requires body.Stream?
  {
    && delivered <= body.chunks && Total(delivered) <= maxBytes
    && (read.ended <==> Undisturbed(body.chunks, body.fails, maxBytes, stopped, accepts))
    && (read.ended ==> delivered == body.chunks && !read.truncated && !read.failed)
    && (if read.truncated
        then |delivered| < |body.chunks| && read.bytes == Total(delivered) + |body.chunks[|delivered|]| > maxBytes
             && read.failed == !body.closes
        else read.bytes == Total(delivered))
    && (forall i :: 0 <= i < |delivered| ==> !stopped(i))
    && (forall i :: 0 <= i < |delivered| - 1 ==> accepts(i))
    && (!read.ended && !read.truncated && !read.failed ==> stopped(|delivered|))
    && (read.failed && !read.truncated ==>
          || (body.fails && delivered == body.chunks)
          || (delivered != [] && !accepts(|delivered| - 1))
          || (stopped(|delivered|) && !body.closes))
  }

  method ReadStream(body: Body, maxBytes: nat, stopped: nat -> bool, accepts: nat -> bool)
    returns (read: Read, delivered: seq<Buffer>)
    requires StaysStopped(stopped) && body.Stream?
    ensures StreamRead(body, maxBytes, stopped, accepts, read, delivered)
  {
    var chunks := body.chunks;
    var total := 0;
    delivered := [];
    for i := 0 to |chunks|
      invariant delivered == chunks[..i] && total == Total(delivered) <= maxBytes
      invariant forall j :: 0 <= j < i ==> accepts(j) && !stopped(j)
    {
      assert chunks[..i + 1][..i] == chunks[..i];
      if stopped(i) {
        return Read(total, false, false, !body.closes), delivered;
      }
      total := total + |chunks[i]|;
      TotalOfPrefix(chunks, i + 1);
      if total > maxBytes {
        return Read(total, true, false, !body.closes), delivered;
      }
      delivered := delivered + [chunks[i]];
      if !accepts(i) {
        return Read(total, false, false, true), delivered;
      }
    }
    assert delivered == chunks;
    if body.fails {
      return Read(total, false, false, true), delivered;
    }
    read := Read(total, false, !stopped(|chunks|), false);
  }
}
