/** copyBounded, which streams an upload into its temporary file without exceeding the size limit:
    internal/storage/filesystem/content_store.go:445-485. */
module BoundedCopy {
  import Int64

  type Bytes = seq<bv8>

  const COPY_BUFFER_SIZE := 32 * 1024

  datatype ReadStatus = More | EndOfFile | ReadError

  /** An io.Reader.  It hands out its bytes in chunks of any sizes, may report the end together with
      its last bytes or alone, may fail, and may also return nothing a finite number of times. */
  class Source {
    var remaining: Bytes
    var stalls: nat
    ghost var failed: bool

    method Read(limit: nat) returns (chunk: Bytes, status: ReadStatus)
      requires limit > 0
      modifies this
      ensures |chunk| <= limit && old(remaining) == chunk + remaining
      ensures failed == (old(failed) || status.ReadError?)
      ensures status.EndOfFile? ==> remaining == []
      ensures status.More? && chunk == [] ==> stalls < old(stalls)
      ensures stalls <= old(stalls)
    {
      var n: nat :| n <= limit && n <= |remaining|;
      var failing: bool := *;
      chunk, remaining := remaining[..n], remaining[n..];
      failed := failed || failing;
      if failing {
        status := ReadError;
      } else if n > 0 {
        var last: bool := *;
        status := if last && remaining == [] then EndOfFile else More;
      } else if stalls > 0 {
        stalls := stalls - 1;
        status := More;
      } else if remaining == [] {
        status := EndOfFile;
      } else {
        chunk, remaining := remaining[..1], remaining[1..];
        status := More;
      }
    }
  }

  /** io.LimitReader. */
  class LimitedSource {
    const source: Source
    var left: int

    constructor (source: Source, left: int)
      ensures this.source == source && this.left == left
    {
      this.source, this.left := source, left;
    }

    method Read(limit: nat) returns (chunk: Bytes, status: ReadStatus)
      requires limit > 0
      modifies this, source
      ensures old(source.remaining) == chunk + source.remaining
      ensures |chunk| <= limit && (old(left) > 0 ==> |chunk| <= old(left))
      ensures left == old(left) - |chunk|
      ensures old(left) <= 0 ==> chunk == [] && status.EndOfFile?
      ensures source.failed == (old(source.failed) || status.ReadError?)
      ensures old(left) > 0 && status.EndOfFile? ==> source.remaining == []
      ensures status.More? && chunk == [] ==> source.stalls < old(source.stalls)
      ensures source.stalls <= old(source.stalls)
    {
      if left <= 0 {
        return [], EndOfFile;
      }
      chunk, status := source.Read(if limit > left then left else limit);
      left := left - |chunk|;
    }
  }

  /** An io.Writer that keeps what it was given, or fails after a part of it. */
  class Sink {
    var content: Bytes
    ghost var failed: bool

    constructor ()
      ensures content == [] && !failed
    {
      content, failed := [], false;
    }

    method Write(chunk: Bytes) returns (count: nat, ok: bool)
      modifies this
      ensures count <= |chunk| && content == old(content) + chunk[..count]
      ensures failed == (old(failed) || !ok || count < |chunk|)
    {
      count :| count <= |chunk|;
      ok := *;
      content := content + chunk[..count];
      failed := failed || !ok || count < |chunk|;
    }
  }

  /** A context.Context, looked at before every read. */
  class Context {
    ghost var cancelled: bool

    method Done() returns (done: bool)
      modifies this
      ensures cancelled == (old(cancelled) || done)
    {
      done := *;
      cancelled := cancelled || done;
    }
  }

  lemma Consumed(data: Bytes, at: nat, chunk: Bytes, rest: Bytes)
    requires at <= |data| && data[at..] == chunk + rest
    ensures at + |chunk| <= |data| && chunk == data[at..at + |chunk|] && rest == data[at + |chunk|..]
  {
    assert |data[at..]| == |chunk| + |rest|;
    assert forall i | 0 <= i < |chunk| :: data[at..][i] == chunk[i];
    assert forall i | 0 <= i < |rest| :: data[at..][|chunk| + i] == rest[i];
  }

  lemma Written(data: Bytes, at: nat, chunk: Bytes, count: nat)
    requires at + |chunk| <= |data| && chunk == data[at..at + |chunk|] && count <= |chunk|
    ensures data[..at] + chunk[..count] == data[..at + count]
  {
  }

  datatype CopyResult = Copied(written: int) | TooLarge | InvalidSource | Cancelled | WriteFailed | ShortWrite

  /** With a limit below the largest int64, a copy that nothing interrupts (no failing source or
      writer, no cancellation) writes exactly the source's bytes and returns their number if they fit,
      and otherwise reports TooLarge after writing a prefix one byte longer than the limit.

      With the largest int64 itself the limit reader's bound wraps around, so nothing is read: the
      copy returns zero bytes whatever the source has.

      In every case what has been written is the first `taken` bytes of the source. */
  method CopyBounded(context: Context, destination: Sink, source: Source, maximumSize: int)
    returns (r: CopyResult, ghost taken: nat)
    requires 0 < maximumSize <= Int64.MAX
    requires !context.cancelled && !destination.failed && !source.failed
    modifies context, destination, source
    ensures r.Cancelled? <==> context.cancelled
    ensures (r.InvalidSource? ==> source.failed) && (r.Copied? ==> !source.failed)
    ensures r.WriteFailed? || r.ShortWrite? <==> destination.failed
    ensures maximumSize < Int64.MAX ==>
              && (r.Copied? ==>
                    && |old(source.remaining)| <= maximumSize && r.written == |old(source.remaining)|
                    && destination.content == old(destination.content) + old(source.remaining))
              && (r.TooLarge? ==>
                    && |old(source.remaining)| > maximumSize
                    && destination.content == old(destination.content) + old(source.remaining)[..maximumSize + 1])
    ensures maximumSize == Int64.MAX ==>
              (r == Copied(0) || r.Cancelled?) &&
              destination.content == old(destination.content)
    ensures taken <= |old(source.remaining)| && destination.content ==
              old(destination.content) + old(source.remaining)[..taken]
    ensures maximumSize < Int64.MAX ==> taken <= maximumSize + 1
  {
    ghost var data := source.remaining;
    ghost var before := destination.content;
    var limited := new LimitedSource(source, Int64.Wrap(maximumSize + 1));
    var written := 0;
    assert data[..0] == [];
    while true
      invariant limited.source == source
      invariant 0 <= written <= |data| && destination.content == before + data[..written] &&
                  source.remaining == data[written..]
      invariant maximumSize < Int64.MAX ==> written <= maximumSize && limited.left == maximumSize + 1 - written
      invariant maximumSize == Int64.MAX ==> written == 0 && limited.left == Int64.MIN
      invariant !context.cancelled && !destination.failed && !source.failed
      decreases |source.remaining|, source.stalls
    {
      var cancelled := context.Done();
      if cancelled {
        return Cancelled, written;
      }
      var chunk, status := limited.Read(COPY_BUFFER_SIZE);
      Consumed(data, written, chunk, source.remaining);
      if |chunk| > 0 {
        var remaining := maximumSize + 1 - written;
        var readCount := if |chunk| > remaining then remaining else |chunk|;
        var writeCount, ok := destination.Write(chunk[..readCount]);
        Written(data, written, chunk, writeCount);
        written := written + writeCount;
        if !ok {
          return WriteFailed, written;
        }
        if writeCount != readCount {
          return ShortWrite, written;
        }
        if written > maximumSize {
          return TooLarge, written;
        }
      }
      if status.EndOfFile? {
        assert data[..|data|] == data;
        return Copied(written), written;
      }
      if status.ReadError? {
        return InvalidSource, written;
      }
    }
  }
}
