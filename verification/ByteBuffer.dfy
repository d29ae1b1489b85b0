/**
  The socket buffer (netlib/net/Buffer.cc): one growable array and two indices.
  It refines a byte queue, and its array stays within a bound given by the
  largest number of bytes that were ever readable at once.
 */
module ByteBuffer {
  import opened Framing

  const CHEAP_PREPEND := 8
  const INITIAL_SIZE := 1024

  function Max(a: int, b: int): int {
    if a < b then b else a
  }

  /** The largest array a buffer may own after holding `peak` readable bytes. */
  function SpaceBound(peak: nat): int {
    Max(CHEAP_PREPEND + INITIAL_SIZE, 2 * peak + CHEAP_PREPEND - 1)
  }

  /** What `readv` delivered: a byte string, or an error code. */
  datatype ReadResult = Received(bytes: Bytes) | ReadError(errno: int)

  lemma Joined<T>(s: seq<T>, i: nat, j: nat, k: nat)
    requires i <= j <= k <= |s|
    ensures s[i..k] == s[i..j] + s[j..k]
  {}

  class Buffer {
    var data: array<byte>
    var readerIndex: nat
    var writerIndex: nat
    ghost var peak: nat      // the largest readable count so far

    ghost predicate Valid()
      reads this, data
    {
      && readerIndex <= writerIndex <= data.Length
      && writerIndex - readerIndex <= peak
      && CHEAP_PREPEND + INITIAL_SIZE <= data.Length <= SpaceBound(peak)
    }

    /** The abstract byte queue. */
    ghost function Contents(): (s: Bytes)
      requires Valid()
      reads this, data
      ensures |s| == writerIndex - readerIndex
    {
      data[readerIndex..writerIndex]
    }

    constructor ()
      ensures Valid() && fresh(data) && Contents() == [] && peak == 0
      ensures readerIndex == CHEAP_PREPEND && data.Length == CHEAP_PREPEND + INITIAL_SIZE
    {
      data := new byte[CHEAP_PREPEND + INITIAL_SIZE](_ => 0);
      readerIndex, writerIndex, peak := CHEAP_PREPEND, CHEAP_PREPEND, 0;
    }

    function ReadableBytes(): int
      reads this
    {
      writerIndex - readerIndex
    }

    function WritableBytes(): int
      reads this
    {
      data.Length - writerIndex
    }

    function PrependableBytes(): int
      reads this
    {
      readerIndex
    }

    method Retrieve(len: nat)
      requires Valid() && len <= ReadableBytes()
      modifies this`readerIndex
      ensures Valid() && Contents() == old(Contents())[len..]
    {
      readerIndex := readerIndex + len;
    }

    method RetrieveAll()
      requires Valid()
      modifies this`readerIndex, this`writerIndex
      ensures Valid() && Contents() == []
    {
      readerIndex, writerIndex := CHEAP_PREPEND, CHEAP_PREPEND;
    }

    method RetrieveAsString(len: nat) returns (result: Bytes)
      requires Valid() && len <= ReadableBytes()
      modifies this`readerIndex
      ensures Valid() && result == old(Contents())[..len] && Contents() == old(Contents())[len..]
    {
      result := data[readerIndex..readerIndex + len];
      Retrieve(len);
    }

    method RetrieveAllAsString() returns (result: Bytes)
      requires Valid()
      modifies this`readerIndex
      ensures Valid() && result == old(Contents()) && Contents() == []
    {
      result := RetrieveAsString(ReadableBytes());
    }

    /** `std::copy` of a byte string into the array. */
    method CopyIn(src: Bytes, at: nat)
      requires at + |src| <= data.Length
      modifies data
      ensures data[at..at + |src|] == src
      ensures data[..at] == old(data[..at]) && data[at + |src|..] == old(data[at + |src|..])
    {
      for i := 0 to |src|
        invariant data[at..at + i] == src[..i]
        invariant data[..at] == old(data[..at]) && data[at + i..] == old(data[at + i..])
      {
        ghost var tail := data[at + i..];
        data[at + i] := src[i];
        assert src[..i + 1] == src[..i] + [src[i]];
        assert data[at + i + 1..] == tail[1..];
      }
    }

    /** `std::copy` of a stretch of the array to a lower address; the two may overlap. */
    method CopyDown(first: nat, last: nat, to: nat)
      requires to <= first <= last <= data.Length
      modifies data
      ensures data[to..to + (last - first)] == old(data[first..last])
    {
      ghost var queue := data[first..last];
      for i := 0 to last - first
        invariant forall j :: 0 <= j < i ==> data[to + j] == queue[j]
        invariant forall j :: i <= j < |queue| ==> data[first + j] == queue[j]
      {
        data[to + i] := data[first + i];
      }
    }

    /**
      Grows the array when the reclaimable prefix is too small, otherwise moves
      the readable bytes to the front.  The assertion of the compaction branch
      follows from the guard of the only caller.
     */
    method MakeSpace(len: nat)
      requires Valid() && WritableBytes() < len
      modifies this`data, this`readerIndex, this`writerIndex, this`peak, data
      ensures Valid() && Contents() == old(Contents()) && WritableBytes() >= len
      ensures data == old(data) || fresh(data)
      ensures peak == Max(old(peak), |Contents()| + len)
      ensures data != old(data) <==> old(WritableBytes() + PrependableBytes()) < len + CHEAP_PREPEND
      ensures data != old(data) ==> data.Length == old(writerIndex) + len && readerIndex == old(readerIndex)
    {
      peak := Max(peak, ReadableBytes() + len);
      if WritableBytes() + PrependableBytes() < len + CHEAP_PREPEND {
        var bigger := new byte[writerIndex + len](i requires 0 <= i reads this, data =>
          if i < data.Length then data[i] else 0);
        assert bigger[readerIndex..writerIndex] == data[readerIndex..writerIndex];
        data := bigger;
      } else {
        assert CHEAP_PREPEND < readerIndex;
        CopyDown(readerIndex, writerIndex, CHEAP_PREPEND);
        var readable := ReadableBytes();
        readerIndex := CHEAP_PREPEND;
        writerIndex := readerIndex + readable;
        assert readable == ReadableBytes();
      }
    }

    method EnsureWritableBytes(len: nat)
      requires Valid()
      modifies this`data, this`readerIndex, this`writerIndex, this`peak, data
      ensures Valid() && Contents() == old(Contents()) && WritableBytes() >= len
      ensures data == old(data) || fresh(data)
      ensures peak == old(peak) || peak == Max(old(peak), |Contents()| + len)
      ensures old(WritableBytes()) >= len ==> data == old(data) && readerIndex == old(readerIndex)
      ensures old(WritableBytes()) < len ==>
                (data != old(data) <==> old(WritableBytes() + PrependableBytes()) < len + CHEAP_PREPEND)
      ensures data != old(data) ==> data.Length == old(writerIndex) + len && readerIndex == old(readerIndex)
    {
      if WritableBytes() < len {
        MakeSpace(len);
      }
      assert WritableBytes() >= len;
    }

    /** Bytes land behind the write index and `hasWritten` claims them. */
    method Fill(src: Bytes)
      requires Valid() && |src| <= WritableBytes()
      modifies this`writerIndex, this`peak, data
      ensures Valid() && Contents() == old(Contents()) + src
      ensures peak == Max(old(peak), |Contents()|)
      ensures writerIndex == old(writerIndex) + |src|
    {
      ghost var at := writerIndex;
      ghost var queue := Contents();
      CopyIn(src, writerIndex);
      assert data[readerIndex..at] == queue by {
        assert data[readerIndex..at] == data[..at][readerIndex..];
      }
      peak := Max(peak, ReadableBytes() + |src|);
      writerIndex := writerIndex + |src|;
      Joined(data[..], readerIndex, at, writerIndex);
    }

    method Append(src: Bytes)
      requires Valid()
      modifies this, data
      ensures Valid() && Contents() == old(Contents()) + src
      ensures data == old(data) || fresh(data)
      ensures peak == Max(old(peak), |Contents()|)
      ensures old(WritableBytes()) >= |src| ==> data == old(data) && readerIndex == old(readerIndex)
      ensures old(WritableBytes()) < |src| ==>
                (data != old(data) <==> old(WritableBytes() + PrependableBytes()) < |src| + CHEAP_PREPEND)
      ensures data != old(data) ==> data.Length == old(writerIndex) + |src| && readerIndex == old(readerIndex)
    {
      EnsureWritableBytes(|src|);
      Fill(src);
    }

    method Prepend(src: Bytes)
      requires Valid() && |src| <= PrependableBytes()
      modifies this`readerIndex, this`peak, data
      ensures Valid() && Contents() == src + old(Contents())
      ensures peak == Max(old(peak), |Contents()|)
    {
      ghost var at := readerIndex;
      ghost var tail := data[at..];
      readerIndex := readerIndex - |src|;
      CopyIn(src, readerIndex);
      assert data[at..] == tail;
      assert data[at..writerIndex] == tail[..writerIndex - at];
      peak := Max(peak, ReadableBytes());
    }

    /**
      Scatter read: the kernel fills the writable part first and a 65535-byte
      array on the stack next, which is then appended.
     */
    method ReadFd(incoming: ReadResult) returns (n: int, savedErrno: int)
      requires Valid()
      requires incoming.Received? ==>
                 |incoming.bytes| <= WritableBytes() + if WritableBytes() < 65535 then 65535 else 0
      modifies this, data
      ensures Valid()
      ensures data == old(data) || fresh(data)
      ensures incoming.Received? ==>
                n == |incoming.bytes| && Contents() == old(Contents()) + incoming.bytes
                && peak == Max(old(peak), |Contents()|)
      ensures incoming.ReadError? ==>
                n == -1 && savedErrno == incoming.errno && Contents() == old(Contents()) && peak == old(peak)
    {
      savedErrno := 0;
      if incoming.ReadError? {
        return -1, incoming.errno;
      }
      n := |incoming.bytes|;
      var writable := WritableBytes();
      ghost var queue := Contents();
      var direct := if n <= writable then incoming.bytes else incoming.bytes[..writable];
      Fill(direct);
      if n > writable {
        assert writerIndex == data.Length;
        assert incoming.bytes == direct + incoming.bytes[writable..];
        Assoc(queue, direct, incoming.bytes[writable..]);
        Append(incoming.bytes[writable..]);
      }
    }

    /** `swap` exchanges the two queues and nothing else. */
    method Swap(rhs: Buffer)
      requires Valid() && rhs.Valid()
      modifies this, rhs
      ensures Valid() && rhs.Valid()
      ensures Contents() == old(rhs.Contents()) && rhs.Contents() == old(Contents())
    {
      var d, r, w := data, readerIndex, writerIndex;
      ghost var p := peak;
      data, readerIndex, writerIndex, peak := rhs.data, rhs.readerIndex, rhs.writerIndex, rhs.peak;
      rhs.data, rhs.readerIndex, rhs.writerIndex, rhs.peak := d, r, w, p;
    }
  }

  /** Every value of the space bound beyond the initial size is reached: after `n` bytes at most, 2n + 7 are held. */
  method BoundIsAttained(first: Bytes, second: Bytes) returns (b: Buffer)
    requires |second| > INITIAL_SIZE && |first| == |second| - 1
    ensures b.Valid() && b.Contents() == second && b.peak == |second|
    ensures b.data.Length == SpaceBound(b.peak) == 2 * |second| + CHEAP_PREPEND - 1
  {
    b := new Buffer();
    b.Append(first);
    b.Retrieve(|first|);
    b.Append(second);
  }
}
