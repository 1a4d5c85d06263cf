/**
 The growing output buffer of xdl_lzma_decompress, for any coder that keeps to the room it is given.
 */
module LzmaBuffer {
  import opened Options

  newtype Byte = x: int | 0 <= x < 256

  // What one call of the coder did: whether it succeeded, how much input it took, what it wrote, and
  // whether it asks to be called again (CODER_STATUS_NOT_FINISHED).
  datatype Reply = Reply(ok: bool, consumed: nat, chunk: seq<Byte>, more: bool)

  // One decompression: every reply but the last is a success that asks for more.
  predicate OneRun(replies: seq<Reply>) {
    && replies != []
    && (forall k :: 0 <= k < |replies| - 1 ==> replies[k].ok && replies[k].more)
    && !(replies[|replies| - 1].ok && replies[|replies| - 1].more)
  }

  // Input taken and output written before call k.
  function Consumed(replies: seq<Reply>, k: nat): nat
    requires k <= |replies|
  {
    if k == 0 then 0 else Consumed(replies, k - 1) + replies[k - 1].consumed
  }

  function Output(replies: seq<Reply>, k: nat): seq<Byte>
    requires k <= |replies|
  {
    if k == 0 then [] else Output(replies, k - 1) + replies[k - 1].chunk
  }

  function Grown(srcSize: nat, capacity: nat, offset: nat): (r: nat)
    ensures offset <= capacity ==> offset + 2 * srcSize <= r
    ensures capacity <= r && (r == capacity || r < offset + 4 * srcSize)
  {
    if capacity < offset + 2 * srcSize then capacity + 2 * srcSize else capacity
  }

  // The size of the buffer that call k writes to.
  function Capacity(srcSize: nat, replies: seq<Reply>, k: nat): nat
    requires k <= |replies|
  {
    if k == 0 then Grown(srcSize, 7 * srcSize, 0)
    else Grown(srcSize, Capacity(srcSize, replies, k - 1), |Output(replies, k)|)
  }

  // Call k of the coder takes no more than is left and writes no more than there is room for.
  predicate Fits(srcSize: nat, replies: seq<Reply>, k: nat)
    requires k < |replies|
  {
    && Consumed(replies, k) + replies[k].consumed <= srcSize
    && |Output(replies, k)| + |replies[k].chunk| <= Capacity(srcSize, replies, k)
  }

  predicate KeepsToRoom(srcSize: nat, replies: seq<Reply>) {
    forall k {:trigger Fits(srcSize, replies, k)} :: 0 <= k < |replies| ==> Fits(srcSize, replies, k)
  }

  /** Every call has at least twice the input size to write to, and the buffer is never larger than
      seven times the input or what is written plus four times the input. */
  lemma {:induction false} RoomAndBound(srcSize: nat, replies: seq<Reply>, k: nat)
    requires KeepsToRoom(srcSize, replies) && k < |replies|
    ensures var capacity, offset := Capacity(srcSize, replies, k), |Output(replies, k)|;
            && offset + 2 * srcSize <= capacity
            && (capacity <= 7 * srcSize || capacity <= offset + 4 * srcSize)
    decreases k
  {
    if k > 0 {
      RoomAndBound(srcSize, replies, k - 1);
      RoomForChunk(srcSize, replies, k - 1);
    }
  }

  // realloc: the old contents, as far as they fit, in a buffer of the new size.
  method Realloc(a: array<Byte>, size: nat) returns (b: array<Byte>)
    ensures fresh(b) && b.Length == size
    ensures forall i :: 0 <= i < size && i < a.Length ==> b[i] == a[i]
  {
    b := new Byte[size];
    forall i | 0 <= i < size && i < a.Length {
      b[i] := a[i];
    }
  }

  // The coder writes its chunk at an offset of the buffer.
  method WriteChunk(dst: array<Byte>, offset: nat, chunk: seq<Byte>)
    requires offset + |chunk| <= dst.Length
    modifies dst
    ensures dst[..offset + |chunk|] == old(dst[..offset]) + chunk
  {
    var i := 0;
    while i < |chunk|
      invariant 0 <= i <= |chunk|
      invariant dst[..offset] == old(dst[..offset])
      invariant dst[offset..offset + i] == chunk[..i]
    {
      dst[offset + i] := chunk[i];
      i := i + 1;
    }
    assert dst[..offset + |chunk|] == dst[..offset] + dst[offset..offset + |chunk|];
    assert chunk[..|chunk|] == chunk;
  }

  // The check at the top of the loop: a buffer too full to take twice the input is enlarged.
  method EnsureRoom(dst: array<Byte>, offset: nat, srcSize: nat) returns (r: array<Byte>)
    requires offset <= dst.Length
    ensures r == dst || fresh(r)
    ensures r.Length == if dst.Length - offset < 2 * srcSize then dst.Length + 2 * srcSize else dst.Length
    ensures r[..offset] == dst[..offset]
  {
    r := dst;
    if dst.Length - offset < 2 * srcSize {
      r := Realloc(dst, dst.Length + 2 * srcSize);
    }
  }

  lemma RoomForChunk(srcSize: nat, replies: seq<Reply>, k: nat)
    requires KeepsToRoom(srcSize, replies) && k < |replies|
    ensures |Output(replies, k)| + |replies[k].chunk| <= Capacity(srcSize, replies, k)
    ensures Output(replies, k + 1) == Output(replies, k) + replies[k].chunk
    ensures Consumed(replies, k + 1) <= srcSize
    ensures k + 1 < |replies| ==>
              Capacity(srcSize, replies, k + 1) == Grown(srcSize, Capacity(srcSize, replies, k), |Output(replies, k + 1)|)
  {
    assert Fits(srcSize, replies, k);
  }

  /** The result is the concatenation of the chunks, across every reallocation. */
  method Decompress(srcSize: nat, replies: seq<Reply>, finished: bool) returns (r: Option<array<Byte>>)
    requires OneRun(replies) && KeepsToRoom(srcSize, replies)
    ensures r.Some? <==> replies[|replies| - 1].ok && finished
    ensures r.Some? ==> fresh(r.value) && r.value[..] == Output(replies, |replies|)
  {
    var srcOffset, dstOffset := 0, 0;
    var dst := new Byte[7 * srcSize];
    var k := 0;
    ghost var written := Output(replies, 0);
    while true
      invariant 0 <= k < |replies|
      invariant fresh(dst) && 0 <= dstOffset <= dst.Length
      invariant written == Output(replies, k) && dst[..dstOffset] == written
      invariant srcOffset == Consumed(replies, k)
      invariant Grown(srcSize, dst.Length, dstOffset) == Capacity(srcSize, replies, k)
      decreases |replies| - k
    {
      dst := EnsureRoom(dst, dstOffset, srcSize);
      RoomForChunk(srcSize, replies, k);
      var reply := replies[k];
      if !reply.ok {
        return None;
      }
      WriteChunk(dst, dstOffset, reply.chunk);
      written := written + reply.chunk;
      srcOffset := srcOffset + reply.consumed;
      dstOffset := dstOffset + |reply.chunk|;
      k := k + 1;
      if !reply.more {
        break;
      }
    }
    if !finished {
      return None;
    }
    var result := Realloc(dst, dstOffset);
    assert result[..] == dst[..dstOffset];
    r := Some(result);
  }
}
