/** The chip's 256-byte payload FIFO as the adaptation layer sees it, and
    the scatter list `_send` streams into it. Every FIFO access goes to the
    address in `FIFOADDRPTR`, which the chip advances by one per byte and
    which wraps at the end of the FIFO. */
module Sx127xFifo {

  const FifoSize: nat := 256

  /** The FIFO after `data` is written from address `ptr` on. */
  function WriteAt(fifo: seq<bv8>, ptr: int, data: seq<bv8>): (r: seq<bv8>)
    requires |fifo| == FifoSize && 0 <= ptr < FifoSize
    ensures |r| == FifoSize
    decreases |data|
  {
    if data == [] then fifo
    else WriteAt(fifo, ptr, data[..|data| - 1])[(ptr + |data| - 1) % FifoSize := data[|data| - 1]]
  }

  /** Adding to an address and wrapping commutes with wrapping first. */
  lemma WrapAdd(a: int, n: int)
    ensures (a % FifoSize + n) % FifoSize == (a + n) % FifoSize
  {
    var q, k1, k2 := a / FifoSize, (a % FifoSize + n) / FifoSize, (a + n) / FifoSize;
    assert a == FifoSize * q + a % FifoSize;
    assert a % FifoSize + n == FifoSize * k1 + (a % FifoSize + n) % FifoSize;
    assert a + n == FifoSize * k2 + (a + n) % FifoSize;
  }

  /** The distance from `ptr` to the address `k` bytes on is `k`. */
  lemma WrapDistance(ptr: int, k: int)
    requires 0 <= ptr < FifoSize && 0 <= k < FifoSize
    ensures ((ptr + k) % FifoSize - ptr) % FifoSize == k
  {
    if ptr + k >= FifoSize {
      assert (ptr + k) % FifoSize == ptr + k - FifoSize;
    }
  }

  /** Going from `ptr` by the wrapped distance to `x` arrives at `x`. */
  lemma WrapBack(ptr: int, x: int)
    requires 0 <= ptr < FifoSize && 0 <= x < FifoSize
    ensures (ptr + (x - ptr) % FifoSize) % FifoSize == x
  {
    if x < ptr {
      assert (x - ptr) % FifoSize == x - ptr + FifoSize;
    } else {
      assert (x - ptr) % FifoSize == x - ptr;
    }
  }

  /** The `n` bytes read from address `ptr` on. */
  function ReadAt(fifo: seq<bv8>, ptr: int, n: nat): (r: seq<bv8>)
    requires |fifo| == FifoSize && 0 <= ptr < FifoSize
    ensures |r| == n
  {
    seq(n, k requires 0 <= k < n => fifo[(ptr + k) % FifoSize])
  }

  /** A write of at most a FIFO's worth of bytes puts byte `k` at address
      `ptr + k` (mod the FIFO size) and leaves every other address alone. */
  lemma {:induction false} WriteAtCell(fifo: seq<bv8>, ptr: int, data: seq<bv8>, x: int)
    requires |fifo| == FifoSize && 0 <= ptr < FifoSize && |data| <= FifoSize
    requires 0 <= x < FifoSize
    ensures WriteAt(fifo, ptr, data)[x]
         == if (x - ptr) % FifoSize < |data| then data[(x - ptr) % FifoSize] else fifo[x]
    decreases |data|
  {
    if data != [] {
      var n := |data| - 1;
      WriteAtCell(fifo, ptr, data[..n], x);
      var q := (ptr + n) % FifoSize;
      WrapDistance(ptr, n);
      WrapBack(ptr, x);
      if x != q {
        assert (x - ptr) % FifoSize != n;
      }
    }
  }

  /** Reading back what was just written from the same address gives the
      data, as long as it fits in the FIFO. */
  lemma ReadAfterWrite(fifo: seq<bv8>, ptr: int, data: seq<bv8>)
    requires |fifo| == FifoSize && 0 <= ptr < FifoSize && |data| <= FifoSize
    ensures ReadAt(WriteAt(fifo, ptr, data), ptr, |data|) == data
  {
    var r := ReadAt(WriteAt(fifo, ptr, data), ptr, |data|);
    forall k | 0 <= k < |data|
      ensures r[k] == data[k]
    {
      var x := (ptr + k) % FifoSize;
      WriteAtCell(fifo, ptr, data, x);
      WrapDistance(ptr, k);
    }
  }

  /** Two writes, the second from where the pointer stopped, are one
      write of both. */
  lemma {:induction false} WriteAtSplit(fifo: seq<bv8>, ptr: int, a: seq<bv8>, b: seq<bv8>)
    requires |fifo| == FifoSize && 0 <= ptr < FifoSize
    ensures WriteAt(WriteAt(fifo, ptr, a), (ptr + |a|) % FifoSize, b) == WriteAt(fifo, ptr, a + b)
    decreases |b|
  {
    if b == [] {
      assert a + b == a;
    } else {
      var n := |b| - 1;
      WriteAtSplit(fifo, ptr, a, b[..n]);
      assert (a + b)[..|a + b| - 1] == a + b[..n];
      WrapAdd(ptr + |a|, n);
    }
  }

  /** The sum of the segment lengths of a scatter list. */
  function TotalLen(vector: seq<seq<bv8>>): nat
  {
    if vector == [] then 0 else TotalLen(vector[..|vector| - 1]) + |vector[|vector| - 1]|
  }

  /** The bytes of a scatter list, segment after segment. */
  function Flatten(vector: seq<seq<bv8>>): seq<bv8>
  {
    if vector == [] then [] else Flatten(vector[..|vector| - 1]) + vector[|vector| - 1]
  }

  lemma {:induction false} FlattenLength(vector: seq<seq<bv8>>)
    ensures |Flatten(vector)| == TotalLen(vector)
  {
    if vector != [] {
      FlattenLength(vector[..|vector| - 1]);
    }
  }

  lemma {:induction false} FlattenAppend(a: seq<seq<bv8>>, b: seq<seq<bv8>>)
    ensures Flatten(a + b) == Flatten(a) + Flatten(b)
    decreases |b|
  {
    if b == [] {
      assert a + b == a;
    } else {
      var n := |b| - 1;
      FlattenAppend(a, b[..n]);
      assert (a + b)[..|a + b| - 1] == a + b[..n];
    }
  }

  /** Segment `i` of a scatter list occupies the bytes right after the
      segments before it. */
  lemma SegmentInPlace(vector: seq<seq<bv8>>, i: nat)
    requires i < |vector|
    ensures var start := TotalLen(vector[..i]);
            start + |vector[i]| <= |Flatten(vector)|
            && Flatten(vector)[start..start + |vector[i]|] == vector[i]
  {
    assert vector == vector[..i] + ([vector[i]] + vector[i + 1..]);
    FlattenAppend(vector[..i], [vector[i]] + vector[i + 1..]);
    FlattenAppend([vector[i]], vector[i + 1..]);
    assert Flatten([vector[i]]) == Flatten([]) + vector[i];
    FlattenLength(vector[..i]);
  }
}
