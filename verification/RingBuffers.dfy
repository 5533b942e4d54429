/** The byte ring of `ringbuffer.c`: a power-of-two array addressed by two free-running unsigned
32-bit counters.  `RingBuffer.Contents` is the byte sequence the ring stands for; every operation
is proved to act on it as on a bounded first-in first-out queue, across the end of the array and
across the wrap-around of the counters.
 */
module RingBuffers {
  import opened Words

  const MAX_SIZE: nat := 262144

  //
  // Masking with a power of two less one.
  //

  function BitAnd(a: nat, b: nat): nat {
    if a == 0 || b == 0 then 0 else 2 * BitAnd(a / 2, b / 2) + if a % 2 == 1 && b % 2 == 1 then 1 else 0
  }

  predicate PowerOfTwo(n: nat) {
    n == 1 || (n > 1 && n % 2 == 0 && PowerOfTwo(n / 2))
  }

  lemma ModDouble(x: nat, m: nat)
    requires m > 0
    ensures x % (2 * m) == 2 * ((x / 2) % m) + x % 2
  {
    var q, r := (x / 2) / m, (x / 2) % m;
    assert x / 2 == q * m + r;
    assert x == q * (2 * m) + (2 * r + x % 2);
    ModUnique(x, 2 * m, q, 2 * r + x % 2);
  }

  lemma MulAtLeast(a: int, n: int)
    requires a >= 1 && n > 0
    ensures a * n >= n
  {
  }

  lemma ModUnique(x: int, n: int, q: int, r: int)
    requires n > 0 && 0 <= r < n && x == q * n + r
    ensures x % n == r
  {
    var d := x / n - q;
    assert d * n == r - x % n by {
      assert x == (x / n) * n + x % n;
      assert (x / n) * n - q * n == d * n;
    }
    if d >= 1 {
      MulAtLeast(d, n);
    } else if d <= -1 {
      MulAtLeast(-d, n);
    }
  }

  lemma MaskStep(x: nat, m: nat)
    requires m > 0
    ensures BitAnd(x, 2 * m - 1) == 2 * BitAnd(x / 2, m - 1) + x % 2
  {
    assert (2 * m - 1) / 2 == m - 1 && (2 * m - 1) % 2 == 1;
  }

  /** Masking with `n - 1` is the remainder by `n`, for every power of two `n`. */
  lemma {:induction false} MaskIsMod(x: nat, n: nat)
    requires PowerOfTwo(n)
    ensures BitAnd(x, n - 1) == x % n
    decreases n
  {
    if n == 1 {
      assert x % 1 == 0;
    } else {
      var m := n / 2;
      MaskIsMod(x / 2, m);
      MaskStep(x, m);
      ModDouble(x, m);
    }
  }

  lemma {:induction false} PowersDivide(n: nat, m: nat)
    requires PowerOfTwo(n) && PowerOfTwo(m) && n <= m
    ensures m % n == 0
    decreases n
  {
    if n > 1 {
      PowersDivide(n / 2, m / 2);
      ModDouble(m, n / 2);
    } else {
      assert m % 1 == 0;
    }
  }

  lemma {:induction false} NextPower(n: nat, m: nat)
    requires PowerOfTwo(n) && PowerOfTwo(m) && n < m
    ensures PowerOfTwo(2 * n) && 2 * n <= m
    decreases n
  {
    if n > 1 {
      NextPower(n / 2, m / 2);
    }
  }

  lemma Power16(n: nat)
    requires PowerOfTwo(n)
    ensures PowerOfTwo(16 * n)
  {
    assert PowerOfTwo(2 * n);
    assert PowerOfTwo(4 * n);
    assert PowerOfTwo(8 * n);
  }

  lemma MaxSizeIsPower()
    ensures PowerOfTwo(MAX_SIZE)
  {
    assert PowerOfTwo(4);
    Power16(4);
    Power16(0x40);
    Power16(0x400);
    Power16(0x4000);
  }

  lemma U32IsPower()
    ensures PowerOfTwo(U32)
  {
    Power16(1);
    Power16(0x10);
    Power16(0x100);
    Power16(0x1000);
    Power16(0x1_0000);
    Power16(0x10_0000);
    Power16(0x100_0000);
    Power16(0x1000_0000);
  }

  lemma ModOfLargerPower(x: nat, n: nat, m: nat)
    requires PowerOfTwo(n) && PowerOfTwo(m) && n <= m
    ensures (x % m) % n == x % n
  {
    PowersDivide(n, m);
    DivExact(m, n);
    ModOfMultiple(x, n, m / n, m);
  }

  lemma DivExact(m: nat, n: nat)
    requires n > 0 && m % n == 0
    ensures m == (m / n) * n
  {
  }

  /** Reducing modulo 2^32 first does not change the slot an index falls in. */
  lemma WrapKeepsSlot(x: nat, n: nat)
    requires PowerOfTwo(n) && n <= U32
    ensures (x % U32) % n == x % n
  {
    U32IsPower();
    ModOfLargerPower(x, n, U32);
  }

  lemma ModOfMultiple(x: nat, n: nat, k: nat, m: nat)
    requires n > 0 && m == k * n && m > 0
    ensures (x % m) % n == x % n
  {
    var q, r := x / m, x % m;
    var q', r' := r / n, r % n;
    assert x == (q * k + q') * n + r' by {
      assert x == q * m + r && r == q' * n + r';
      assert q * (k * n) == (q * k) * n;
    }
    ModUnique(x, n, q * k + q', r');
  }

  /** Index `k` of a window that starts inside an array of length `n` and may run over its end. */
  function Wrap(k: nat, n: nat): nat {
    if k < n then k else k - n
  }

  lemma SlotOfSum(a: nat, i: nat, n: nat)
    requires 0 < n && i <= n
    ensures (a + i) % n == Wrap(a % n + i, n)
  {
    var q, r := a / n, a % n;
    if r + i < n {
      ModUnique(a + i, n, q, r + i);
    } else {
      assert a + i == (q + 1) * n + (r + i - n);
      ModUnique(a + i, n, q + 1, r + i - n);
    }
  }

  /** The array index a counter stands for. */
  function Slot(counter: nat, n: nat): (k: nat)
    requires 0 < n
    ensures k < n
  {
    counter % n
  }

  lemma SlotAdvance(a: nat, i: nat, n: nat)
    requires PowerOfTwo(n) && n <= U32 && i <= n
    ensures Slot((a + i) % U32, n) == Wrap(Slot(a, n) + i, n)
  {
    WrapKeepsSlot(a + i, n);
    SlotOfSum(a, i, n);
  }

  function Min(a: nat, b: nat): nat {
    if a < b then a else b
  }

  /** `n` bytes of `a` from index `start`, continuing at index 0 after the last one. */
  ghost function Window(a: seq<bv8>, start: nat, n: nat): (w: seq<bv8>)
    requires start < |a| && n <= |a|
    ensures |w| == n
    ensures forall i :: 0 <= i < n ==> w[i] == a[Wrap(start + i, |a|)]
  {
    seq(n, i requires 0 <= i < n => a[Wrap(start + i, |a|)])
  }

  lemma WindowSplit(a: seq<bv8>, start: nat, n: nat, m: nat)
    requires start < |a| && n + m <= |a|
    ensures Window(a, start, n + m) == Window(a, start, n) + Window(a, Wrap(start + n, |a|), m)
  {
  }

  lemma WindowPrefix(a: seq<bv8>, start: nat, n: nat, k: nat)
    requires start < |a| && k <= n <= |a|
    ensures Window(a, start, n)[..k] == Window(a, start, k)
  {
  }

  lemma WindowDrop(a: seq<bv8>, start: nat, n: nat, k: nat)
    requires start < |a| && k <= n <= |a|
    ensures Window(a, start, n)[k..] == Window(a, Wrap(start + k, |a|), n - k)
  {
  }

  /** Index `k` lies in the window of `n` slots from `start`, in an array of length `size`. */
  predicate InWindow(k: nat, start: nat, n: nat, size: nat) {
    if start + n <= size then start <= k < start + n else start <= k || k < start + n - size
  }

  /** The used window and the free window after it do not overlap. */
  lemma WindowUntouched(a: seq<bv8>, b: seq<bv8>, start: nat, len: nat, n: nat)
    requires start < |a| == |b| && len + n <= |a|
    requires forall k :: 0 <= k < |a| && !InWindow(k, Wrap(start + len, |a|), n, |a|) ==> b[k] == a[k]
    ensures Window(b, start, len) == Window(a, start, len)
  {
  }

  /** Copies `data` into `a` from index `offset`, up to the end of the array and then from its
      beginning: the two `memcpy` calls of a write. */
  method CopyAround(a: array<bv8>, offset: nat, data: seq<bv8>)
    requires offset < a.Length && |data| <= a.Length
    modifies a
    ensures Window(a[..], offset, |data|) == data
    ensures forall k :: 0 <= k < a.Length && !InWindow(k, offset, |data|, a.Length) ==> a[k] == old(a[k])
  {
    var end := Min(|data|, a.Length - offset);
    forall i | 0 <= i < end {
      a[offset + i] := data[i];
    }
    forall i | 0 <= i < |data| - end {
      a[i] := data[end + i];
    }
  }

  lemma WindowIsSlices(a: seq<bv8>, start: nat, n: nat, end: nat)
    requires start < |a| && n <= |a| && end == Min(n, |a| - start)
    ensures Window(a, start, n) == a[start..start + end] + a[..n - end]
  {
  }

  /** Unsigned 32-bit subtraction. */
  function Diff(a: nat, b: nat): nat {
    (a - b) % U32
  }

  lemma DiffAfterAdvance(a: nat, b: nat, n: nat)
    requires a < U32 && b < U32 && Diff(a, b) + n < U32
    ensures Diff((a + n) % U32, b) == Diff(a, b) + n
  {
  }

  lemma DiffAfterDrain(a: nat, b: nat, n: nat)
    requires a < U32 && b < U32 && n <= Diff(a, b)
    ensures Diff(a, (b + n) % U32) == Diff(a, b) - n
    ensures (b + n) % U32 == a <==> n == Diff(a, b)
  {
  }

  lemma DiffRoundTrip(a: nat, b: nat)
    requires a < U32 && b < U32
    ensures a == (b + Diff(a, b)) % U32
  {
  }

  /** Stepping a pointer by one follows the window until the pointer reaches the end of the array. */
  lemma NextPtr(start: nat, pos: nat, len: nat, wrap: nat, size: nat)
    requires start < size && pos < len <= size && wrap == Min(len, size - start)
    ensures pos + 1 != wrap ==> Wrap(start + pos, size) + 1 == Wrap(start + pos + 1, size)
  {
  }

  class RingBuffer {
    const buffer: array<bv8>
    const size: nat
    const mask: nat
    var inp: nat
    var outp: nat

    ghost predicate Valid()
      reads this
    {
      && PowerOfTwo(size) && size <= MAX_SIZE
      && buffer.Length == size && mask == size - 1
      && inp < U32 && outp < U32
      && Diff(inp, outp) <= size
    }

    /** Number of bytes held: the difference of the counters in unsigned arithmetic. */
    function Len(): (n: nat)
      reads this
      requires Valid()
      ensures n <= size
    {
      Diff(inp, outp)
    }

    function Avail(): (n: nat)
      reads this
      requires Valid()
      ensures n == size - Len()
    {
      (size - inp + outp) % U32
    }

    /** The first byte's index, and the index of the first free slot. */
    ghost function Head(): (k: nat)
      reads this
      requires Valid()
      ensures k < size
    {
      Slot(outp, size)
    }

    ghost function Tail(): (k: nat)
      reads this
      requires Valid()
      ensures k < size
    {
      Slot(inp, size)
    }

    /** The bytes held, oldest first. */
    ghost function Contents(): (s: seq<bv8>)
      reads this, buffer
      requires Valid()
      ensures |s| == Len()
    {
      Window(buffer[..], Head(), Len())
    }

    /** The bytes in the free slots, in the order they will be claimed. */
    ghost function Free(): (s: seq<bv8>)
      reads this, buffer
      requires Valid()
      ensures |s| == Avail()
    {
      Window(buffer[..], Tail(), Avail())
    }

    lemma ByteAt(pos: nat)
      requires Valid() && pos < Len()
      ensures Wrap(Head() + pos, size) < size
      ensures buffer[Wrap(Head() + pos, size)] == Contents()[pos]
    {
    }

    lemma TailAfterHead()
      requires Valid()
      ensures Tail() == Wrap(Head() + Len(), size)
    {
      DiffRoundTrip(inp, outp);
      SlotAdvance(outp, Len(), size);
    }

    lemma SlotAfter(a: nat, offset: nat)
      requires Valid() && offset <= size
      ensures BitAnd((a + offset) % U32, mask) == Wrap(Slot(a, size) + offset, size)
    {
      MaskIsMod((a + offset) % U32, size);
      SlotAdvance(a, offset, size);
    }

    /** Rounds the requested size up to a power of two, but not beyond `MAX_SIZE`. */
    constructor (requested: nat)
      requires requested < U32
      ensures Valid() && fresh(buffer)
      ensures Contents() == [] && inp == 0 && outp == 0
      ensures Min(requested, MAX_SIZE) <= size
      ensures size == 1 || size < 2 * requested
    {
      MaxSizeIsPower();
      var realSize := 1;
      while realSize < requested && realSize < MAX_SIZE
        invariant PowerOfTwo(realSize) && realSize <= MAX_SIZE
        invariant realSize == 1 || realSize < 2 * requested
        decreases MAX_SIZE - realSize
      {
        NextPower(realSize, MAX_SIZE);
        realSize := 2 * realSize;
      }
      buffer := new bv8[realSize];
      size, mask := realSize, realSize - 1;
      inp, outp := 0, 0;
    }

    function WritePtr(offset: nat): (k: nat)
      reads this
      requires Valid() && offset <= size
      ensures k == Wrap(Tail() + offset, size)
    {
      SlotAfter(inp, offset);
      BitAnd((inp + offset) % U32, mask)
    }

    function ReadPtr(offset: nat): (k: nat)
      reads this
      requires Valid() && offset <= size
      ensures k == Wrap(Head() + offset, size)
    {
      SlotAfter(outp, offset);
      BitAnd((outp + offset) % U32, mask)
    }

    function AvailNoWrap(): (n: nat)
      reads this
      requires Valid()
      ensures n == Min(Avail(), size - Tail())
    {
      MaskIsMod(inp, size);
      var offset := BitAnd(inp, mask);
      Min((size - inp + outp) % U32, size - offset)
    }

    function LenNoWrap(): (n: nat)
      reads this
      requires Valid()
      ensures n == Min(Len(), size - Head())
    {
      MaskIsMod(outp, size);
      var offset := BitAnd(outp, mask);
      Min(Diff(inp, outp), size - offset)
    }

    /** A store through the write pointer, `pos` bytes past the write position. */
    method Store(ptr: nat, x: bv8, ghost pos: nat)
      requires Valid() && pos < Avail() && ptr == Wrap(Tail() + pos, size)
      modifies buffer
      ensures Valid() && Contents() == old(Contents())
      ensures Free() == old(Free())[pos := x]
    {
      TailAfterHead();
      buffer[ptr] := x;
    }

    method WriteAdvance(len: nat) returns (n: nat)
      requires Valid()
      modifies this
      ensures Valid() && n == Min(len, old(Avail()))
      ensures Contents() == old(Contents()) + old(Free())[..n]
      ensures Avail() == old(Avail()) - n
    {
      hide PowerOfTwo, Slot;
      n := Min(len, (size - inp + outp) % U32);
      TailAfterHead();
      WindowPrefix(buffer[..], Tail(), Avail(), n);
      WindowSplit(buffer[..], Head(), Len(), n);
      DiffAfterAdvance(inp, outp, n);
      ghost var total := Len() + n;
      inp := (inp + n) % U32;
      assert Len() == total;
    }

    /** Fills the first free slots and leaves the bytes held alone. */
    method CopyIn(data: seq<bv8>)
      requires Valid() && |data| <= Avail()
      modifies buffer
      ensures Valid() && Contents() == old(Contents())
      ensures Free()[..|data|] == data
    {
      MaskIsMod(inp, size);
      TailAfterHead();
      CopyAround(buffer, BitAnd(inp, mask), data);
      WindowPrefix(buffer[..], Tail(), Avail(), |data|);
      WindowUntouched(old(buffer[..]), buffer[..], Head(), Len(), |data|);
    }

    /** Appends as much of `data` as there is room for. */
    method Write(data: seq<bv8>) returns (n: nat)
      requires Valid()
      modifies this, buffer
      ensures Valid() && n == Min(|data|, old(Avail()))
      ensures Contents() == old(Contents()) + data[..n]
      ensures Avail() == old(Avail()) - n
    {
      n := Min(|data|, (size - inp + outp) % U32);
      CopyIn(data[..n]);
      n := WriteAdvance(n);
    }

    method Drain(len: nat) returns (n: nat)
      requires Valid()
      modifies this
      ensures Valid() && n == Min(len, old(Len()))
      ensures Contents() == old(Contents())[n..]
      ensures Len() == 0 ==> inp == 0 && outp == 0
    {
      hide PowerOfTwo, Slot;
      n := Min(len, Diff(inp, outp));
      WindowDrop(buffer[..], Head(), Len(), n);
      SlotAdvance(outp, n, size);
      DiffAfterDrain(inp, outp, n);
      outp := (outp + n) % U32;
      if outp == inp {
        inp, outp := 0, 0;
      }
    }

    method CopyOut(n: nat) returns (data: seq<bv8>)
      requires Valid() && n <= Len()
      ensures data == Contents()[..n]
    {
      MaskIsMod(outp, size);
      var offset := BitAnd(outp, mask);
      var end := Min(n, size - offset);
      data := buffer[offset..offset + end] + buffer[..n - end];
      WindowPrefix(buffer[..], offset, Len(), n);
      WindowIsSlices(buffer[..], offset, n, end);
      assert buffer[..][offset..offset + end] == buffer[offset..offset + end];
      assert buffer[..][..n - end] == buffer[..n - end];
    }

    /** Removes and returns up to `len` bytes. */
    method Read(len: nat) returns (data: seq<bv8>)
      requires Valid()
      modifies this
      ensures Valid() && |data| == Min(len, old(Len()))
      ensures data + Contents() == old(Contents())
    {
      data := CopyOut(Min(len, Diff(inp, outp)));
      var n := Drain(|data|);
    }

    method Reset()
      requires Valid()
      modifies this
      ensures Valid() && Contents() == []
    {
      inp, outp := 0, 0;
    }
  }
}
