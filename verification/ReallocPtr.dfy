/** The growable buffer of src/api/c/realloc_ptr.hpp. */
module ReallocPtr {
  function Pow2(k: nat): (p: nat)
    ensures 0 < p
  {
    if k == 0 then 1 else 2 * Pow2(k - 1)
  }

  /** value is the least power of two that is at least total. */
  ghost predicate LeastPow2AtLeast(value: nat, total: nat) {
    && total <= value
    && exists k: nat :: value == Pow2(k) && (k > 0 ==> Pow2(k - 1) < total)
  }

  lemma {:induction false} Pow2Monotone(j: nat, k: nat)
    requires j <= k
    ensures Pow2(j) <= Pow2(k)
    decreases k - j
  {
    if j < k {
      Pow2Monotone(j, k - 1);
    }
  }

  /** Least it is: no smaller power of two will do. */
  lemma LeastPow2IsLeast(value: nat, total: nat, j: nat)
    requires LeastPow2AtLeast(value, total) && total <= Pow2(j)
    ensures value <= Pow2(j)
  {
    var k: nat :| value == Pow2(k) && (k > 0 ==> Pow2(k - 1) < total);
    if j < k {
      Pow2Monotone(j, k - 1);
    }
    Pow2Monotone(k, if k <= j then j else k);
  }

  /**
   `greater_pow2` for a product of element count and size below 2^31, where the shift of
   an int does not overflow.
   */
  method GreaterPow2(n: nat, elementSize: nat) returns (value: nat)
    requires n * elementSize < 0x8000_0000
    ensures 1 <= n * elementSize ==> LeastPow2AtLeast(value, n * elementSize)
    ensures n * elementSize == 0 ==> value == 2
  {
    var totalSize := n * elementSize;
    var bits: nat := 0;
    var div2 := totalSize;
    while div2 > 1
      invariant totalSize > 0 ==> 1 <= div2
      invariant totalSize > 0 ==> div2 * Pow2(bits) <= totalSize < (div2 + 1) * Pow2(bits)
      invariant totalSize == 0 ==> div2 == 0 && bits == 0
      decreases div2
    {
      HalveStep(div2, Pow2(bits), totalSize);
      div2 := div2 / 2;
      bits := bits + 1;
    }
    value := Pow2(bits);
    if value != totalSize {
      value := value * 2;
      assert value == Pow2(bits + 1);
    } else {
      assert bits > 0 ==> Pow2(bits - 1) < totalSize;
    }
  }

  lemma HalveStep(d: nat, p: nat, total: nat)
    requires d * p <= total < (d + 1) * p
    ensures d / 2 * (2 * p) <= total < (d / 2 + 1) * (2 * p)
  {
    assert d / 2 * (2 * p) == d / 2 * 2 * p;
    assert d / 2 * 2 <= d < d / 2 * 2 + 2;
    assert d / 2 * 2 * p <= d * p;
    assert (d + 1) * p <= (d / 2 * 2 + 2) * p == (d / 2 + 1) * (2 * p);
  }

  /** The doubling loop of `reserve`: the least size * 2^k strictly above the request. */
  function Doubled(size: nat, request: nat): (r: nat)
    requires 0 < size
    ensures request < r
    ensures size <= r
    decreases if size <= request then request - size + 1 else 0
  {
    if request < size then size else Doubled(2 * size, request)
  }

  /** r is size * 2^k for some k. */
  predicate IsDoubling(size: nat, r: nat)
    requires 0 < size
    decreases r
  {
    size <= r && (r == size || (r % 2 == 0 && IsDoubling(size, r / 2)))
  }

  lemma {:induction false} FromTwice(size: nat, r: nat)
    requires 0 < size && IsDoubling(size, r) && r != size
    ensures IsDoubling(2 * size, r)
    decreases r
  {
    if r / 2 != size {
      FromTwice(size, r / 2);
    }
  }

  lemma {:induction false} IsDoublingTrans(a: nat, b: nat, c: nat)
    requires 0 < a && IsDoubling(a, b) && IsDoubling(b, c)
    ensures IsDoubling(a, c)
    decreases c
  {
    if b != c {
      IsDoublingTrans(a, b, c / 2);
    }
  }

  lemma {:induction false} DoubledIsDoubling(size: nat, request: nat)
    requires 0 < size
    ensures IsDoubling(size, Doubled(size, request))
    decreases if size <= request then request - size + 1 else 0
  {
    if size <= request {
      DoubledIsDoubling(2 * size, request);
      IsDoublingTrans(size, 2 * size, Doubled(size, request));
    }
  }

  /** Doubled is the least of the numbers size * 2^k that exceed the request. */
  lemma {:induction false} DoubledIsLeast(size: nat, request: nat, r: nat)
    requires 0 < size && IsDoubling(size, r) && request < r
    ensures IsDoubling(size, Doubled(size, request)) && request < Doubled(size, request) <= r
    decreases if size <= request then request - size + 1 else 0
  {
    DoubledIsDoubling(size, request);
    if size <= request {
      FromTwice(size, r);
      DoubledIsLeast(2 * size, request, r);
    }
  }

  lemma {:induction false} DoubledAtMostTwice(size: nat, request: nat)
    requires 0 < size <= request
    ensures Doubled(size, request) <= 2 * request
    decreases request - size
  {
    if 2 * size <= request {
      DoubledAtMostTwice(2 * size, request);
    }
  }

  class Buffer<T(0)> {
    const initialSize: nat
    const maxSize: nat
    var size: nat
    var p: array<T>
    ghost var reallocated: nat   // the sizes passed to successful calls of realloc, added up

    ghost predicate Valid()
      reads this
    {
      && 0 < initialSize <= size == p.Length
      && IsDoubling(initialSize, size)
      && reallocated + 2 * initialSize <= 2 * size
    }

    constructor (initialSize: nat, maxSize: nat)
      requires 0 < initialSize
      ensures Valid() && fresh(p) && size == initialSize
      ensures this.initialSize == initialSize && this.maxSize == maxSize && reallocated == 0
    {
      this.initialSize := initialSize;
      this.maxSize := maxSize;
      size := initialSize;
      p := new T[initialSize];
      reallocated := 0;
    }

    /** realloc to a larger size: the old elements first, or nothing when memory runs out. */
    method Realloc(newSize: nat, available: bool) returns (ok: bool)
      requires Valid() && 2 * size <= newSize && size > 0 && IsDoubling(size, newSize)
      modifies this
      ensures Valid() && ok == available
      ensures ok ==> fresh(p) && size == newSize && p[..old(size)] == old(p[..])
      ensures ok ==> reallocated == old(reallocated) + newSize
      ensures !ok ==> unchanged(this)
    {
      if !available {
        return false;
      }
      var tmp := new T[newSize];
      forall i | 0 <= i < size {
        tmp[i] := p[i];
      }
      IsDoublingTrans(initialSize, size, newSize);
      assert tmp[..size] == p[..];
      p := tmp;
      size := newSize;
      reallocated := reallocated + newSize;
      ok := true;
    }

    /** `grow`; available is whether realloc finds the memory. */
    method Grow(available: bool) returns (ok: bool)
      requires Valid()
      modifies this
      ensures Valid()
      ensures ok <==> available && 2 * old(size) <= maxSize
      ensures ok ==> fresh(p) && size == 2 * old(size) && p[..old(size)] == old(p[..])
      ensures !ok ==> unchanged(this)
    {
      var newSize := size * 2;
      if newSize > maxSize {
        return false;
      }
      ok := Realloc(newSize, available);
    }

    /**
     `reserve`: room for more than the request. On success the size is the least
     initial * 2^k that is not below the old size and exceeds the request, and the old
     elements are kept; on failure nothing changes.
     */
    method Reserve(request: nat, available: bool) returns (ok: bool)
      requires Valid()
      modifies this
      ensures Valid()
      ensures ok <==> request < old(size) || (request <= maxSize && available)
      ensures old(size) <= size && (ok ==> request < size)
      ensures ok ==>
                size == Doubled(old(size), request) && size <= (if request < old(size) then old(size) else 2 * maxSize)
      ensures ok ==> p[..old(size)] == old(p[..]) && (p == old(p) || fresh(p))
      ensures request < old(size) || !ok ==> unchanged(this)
    {
      if request < size {
        assert p[..size] == p[..];
        return true;
      }
      if request > maxSize {
        return false;
      }
      var newSize := size;
      while request >= newSize
        invariant size <= newSize
        invariant IsDoubling(size, newSize)
        invariant Doubled(newSize, request) == Doubled(size, request)
        invariant newSize == size || 2 * size <= newSize
        decreases request - newSize
      {
        newSize := newSize * 2;
      }
      DoubledAtMostTwice(size, request);
      ok := Realloc(newSize, available);
    }

    /** `copy` of nSrc elements of src, from index iSrc on, to index iDst. (The other two forms have iSrc 0.) */
    method Copy(src: Buffer<T>, iSrc: nat, nSrc: nat, iDst: nat, available: bool) returns (ok: bool)
      requires Valid() && src.Valid() && src != this && src.p != p && iSrc + nSrc <= src.size
      modifies this, p
      ensures Valid() && src.Valid()
      ensures ok <==> iDst + nSrc < old(size) || (iDst + nSrc <= maxSize && available)
      ensures ok ==> iDst + nSrc < size && p[iDst..iDst + nSrc] == src.p[iSrc..iSrc + nSrc]
      ensures old(size) <= size
      ensures ok ==> forall k :: 0 <= k < old(size) && !(iDst <= k < iDst + nSrc) ==> p[k] == old(p[k])
      ensures src.p[..] == old(src.p[..])
      ensures !ok ==> unchanged(this) && p[..] == old(p[..])
      ensures p == old(p) || fresh(p)
    {
      ok := Reserve(iDst + nSrc, available);
      if ok {
        assert forall k :: 0 <= k < old(size) ==> p[..old(size)][k] == p[k];
        forall k | 0 <= k < nSrc {
          p[iDst + k] := src.p[iSrc + k];
        }
        assert forall k :: iDst <= k < iDst + nSrc ==> p[k] == src.p[iSrc + (k - iDst)];
      }
    }

    /** `move` of nSrc elements inside the buffer, as memmove does it. */
    method Move(iSrc: nat, nSrc: nat, iDst: nat, available: bool) returns (ok: bool)
      requires Valid() && iSrc + nSrc <= size
      modifies this, p
      ensures Valid()
      ensures ok <==> iDst + nSrc < old(size) || (iDst + nSrc <= maxSize && available)
      ensures ok ==> iDst + nSrc < size && p[iDst..iDst + nSrc] == old(p[iSrc..iSrc + nSrc])
      ensures old(size) <= size
      ensures ok ==> forall k :: 0 <= k < old(size) && !(iDst <= k < iDst + nSrc) ==> p[k] == old(p[k])
      ensures !ok ==> unchanged(this) && p[..] == old(p[..])
      ensures p == old(p) || fresh(p)
    {
      ok := Reserve(iDst + nSrc, available);
      if ok {
        assert forall k :: 0 <= k < old(size) ==> p[..old(size)][k] == p[k];
        ghost var before := p[..];
        forall k | 0 <= k < nSrc {
          p[iDst + k] := p[iSrc + k];
        }
        assert forall k :: iDst <= k < iDst + nSrc ==> p[k] == before[iSrc + (k - iDst)];
      }
    }
  }
}
