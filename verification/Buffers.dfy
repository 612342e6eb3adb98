/** The `std::string` that parameters are encoded into, and raw pointers into it. */
module Buffers {
  import opened Words

  /** A `const char*` into the buffer: valid until the storage is next reallocated. */
  datatype Pointer = Pointer(epoch: nat, offset: nat)

  /** The buffer at one moment. */
  datatype Snapshot = Snapshot(contents: seq<byte>, capacity: nat, reallocations: nat)

  /** From `a` to `b` the buffer gained `bs` at its end, all of it if `ok` and otherwise a
      prefix; nothing before it changed, and storage moved only if `bs` did not fit. */
  ghost predicate Wrote(a: Snapshot, b: Snapshot, ok: bool, bs: seq<byte>) {
    && a.contents <= b.contents <= a.contents + bs
    && (ok ==> b.contents == a.contents + bs)
    && |b.contents| <= b.capacity && b.capacity >= a.capacity
    && (|a.contents| + |bs| <= a.capacity ==> b.capacity == a.capacity && b.reallocations == a.reallocations)
  }

  lemma WroteThen(a: Snapshot, b: Snapshot, c: Snapshot, ok: bool, x: seq<byte>, y: seq<byte>)
    requires Wrote(a, b, true, x) && Wrote(b, c, ok, y)
    ensures Wrote(a, c, ok, x + y)
  {
    assert a.contents + x + y == a.contents + (x + y);
  }

  lemma WroteNone(a: Snapshot, bs: seq<byte>)
    requires |a.contents| <= a.capacity
    ensures Wrote(a, a, false, bs)
  {
  }

  lemma WroteNothing(a: Snapshot)
    requires |a.contents| <= a.capacity
    ensures Wrote(a, a, true, [])
  {
  }

  lemma WrotePart(a: Snapshot, b: Snapshot, x: seq<byte>, y: seq<byte>)
    requires Wrote(a, b, false, x)
    ensures Wrote(a, b, false, x + y)
  {
    assert a.contents + x + y == a.contents + (x + y);
  }

  class Buffer {
    var contents: seq<byte>
    var capacity: nat
    var reallocations: nat

    ghost predicate Valid()
      reads this
    {
      |contents| <= capacity
    }

    ghost function State(): Snapshot
      reads this
    {
      Snapshot(contents, capacity, reallocations)
    }

    constructor ()
      ensures Valid() && contents == []
    {
      contents, capacity, reallocations := [], 0, 0;
    }

    /** Growing to `need` bytes keeps the storage exactly when the capacity suffices. */
    twostate predicate Grown(need: nat)
      reads this
    {
      && Valid()
      && (need <= old(capacity) ==> capacity == old(capacity) && reallocations == old(reallocations))
      && (need > old(capacity) ==> capacity >= need && reallocations == old(reallocations) + 1)
    }

    method Clear()
      requires Valid()
      modifies this
      ensures Grown(0) && contents == []
    {
      contents := [];
    }

    method Reserve(n: nat)
      requires Valid()
      modifies this
      ensures Grown(n) && contents == old(contents)
    {
      if n > capacity {
        capacity, reallocations := n, reallocations + 1;
      }
    }

    /** `resize(size() + n)`: storage at least doubles when it has to move. */
    method Extend(n: nat)
      requires Valid()
      modifies this
      ensures Grown(|old(contents)| + n)
      ensures contents == old(contents) + seq(n, i => 0)
    {
      var need := |contents| + n;
      if need > capacity {
        capacity, reallocations := if need > 2 * capacity then need else 2 * capacity, reallocations + 1;
      }
      contents := contents + seq(n, i => 0);
    }

    /** Stores `bs` over the last bytes, as `endian_store` does at `&back() - (n - 1)`. */
    method StoreBack(bs: seq<byte>)
      requires Valid() && |bs| <= |contents|
      modifies this`contents
      ensures Valid() && contents == old(contents)[..|old(contents)| - |bs|] + bs
    {
      contents := contents[..|contents| - |bs|] + bs;
    }

    method Append(bs: seq<byte>)
      requires Valid()
      modifies this
      ensures Grown(|old(contents)| + |bs|)
      ensures contents == old(contents) + bs
    {
      Extend(|bs|);
      StoreBack(bs);
    }

    /** `&front() + size()`. */
    function End(): Pointer
      reads this
    {
      Pointer(reallocations, |contents|)
    }

    /** `n` bytes may be read at `p`. */
    ghost predicate Readable(p: Pointer, n: int)
      reads this
    {
      p.epoch == reallocations && 0 <= n && p.offset + n <= |contents|
    }

    function Read(p: Pointer, n: int): seq<byte>
      requires Readable(p, n)
      reads this
    {
      contents[p.offset..p.offset + n]
    }
  }
}
