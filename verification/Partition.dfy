/** A bounds-checked cursor over one partition of the device. */
module Partitions {
  import opened Bytes
  import opened DeviceWrappers

  class Partition {
    const dw: DeviceWrapper
    const partStart: nat
    const partLen: nat
    var offset: nat
    /** What the partition holds, seen through the cache. */
    ghost var image: seq<byte>
    /** What the rest of the device held when the partition was opened. */
    ghost const outside: nat -> byte
    ghost const capacity: nat

    /** The cursor is inside, `image` is the partition, and nothing outside it ever changed. */
    ghost predicate Valid()
      reads this, dw, dw.file
    {
      && dw.Valid()
      && |dw.file.content| == capacity
      && partStart <= offset <= partStart + partLen
      && |image| == partLen
      && (forall i | 0 <= i < partLen :: dw.At(partStart + i) == image[i])
      && (forall o: nat | o < partStart || partStart + partLen <= o :: dw.At(o) == outside(o))
    }

    /** What a reader of the device sees, inside the partition and outside it. */
    lemma View(o: nat)
      requires Valid()
      ensures dw.Valid() && |image| == partLen
      ensures dw.At(o) == if partStart <= o < partStart + partLen then image[o - partStart] else outside(o)
    {
      if partStart <= o < partStart + partLen {
        assert dw.At(partStart + (o - partStart)) == image[o - partStart];
      }
      hide DeviceWrapper.At;
    }

    /** Accesses inside the partition never fail: the device is reliable and holds the partition and its end block. */
    ghost predicate Dependable() {
      dw.file.reliable && ((partStart + partLen) / BLOCK + 1) * BLOCK <= capacity
    }

    constructor (dw: DeviceWrapper, partStart: nat, partLen: nat)
      requires dw.Valid()
      ensures Valid() && fresh(this)
      ensures this.dw == dw && this.partStart == partStart && this.partLen == partLen && offset == partStart
      ensures forall i | 0 <= i < partLen :: image[i] == dw.At(partStart + i)
      ensures forall o: nat :: outside(o) == dw.At(o)
      ensures capacity == |dw.file.content|
    {
      this.dw, this.partStart, this.partLen, offset := dw, partStart, partLen, partStart;
      ghost var cache, content := dw.cache, dw.file.content;
      assert dw.Valid();
      outside :=
        (o: nat) => if forall b | b in cache :: |cache[b].block| == BLOCK then ByteAt(cache, content, o) else 0;
      image := seq(partLen, i requires 0 <= i =>
        if forall b | b in cache :: |cache[b].block| == BLOCK then ByteAt(cache, content, partStart + i) else 0);
      capacity := |content|;
    }

    /** Reads at the cursor and moves it; throws when the range leaves the partition. */
    method Read(size: nat) returns (ok: bool, data: seq<byte>)
      requires Valid()
      modifies this`offset, dw`cache, dw.file`pos
      ensures Valid()
      ensures ok ==> offset == old(offset) + size <= partStart + partLen
                     && data == image[old(offset) - partStart..offset - partStart]
      ensures !ok ==> offset == old(offset)
      ensures Dependable() && old(offset) + size <= partStart + partLen ==> ok
    {
      if offset + size > partStart + partLen {
        return false, [];
      }
      ok, data := dw.Pread(size, offset);
      if ok {
        offset := offset + size;
      }
    }

    method Seek(pos: int) returns (ok: bool)
      requires Valid()
      modifies this`offset
      ensures Valid()
      ensures ok == (0 <= pos <= partLen)
      ensures offset == if ok then partStart + pos else old(offset)
    {
      ok := 0 <= pos <= partLen;
      if ok {
        offset := pos + partStart;
      }
    }

    function Pos(): (r: int)
      reads this
    {
      offset - partStart
    }

    /** Writes at the cursor and moves it; throws, changing nothing, when the range leaves the partition. */
    method Write(data: seq<byte>) returns (ok: bool)
      requires Valid()
      modifies this, dw, dw.file`pos
      ensures Valid()
      ensures ok ==> offset == old(offset) + |data| <= partStart + partLen
                     && image == Splice(old(image), old(offset) - partStart, data)
      ensures !ok ==> offset == old(offset) && image == old(image)
      ensures Dependable() && old(offset) + |data| <= partStart + partLen ==> ok
    {
      if offset + |data| > partStart + partLen {
        return false;
      }
      ok := dw.Pwrite(data, offset);
      if ok {
        image := Splice(image, offset - partStart, data);
        offset := offset + |data|;
      }
    }
  }
}
