/** The growable output buffer of emulate_song: a data pointer, a size and a
    capacity that append_bytes updates in place.

    The allocator is a parameter: malloc or realloc of n bytes succeeds exactly
    when n <= heapLimit. */
module GrowBuffer {
  import opened Bytes

  /** The capacity append_bytes asks realloc for: unchanged when the data
      fits, otherwise double the old capacity, or the needed size if that is
      larger. */
  function GrownCapacity(size: nat, capacity: nat, length: nat): nat
  {
    if size + length > capacity then
      if 2 * capacity < size + length then size + length else 2 * capacity
    else capacity
  }

  /** The capacity always fits the data, grows at least twofold whenever it
      grows at all, and never asks for more than twice the data it must hold. */
  lemma GrownCapacityBounds(size: nat, capacity: nat, length: nat)
    ensures GrownCapacity(size, capacity, length) >= size + length
    ensures GrownCapacity(size, capacity, length) >= capacity
    ensures GrownCapacity(size, capacity, length) != capacity ==>
      GrownCapacity(size, capacity, length) >= 2 * capacity
    ensures size + length <= capacity ==> GrownCapacity(size, capacity, length) == capacity
    ensures size + length > capacity ==> GrownCapacity(size, capacity, length) <= 2 * (size + length)
  {
  }

  class ByteBuffer {
    /** null after a failed append, as in the source. */
    var data: array?<byte>
    var size: nat
    var capacity: nat
    /** The objects the buffer owns: itself and its current allocation. */
    ghost var Repr: set<object>

    ghost predicate Valid()
      reads this
    {
      this in Repr && (data != null ==> data in Repr) &&
      size <= capacity &&
      (data == null ==> capacity == 0) &&
      (data != null ==> data.Length == capacity)
    }

    /** The bytes appended so far. */
    function Contents(): (c: seq<byte>)
      reads this, Repr
      requires Valid()
      ensures |c| == size
    {
      if data == null then [] else data[..size]
    }

    /** The initial malloc of `capacity` bytes (the caller checks it
        against the allocator first). */
    constructor (capacity: nat)
      ensures Valid() && fresh(Repr) && data != null
      ensures this.capacity == capacity && Contents() == []
    {
      var d := new byte[capacity];
      data := d;
      size := 0;
      this.capacity := capacity;
      Repr := {this, d};
    }

    /** append_bytes: returns 0 with `src` appended, growing the capacity when
        needed, or -1 when realloc fails, leaving a null, empty buffer. */
    method Append(src: seq<byte>, heapLimit: nat) returns (status: int)
      requires Valid()
      modifies Repr
      ensures Valid() && fresh(Repr - old(Repr))
      ensures status == 0 || status == -1
      ensures status == -1 <==>
        old(size) + |src| > old(capacity) && GrownCapacity(old(size), old(capacity), |src|) > heapLimit
      ensures status == 0 ==> Contents() == old(Contents()) + src
      ensures status == 0 ==> capacity == GrownCapacity(old(size), old(capacity), |src|)
      ensures status == -1 ==> data == null && size == 0 && capacity == 0
      ensures 2 * (old(size) + |src|) <= heapLimit ==> status == 0
    {
      if size + |src| > capacity {
        var newCapacity := capacity * 2;
        if newCapacity < size + |src| {
          newCapacity := size + |src|;
        }
        if newCapacity > heapLimit {
          data := null;
          capacity := 0;
          size := 0;
          return -1;
        }
        var newData := new byte[newCapacity];
        if data != null {
          forall k | 0 <= k < size {
            newData[k] := data[k];
          }
        }
        data := newData;
        capacity := newCapacity;
        Repr := Repr + {newData};
      }
      forall k | 0 <= k < |src| {
        data[size + k] := src[k];
      }
      size := size + |src|;
      status := 0;
    }

    /** `ym_data[ym_size++] = 0` as written: no capacity check, so the
        store is only in bounds when the caller already has room. */
    method TerminateUnchecked()
      requires Valid() && size < capacity
      modifies Repr
      ensures Valid() && Repr == old(Repr) && data == old(data) && capacity == old(capacity)
      ensures Contents() == old(Contents()) + [0]
    {
      data[size] := 0;
      size := size + 1;
    }

    /** The terminating NUL appended through append_bytes, which grows the
        buffer when it is full. */
    method Terminate(heapLimit: nat) returns (status: int)
      requires Valid()
      modifies Repr
      ensures Valid() && fresh(Repr - old(Repr))
      ensures status == 0 || status == -1
      ensures status == -1 <==>
        old(size) + 1 > old(capacity) && GrownCapacity(old(size), old(capacity), 1) > heapLimit
      ensures status == 0 ==> Contents() == old(Contents()) + [0]
      ensures status == 0 ==> capacity == GrownCapacity(old(size), old(capacity), 1)
      ensures status == -1 ==> data == null && size == 0 && capacity == 0
      ensures 2 * (old(size) + 1) <= heapLimit ==> status == 0
    {
      status := Append([0], heapLimit);
    }

    /** memcpy over bytes already in the buffer (the frame-count patch). */
    method Patch(offset: nat, bytes: seq<byte>)
      requires Valid() && offset + |bytes| <= size
      modifies Repr
      ensures Valid() && Repr == old(Repr) && data == old(data) && size == old(size) && capacity == old(capacity)
      ensures Contents() == old(Contents())[..offset] + bytes + old(Contents())[offset + |bytes|..]
    {
      if data != null {
        forall k | 0 <= k < |bytes| {
          data[offset + k] := bytes[k];
        }
        assert data[..size] == old(data[..size])[..offset] + bytes + old(data[..size])[offset + |bytes|..];
      }
    }
  }

  /** A 65502-byte title appended after the 34-byte header fills the 64 KB
      buffer exactly without growing it, so the unchecked NUL store that
      follows writes one byte past the allocation. */
  lemma TitleFillsInitialBuffer()
    ensures GrownCapacity(34, 0x1_0000, 65502) == 0x1_0000
    ensures 34 + 65502 == 0x1_0000
  {
  }
}
