/** `buffer`, a growable byte buffer with room reserved at its head, and `buffer_view`, a read cursor over bytes.
    Sizes are unbounded naturals here; see README for size_t. */
module Buffers {
  import opened Bits

  type Byte = b: int | 0 <= b < 256

  /** `256 - 4 * sizeof(size_t) - sizeof(std::unique_ptr<char[]>)` with eight-byte sizes and pointers */
  const STACK_CAPACITY: nat := 216

  ghost predicate IsPow2(x: nat) {
    exists k: nat :: x == Pow2(k)
  }

  /** The least power of two that is at least `x`, for `0 < x <= 2^32`; never less than `x`. */
  method NextPow2(x: nat) returns (r: nat)
    ensures x <= r
    ensures 0 < x <= 0x1_0000_0000 ==> IsPow2(r) && r < 2 * x
  {
    if x == 0 {
      return 0;
    }
    ghost var w := Width(x);
    AndPredecessor(x, w);
    if BitAnd(x, x - 1) == 0 {
      return x;
    }
    TopBit(x, w);
    hide *;
    var y, s := x, 1;
    OrAtLeast(y, Shr(y, 1));
    Smear(y, w, 1);
    y := BitOr(y, Shr(y, 1));
    OrAtLeast(y, Shr(y, 2));
    Smear(y, w, 2);
    y := BitOr(y, Shr(y, 2));
    OrAtLeast(y, Shr(y, 4));
    Smear(y, w, 4);
    y := BitOr(y, Shr(y, 4));
    OrAtLeast(y, Shr(y, 8));
    Smear(y, w, 8);
    y := BitOr(y, Shr(y, 8));
    OrAtLeast(y, Shr(y, 16));
    Smear(y, w, 16);
    y := BitOr(y, Shr(y, 16));
    r := y + 1;
    if x <= 0x1_0000_0000 {
      SmearedResult(x, y, w);
    }
  }

  lemma SmearedResult(x: nat, y: nat, w: nat)
    requires 0 < x <= 0x1_0000_0000 && w > 0 && Pow2(w - 1) <= x < Pow2(w) && x != Pow2(w - 1)
    requires Smeared(y, w, 32)
    ensures IsPow2(y + 1) && y + 1 < 2 * x
  {
    Pow2Values();
    Pow2Less(w - 1, 32);
    assert y + 1 == Pow2(w);
  }

  lemma SliceJoin(head: seq<Byte>, bytes: seq<Byte>, tail: seq<Byte>, from: nat)
    requires from <= |head|
    ensures (head + bytes + tail)[from..|head| + |bytes|] == head[from..] + bytes
  {}

  lemma SliceBetween(head: seq<Byte>, bytes: seq<Byte>, tail: seq<Byte>, size: nat)
    requires size <= |tail|
    ensures (head + bytes + tail)[|head|..|head| + |bytes| + size] == bytes + tail[..size]
  {}

  /** A growable byte buffer. `data` stands for the stack array until the first growth and for the heap array
      after it. */
  class Buffer {
    var flag: nat
    var headreserved: nat
    var capacity: nat
    var readpos: nat
    var writepos: nat
    var data: array<Byte>

    ghost predicate Valid()
      reads this
    {
      readpos <= writepos <= capacity == data.Length && headreserved <= capacity
    }

    /** The readable bytes. */
    ghost function Contents(): seq<Byte>
      requires Valid()
      reads this, data
    {
      data[readpos..writepos]
    }

    /** The source asserts that the reserved head fits the stack array. */
    constructor (capacity: nat, headreserved: nat)
      requires headreserved <= STACK_CAPACITY
      ensures Valid() && fresh(data) && Contents() == []
      ensures this.headreserved == headreserved == readpos && flag == 0
      ensures capacity <= this.capacity - writepos
    {
      flag, this.headreserved, this.capacity := 0, headreserved, STACK_CAPACITY;
      readpos, writepos := headreserved, headreserved;
      data := new Byte[STACK_CAPACITY](_ => 0);
      new;
      if capacity + headreserved > STACK_CAPACITY {
        CheckSpace(capacity);
      }
    }

    function WriteableSize(): nat
      requires Valid()
      reads this
    {
      capacity - writepos
    }

    /** Makes room for `need` more bytes, by growing if moving the readable bytes to the head does not give it. */
    method CheckSpace(need: nat)
      requires Valid()
      modifies this, data
      ensures Valid() && (data == old(data) || fresh(data))
      ensures Contents() == old(Contents()) && WriteableSize() >= need
      ensures headreserved == old(headreserved) && flag == old(flag)
      ensures old(WriteableSize()) >= need ==>
        data == old(data) && readpos == old(readpos) && writepos == old(writepos)
      ensures data != old(data)
        <==> old(WriteableSize()) < need && old(capacity) - |old(Contents())| < need + headreserved
      ensures data == old(data) ==> capacity == old(capacity)
      ensures data == old(data) && old(WriteableSize()) < need ==> readpos == headreserved < old(readpos)
      ensures data != old(data) ==>
        && readpos == old(readpos) && old(writepos) + need <= capacity
        && (0 < old(writepos) + need <= 0x1_0000_0000 ==> IsPow2(capacity) && capacity < 2 * (old(writepos) + need))
    {
      if capacity - writepos >= need {
        return;
      }
      if capacity - writepos + readpos < need + headreserved {
        var required := NextPow2(writepos + need);
        Grow(required);
      } else {
        Compact();
      }
    }

    /** Moves the bytes to a new array of the given size. */
    method Grow(required: nat)
      requires Valid() && capacity <= required
      modifies this`data, this`capacity
      ensures Valid() && fresh(data) && capacity == required && Contents() == old(Contents())
    {
      var grown := new Byte[required](_ => 0);
      for i := 0 to writepos
        invariant unchanged(this) && unchanged(data) && grown[..i] == data[..i]
      {
        grown[i] := data[i];
      }
      assert grown[readpos..writepos] == grown[..writepos][readpos..];
      data := grown;
      capacity := required;
    }

    /** Moves the readable bytes down to the reserved head, front first because the ranges may overlap. */
    method Compact()
      requires Valid() && headreserved < readpos
      modifies this`readpos, this`writepos, data
      ensures Valid() && Contents() == old(Contents())
      ensures readpos == headreserved && writepos == headreserved + |old(Contents())|
    {
      var readable := writepos - readpos;
      ghost var bytes := Contents();
      for i := 0 to readable
        invariant unchanged(this)
        invariant forall k :: 0 <= k < i ==> data[headreserved + k] == bytes[k]
        invariant forall k :: i <= k < readable ==> data[readpos + k] == bytes[k]
      {
        data[headreserved + i] := data[readpos + i];
      }
      readpos := headreserved;
      writepos := readpos + readable;
    }

    method WriteBack(bytes: seq<Byte>)
      requires Valid()
      modifies this, data
      ensures Valid() && (data == old(data) || fresh(data))
      ensures Contents() == old(Contents()) + bytes
      ensures data != old(data)
        <==> old(WriteableSize()) < |bytes| && old(capacity) - |old(Contents())| < |bytes| + headreserved
      ensures headreserved == old(headreserved) && flag == old(flag)
    {
      if |bytes| == 0 {
        return;
      }
      CheckSpace(|bytes|);
      ghost var head, tail := data[..writepos], data[writepos + |bytes|..];
      assert Contents() == head[readpos..];
      CopyIn(writepos, bytes);
      writepos := writepos + |bytes|;
      SliceJoin(head, bytes, tail, readpos);
      assert data[readpos..writepos] == data[..][readpos..writepos];
    }

    /** `memcpy` of `bytes` to position `at`. */
    method CopyIn(at: nat, bytes: seq<Byte>)
      requires at + |bytes| <= data.Length
      modifies data
      ensures data[..] == old(data[..at]) + bytes + old(data[at + |bytes|..])
    {
      for i := 0 to |bytes|
        invariant data[..] == old(data[..at]) + bytes[..i] + old(data[at + i..])
      {
        data[at + i] := bytes[i];
      }
    }

    method WriteFront(bytes: seq<Byte>) returns (ok: bool)
      requires Valid()
      modifies this, data
      ensures Valid() && data == old(data)
      ensures ok <==> 0 < |bytes| <= old(readpos)
      ensures Contents() == if ok then bytes + old(Contents()) else old(Contents())
      ensures headreserved == old(headreserved) && flag == old(flag) && writepos == old(writepos)
    {
      if |bytes| == 0 || |bytes| > readpos {
        return false;
      }
      ghost var head, tail, size := data[..readpos - |bytes|], data[readpos..], writepos - readpos;
      assert Contents() == tail[..size];
      readpos := readpos - |bytes|;
      CopyIn(readpos, bytes);
      SliceBetween(head, bytes, tail, size);
      assert data[readpos..writepos] == data[..][readpos..writepos];
      ok := true;
    }

    method Read(count: nat) returns (ok: bool, bytes: seq<Byte>)
      requires Valid()
      modifies this`readpos
      ensures Valid() && (ok <==> 0 < count <= |old(Contents())|)
      ensures if ok then old(Contents()) == bytes + Contents() && |bytes| == count else Contents() == old(Contents())
    {
      if count == 0 || readpos + count > writepos {
        return false, [];
      }
      bytes := data[readpos..readpos + count];
      readpos := readpos + count;
      ok := true;
    }

    /** `seek(offset)` from the current position; it stops at the end of the readable bytes. A position below 0 wraps to
        one far beyond the end and stops there too. */
    method Seek(offset: int)
      requires Valid()
      modifies this`readpos
      ensures Valid()
      ensures offset >= 0 ==>
        Contents() == if offset <= |old(Contents())| then old(Contents())[offset..] else []
      ensures readpos == if 0 <= old(readpos) + offset <= writepos then old(readpos) + offset else writepos
    {
      var position := readpos + offset;
      readpos := if position < 0 || position > writepos then writepos else position;
    }

    method Clear()
      requires Valid()
      modifies this
      ensures Valid() && Contents() == [] && readpos == headreserved == old(headreserved) && flag == 0
      ensures data == old(data)
    {
      readpos, writepos, flag := headreserved, headreserved, 0;
    }
  }

  /** A cursor over bytes owned by somebody else. What remains is always a suffix of them. */
  class View {
    const bytes: seq<Byte>
    var readpos: nat
    var size: nat

    ghost predicate Valid()
      reads this
    {
      readpos <= size && (size == |bytes| || size == 0)
    }

    ghost function Remaining(): seq<Byte>
      requires Valid()
      reads this
    {
      bytes[readpos..size]
    }

    constructor (bytes: seq<Byte>)
      ensures Valid() && Remaining() == bytes == this.bytes
    {
      this.bytes, readpos, size := bytes, 0, |bytes|;
    }

    method Read(count: nat) returns (ok: bool, out: seq<Byte>)
      requires Valid()
      modifies this
      ensures Valid() && (ok <==> 0 < count <= |old(Remaining())|)
      ensures if ok then out == old(Remaining())[..count] && Remaining() == old(Remaining())[count..]
              else Remaining() == old(Remaining())
    {
      if count == 0 || readpos + count > size {
        return false, [];
      }
      out := bytes[readpos..readpos + count];
      readpos := readpos + count;
      ok := true;
    }

    /** Skipping to the end or past it resets the cursor to 0/0, which still reads as "nothing remaining". */
    method Skip(len: nat)
      requires Valid()
      modifies this
      ensures Valid()
      ensures Remaining() == if len <= |old(Remaining())| then old(Remaining())[len..] else []
    {
      if len < size - readpos {
        readpos := readpos + len;
      } else {
        readpos, size := 0, 0;
      }
    }
  }
}
