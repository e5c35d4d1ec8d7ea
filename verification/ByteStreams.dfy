/** The bounded little-endian writer and reader over a caller-owned buffer. */
module ByteStreams {
  import opened Bytes8
  import opened Crc

  /** Writes into `data[start..start + capacity]`. */
  class ByteWriter {
    const data: array<Byte>
    const start: nat
    const capacity: nat
    var position: nat
    var overflow: bool

    ghost predicate Valid()
      reads this
    {
      position <= capacity && start + capacity <= data.Length
    }

    constructor (data: array<Byte>, start: nat, capacity: nat)
      requires start + capacity <= data.Length
      ensures Valid() && position == 0 && !overflow
      ensures this.data == data && this.start == start && this.capacity == capacity
    {
      this.data, this.start, this.capacity := data, start, capacity;
      position, overflow := 0, false;
    }

    ghost function Written(): Bytes
      requires Valid()
      reads this, data
    {
      data[start..start + position]
    }

    ghost predicate ClearBehind()
      requires Valid()
      reads this, data
    {
      forall k :: start + position <= k < data.Length ==> data[k] == 0
    }

    /** All or nothing: either the bytes are appended or only the overflow flag changes. */
    method WriteBytes(value: Bytes) returns (ok: bool)
      requires Valid()
      modifies this, data
      ensures Valid()
      ensures ok <==> old(position) + |value| <= capacity
      ensures ok ==> Written() == old(Written()) + value && overflow == old(overflow)
      ensures ok ==> forall k :: 0 <= k < start || start + position <= k < data.Length ==> data[k] == old(data[k])
      ensures !ok ==> data[..] == old(data[..]) && position == old(position) && overflow
    {
      if position + |value| > capacity {
        overflow := true;
        return false;
      }
      ghost var from := start + position;
      for index := 0 to |value|
        invariant position == old(position) + index && overflow == old(overflow)
        invariant forall k :: 0 <= k < from || from + index <= k < data.Length ==> data[k] == old(data[k])
        invariant data[from..from + index] == value[..index]
      {
        data[start + position] := value[index];
        position := position + 1;
      }
      assert data[start..from] == old(Written());
      assert Written() == data[start..from] + data[from..start + position];
      return true;
    }

    method WriteU8(value: Byte) returns (ok: bool)
      requires Valid()
      modifies this, data
      ensures Valid()
      ensures ok <==> old(position) + 1 <= capacity
      ensures ok ==> Written() == old(Written()) + [value] && overflow == old(overflow)
      ensures ok ==> forall k :: 0 <= k < start || start + position <= k < data.Length ==> data[k] == old(data[k])
      ensures !ok ==> data[..] == old(data[..]) && position == old(position) && overflow
    {
      ok := WriteBytes([value]);
    }

    method WriteU32Le(value: bv32) returns (ok: bool)
      requires Valid()
      modifies this, data
      ensures Valid()
      ensures ok <==> old(position) + 4 <= capacity
      ensures ok ==> Written() == old(Written()) + Field32(value) && overflow == old(overflow)
      ensures ok ==> forall k :: 0 <= k < start || start + position <= k < data.Length ==> data[k] == old(data[k])
      ensures !ok ==> data[..] == old(data[..]) && position == old(position) && overflow
    {
      hide Field32, Word;
      ok := WriteBytes(Field32(value));
    }
  }

  /** Reads from `data[start..start + size]`. */
  class ByteReader {
    const data: array<Byte>
    const start: nat
    const size: nat
    var position: nat

    ghost predicate Valid()
      reads this
    {
      position <= size && start + size <= data.Length
    }

    constructor (data: array<Byte>, start: nat, size: nat)
      requires start + size <= data.Length
      ensures Valid() && position == 0
      ensures this.data == data && this.start == start && this.size == size
    {
      this.data, this.start, this.size := data, start, size;
      position := 0;
    }

    /** What is still to be read. */
    ghost function Rest(): Bytes
      requires Valid()
      reads this, data
    {
      data[start + position..start + size]
    }

    method ReadBytes(count: nat) returns (ok: bool, value: Bytes)
      requires Valid()
      modifies this
      ensures Valid()
      ensures ok <==> count <= |old(Rest())|
      ensures ok ==> value == old(Rest())[..count] && Rest() == old(Rest())[count..]
      ensures !ok ==> position == old(position)
    {
      value := [];
      if position + count > size {
        return false, [];
      }
      ghost var from := start + position;
      for index := 0 to count
        invariant position == old(position) + index
        invariant value == data[from..from + index]
      {
        value := value + [data[start + position]];
        position := position + 1;
      }
      return true, value;
    }

    method ReadU8() returns (ok: bool, value: Byte)
      requires Valid()
      modifies this
      ensures Valid()
      ensures ok <==> 1 <= |old(Rest())|
      ensures ok ==> value == old(Rest())[0] && Rest() == old(Rest())[1..]
      ensures !ok ==> position == old(position)
    {
      var bytes;
      ok, bytes := ReadBytes(1);
      value := if ok then bytes[0] else 0;
    }

    method ReadU32Le() returns (ok: bool, value: bv32)
      requires Valid()
      modifies this
      ensures Valid()
      ensures ok <==> 4 <= |old(Rest())|
      ensures ok ==> value == Word(old(Rest())[..4]) && Rest() == old(Rest())[4..]
      ensures !ok ==> position == old(position)
    {
      hide Word, Join32;
      var bytes;
      ok, bytes := ReadBytes(4);
      value := 0;
      if ok {
        value := Join32(bytes[0], bytes[1], bytes[2], bytes[3]);
        assert bytes == [bytes[0], bytes[1], bytes[2], bytes[3]];
      }
    }
  }
}
