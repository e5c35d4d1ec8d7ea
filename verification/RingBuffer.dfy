/** A circular buffer over a fixed array, refining a sequence. */
module RingBuffer {
  import opened Uhal

  /** `count` values from `start` on, once around the end. */
  function Window<T>(s: seq<T>, start: nat, count: nat): (w: seq<T>)
    requires start <= |s| && count <= |s|
    ensures |w| == count
  {
    if start + count <= |s| then s[start..start + count] else s[start..] + s[..start + count - |s|]
  }

  class FixedRingBuffer<T(0)> {
    const entries: array<T>
    var readIndex: nat
    var writeIndex: nat
    var count: nat

    ghost predicate Valid()
      reads this
    {
      && readIndex < entries.Length && writeIndex < entries.Length && count <= entries.Length
      && writeIndex == Wrapped(readIndex + count, entries.Length)
    }

    /** The stored values, oldest first. */
    ghost function Contents(): (s: seq<T>)
      reads this, entries
      requires Valid()
      ensures |s| == count
    {
      Window(entries[..], readIndex, count)
    }

    constructor (capacity: nat)
      requires capacity > 0
      ensures Valid() && Contents() == [] && entries.Length == capacity && fresh(entries)
    {
      entries := new T[capacity];
      readIndex, writeIndex, count := 0, 0, 0;
    }

    method TryPush(value: T) returns (ok: bool)
      requires Valid()
      modifies this, entries
      ensures Valid() && ok == (|old(Contents())| < entries.Length)
      ensures Contents() == if ok then old(Contents()) + [value] else old(Contents())
    {
      if count == entries.Length { return false; }
      entries[writeIndex] := value;
      NextIsWrapped(writeIndex, entries.Length);
      writeIndex := (writeIndex + 1) % entries.Length;
      count := count + 1;
      return true;
    }

    method TryPop() returns (value: Option<T>)
      requires Valid()
      modifies this
      ensures Valid()
      ensures value == if old(Contents()) == [] then None else Some(old(Contents())[0])
      ensures Contents() == if old(Contents()) == [] then [] else old(Contents())[1..]
    {
      if count == 0 { return None; }
      value := Some(entries[readIndex]);
      Advance();
    }

    method Peek() returns (value: Option<T>)
      requires Valid()
      ensures value == if Contents() == [] then None else Some(Contents()[0])
    {
      return if count == 0 then None else Some(entries[readIndex]);
    }

    method DropOldest() returns (ok: bool)
      requires Valid()
      modifies this
      ensures Valid() && ok == (old(Contents()) != [])
      ensures Contents() == if ok then old(Contents())[1..] else []
    {
      if count == 0 { return false; }
      Advance();
      return true;
    }

    /** Forgets the oldest value. */
    method Advance()
      requires Valid() && count > 0
      modifies this
      ensures Valid() && Contents() == old(Contents())[1..]
    {
      NextIsWrapped(readIndex, entries.Length);
      readIndex := (readIndex + 1) % entries.Length;
      count := count - 1;
    }

    method Clear()
      requires Valid()
      modifies this
      ensures Valid() && Contents() == []
    {
      readIndex, writeIndex, count := 0, 0, 0;
    }
  }

  /** An index less than twice the capacity, taken once around. */
  function Wrapped(i: nat, capacity: nat): (w: nat)
    requires i < 2 * capacity
    ensures w < capacity
  {
    if i < capacity then i else i - capacity
  }

  lemma NextIsWrapped(i: nat, capacity: nat)
    requires i < capacity
    ensures (i + 1) % capacity == Wrapped(i + 1, capacity)
  {}
}
