/** The storage port and the record buffers of the configuration service. */
module ConfigRecords {
  import opened Uhal
  import opened Bytes8
  import opened Crc
  import opened ByteStreams
  import opened EntryTable
  import opened ConfigImage

  /** How storage answers an erase or a write: a failure may leave anything
      behind in the range that was being changed. */
  datatype FlashAnswer = Done | Broken(status: Status, left: Bytes)

  datatype FlashOp = EraseOp(offset: nat, size: nat) | WriteOp(offset: nat, data: Bytes)

  function Splice(cells: Bytes, offset: nat, data: Bytes): (r: Bytes)
    requires offset + |data| <= |cells|
    ensures |r| == |cells|
  {
    cells[..offset] + data + cells[offset + |data|..]
  }

  function Erased(size: nat): Bytes { seq(size, _ => 0xFF) }

  /** The cells after an operation with a given answer. */
  function After(cells: Bytes, op: FlashOp, answer: FlashAnswer): (r: Bytes)
    requires op.offset + (if op.EraseOp? then op.size else |op.data|) <= |cells|
    ensures |r| == |cells|
  {
    var size := if op.EraseOp? then op.size else |op.data|;
    match answer
    case Done => Splice(cells, op.offset, if op.EraseOp? then Erased(size) else op.data)
    case Broken(_, left) => if |left| == size then Splice(cells, op.offset, left) else cells
  }

  function SlotOf(cells: Bytes, slot: nat): Bytes
    requires slot < 2 && |cells| == 2 * SLOT_BYTES
  {
    cells[slot * SLOT_BYTES..(slot + 1) * SLOT_BYTES]
  }

  class Storage {
    var cells: Bytes
    var log: seq<FlashOp>

    constructor (cells: Bytes)
      ensures this.cells == cells && log == []
    {
      this.cells, log := cells, [];
    }

    method Read(offset: nat, size: nat, answer: Status) returns (status: Status, data: Bytes)
      requires offset + size <= |cells|
      ensures status == answer
      ensures status.Ok? ==> data == cells[offset..offset + size]
    {
      status, data := answer, cells[offset..offset + size];
    }

    method Erase(offset: nat, size: nat, answer: FlashAnswer) returns (status: Status)
      requires offset + size <= |cells|
      modifies this
      ensures log == old(log) + [EraseOp(offset, size)]
      ensures cells == After(old(cells), EraseOp(offset, size), answer)
      ensures status == if answer.Done? then Ok else answer.status
    {
      log := log + [EraseOp(offset, size)];
      cells := After(cells, EraseOp(offset, size), answer);
      status := if answer.Done? then Ok else answer.status;
    }

    method Write(offset: nat, data: Bytes, answer: FlashAnswer) returns (status: Status)
      requires offset + |data| <= |cells|
      modifies this
      ensures log == old(log) + [WriteOp(offset, data)]
      ensures cells == After(old(cells), WriteOp(offset, data), answer)
      ensures status == if answer.Done? then Ok else answer.status
    {
      log := log + [WriteOp(offset, data)];
      cells := After(cells, WriteOp(offset, data), answer);
      status := if answer.Done? then Ok else answer.status;
    }
  }

  // ---- records -------------------------------------------------------------------

  /** The fixed buffers of one record; `key` is NUL-terminated. */
  datatype Record = Record(used: bool, key: Bytes, value: Bytes, valueSize: nat)

  const EMPTY := Record(false, Zeroes(KEY_CAPACITY), Zeroes(VALUE_CAPACITY), 0)

  /** The characters in front of the first NUL. */
  function Text(chars: Bytes): (t: Bytes)
    ensures t <= chars && 0 !in t
    ensures |t| < |chars| ==> chars[|t|] == 0
  {
    if chars == [] || chars[0] == 0 then [] else [chars[0]] + Text(chars[1..])
  }

  /** The buffers an entry is kept in: unused bytes are zero. */
  function Buffers(e: ConfigEntry): Record {
    match e
    case Free => EMPTY
    case Bound(key, value) =>
      Record(true,
             key + (if |key| < KEY_CAPACITY then Zeroes(KEY_CAPACITY - |key|) else []),
             value + (if |value| < VALUE_CAPACITY then Zeroes(VALUE_CAPACITY - |value|) else []),
             |value|)
  }

  function View(r: Record): ConfigEntry {
    if !r.used then Free
    else Bound(Text(r.key), if r.valueSize <= |r.value| then r.value[..r.valueSize] else r.value)
  }

  function Views(rs: seq<Record>): (es: seq<ConfigEntry>)
    ensures |es| == |rs| && forall i :: 0 <= i < |rs| ==> es[i] == View(rs[i])
  {
    seq(|rs|, i requires 0 <= i < |rs| => View(rs[i]))
  }

  ghost predicate GoodRecord(r: Record) { GoodEntry(View(r)) && r == Buffers(View(r)) }

  lemma {:induction false} TextStops(chars: Bytes, tail: Bytes)
    requires 0 !in chars
    ensures Text(chars + [0] + tail) == chars
  {
    if chars == [] {
      assert chars + [0] + tail == [0] + tail;
    } else {
      assert (chars + [0] + tail)[1..] == chars[1..] + [0] + tail;
      TextStops(chars[1..], tail);
    }
  }

  lemma {:induction false} TextIsWhole(chars: Bytes)
    requires 0 !in chars
    ensures Text(chars) == chars
  {}

  lemma {:induction false} TextPrefix(chars: Bytes, n: nat)
    requires n < |chars| && 0 !in chars[..n] && chars[n] == 0
    ensures Text(chars) == chars[..n]
  {}

  lemma ViewOfBuffers(e: ConfigEntry)
    requires GoodEntry(e)
    ensures View(Buffers(e)) == e && GoodRecord(Buffers(e))
  {
    if e.Bound? {
      var pad := Zeroes(KEY_CAPACITY - |e.key|);
      assert e.key + pad == e.key + [0] + pad[1..];
      TextStops(e.key, pad[1..]);
    }
  }
}
