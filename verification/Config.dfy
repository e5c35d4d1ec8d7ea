/** The configuration service: a record array in RAM, two slots in storage. */
module Config {
  import opened Uhal
  import opened Bytes8
  import opened Crc
  import opened ByteStreams
  import opened EntryTable
  import opened ConfigImage
  import opened ConfigRecords

  /** What start-up makes of the two slot reads: the entries, their sequence
      number and their slot. */
  datatype Booted = Booted(entries: seq<ConfigEntry>, sequence: bv32, slot: nat)

  function Nothing(): seq<ConfigEntry> { seq(RECORD_CAPACITY, _ => Free) }

  function ReadResult(answer: Status, image: Bytes): Result<Snapshot> {
    if answer.Ok? then Decoded(image) else Failure(answer)
  }

  /** Reads that count as an empty slot rather than as a storage fault. */
  predicate Blank(status: Status) { status.Corrupt? || status.NotFound? }

  /** Sequence numbers are compared as plain unsigned integers. */
  predicate AtLeast(a: bv32, b: bv32) { a >= b }

  function Boot(first: Result<Snapshot>, second: Result<Snapshot>): Result<Booted> {
    if first.Failure? && second.Failure? then
      if Blank(first.status) && Blank(second.status) then Success(Booted(Nothing(), 0, 0))
      else Failure(IoError)
    else if second.Failure? || (first.Success? && AtLeast(first.value.sequence, second.value.sequence)) then
      Success(Booted(first.value.entries, first.value.sequence, 0))
    else Success(Booted(second.value.entries, second.value.sequence, 1))
  }

  /** Without any readable slot, start-up gives the empty table if and only if each slot is
      reported absent or corrupt. */
  lemma EmptyStart(first: Result<Snapshot>, second: Result<Snapshot>)
    requires first.Failure? && second.Failure?
    ensures Boot(first, second) ==
            if first.status in {NotFound, Corrupt} && second.status in {NotFound, Corrupt}
            then Success(Booted(seq(RECORD_CAPACITY, _ => Free), 0, 0)) else Failure(IoError)
    ensures Boot(first, second).Success? ==> TableOf(Boot(first, second).value.entries) == map[]
  {}

  function BuffersOf(es: seq<ConfigEntry>): (rs: seq<Record>)
    ensures |rs| == |es| && forall i :: 0 <= i < |es| ==> rs[i] == Buffers(es[i])
  {
    seq(|es|, i requires 0 <= i < |es| => Buffers(es[i]))
  }

  class ConfigService {
    const storage: Storage
    const records: array<Record>
    const scratch: array<Byte>
    var sequence: bv32
    var activeSlot: nat

    ghost predicate Valid()
      reads this, storage, records
    {
      && records.Length == RECORD_CAPACITY && scratch.Length == SLOT_BYTES
      && |storage.cells| == 2 * SLOT_BYTES && activeSlot < 2
    }

    ghost function Entries(): seq<ConfigEntry>
      reads this, records
    {
      Views(records[..])
    }

    /** Keys are distinct, short and NUL-terminated in their buffers. */
    ghost predicate Sound()
      reads this, records
    {
      && Distinct(Entries())
      && forall i :: 0 <= i < records.Length ==> GoodRecord(records[i])
    }

    ghost function Table(): map<Bytes, Bytes>
      reads this, records
    {
      TableOf(Entries())
    }

    constructor (storage: Storage)
      requires |storage.cells| == 2 * SLOT_BYTES
      ensures Valid() && Sound() && this.storage == storage && fresh(records) && fresh(scratch)
      ensures Entries() == Nothing() && sequence == 0 && activeSlot == 0
    {
      this.storage := storage;
      records := new Record[RECORD_CAPACITY](_ => EMPTY);
      scratch := new Byte[SLOT_BYTES](_ => 0);
      sequence, activeSlot := 0, 0;
    }

    static method TextLength(text: Bytes, capacity: nat) returns (size: nat)
      ensures size == if |Text(text)| < capacity then |Text(text)| else capacity
    {
      size := 0;
      while size < capacity && size < |text| && text[size] != 0
        invariant size <= |text| && size <= capacity
        invariant |Text(text)| == size + |Text(text[size..])|
      {
        size := size + 1;
      }
    }

    /** `left` is a buffer of `capacity` characters, `right` a C string. */
    static method TextEqual(left: Bytes, right: Bytes, capacity: nat) returns (same: bool)
      requires |left| == capacity && 0 !in right
      ensures same <==> Text(left) == right && |right| < capacity
    {
      hide Text;
      for index := 0 to capacity
        invariant index <= |right| && left[..index] == right[..index]
      {
        var terminator: Byte := 0;
        var other := if index < |right| then right[index] else terminator;
        if left[index] != other {
          return false;
        }
        if left[index] == 0 {
          TextPrefix(left, index);
          return true;
        }
        assert left[..index + 1] == left[..index] + [left[index]];
      }
      return false;
    }

    method Find(key: Option<Bytes>) returns (found: int)
      requires Valid() && Sound() && (key.Some? ==> 0 !in key.value)
      ensures found >= 0 ==> key.Some? && BoundAt(Entries(), found, key.value)
      ensures found < 0 ==> key.None? || key.value !in Table()
    {
      hide TableOf, Distinct, Buffers, Text;
      for index := 0 to RECORD_CAPACITY
        invariant key.Some? ==> forall j :: 0 <= j < index ==> !BoundAt(Entries(), j, key.value)
      {
        assert GoodRecord(records[index]);
        if records[index].used && key.Some? {
          BufferSize(records[index]);
          var same := TextEqual(records[index].key, key.value, KEY_CAPACITY);
          if same {
            return index;
          }
        }
      }
      if key.Some? && key.value in Table() {
        var i := TableFrom(Entries(), key.value);
      }
      return -1;
    }

    static lemma BufferSize(r: Record)
      requires GoodRecord(r) && r.used
      ensures |r.key| == KEY_CAPACITY && |Text(r.key)| < KEY_CAPACITY
    {
    }

    method FindFree() returns (found: int)
      requires Valid()
      ensures found >= 0 ==> found < RECORD_CAPACITY && Entries()[found].Free?
      ensures found < 0 ==> forall i :: 0 <= i < RECORD_CAPACITY ==> Entries()[i].Bound?
    {
      for index := 0 to RECORD_CAPACITY
        invariant forall j :: 0 <= j < index ==> records[j].used
      {
        if !records[index].used {
          return index;
        }
      }
      return -1;
    }

    method GetBlob(key: Option<Bytes>, capacity: Option<nat>) returns (status: Status, value: Bytes, size: nat)
      requires Valid() && Sound() && (key.Some? ==> 0 !in key.value)
      ensures status.NotFound? <==> key.None? || key.value !in Table()
      ensures !status.NotFound? ==> size == |Table()[key.value]|
      ensures status.Ok? <==> !status.NotFound? && capacity.Some? && size <= capacity.value
      ensures status.Ok? ==> value == Table()[key.value]
      ensures status.Ok? || status.NotFound? || status.NoResources?
    {
      value, size := [], 0;
      var index := Find(key);
      if index < 0 {
        return NotFound, [], 0;
      }
      var record := records[index];
      assert GoodRecord(record);
      TableHas(Entries(), index);
      size := record.valueSize;
      if capacity.None? || capacity.value < size {
        return NoResources, [], size;
      }
      return Ok, record.value[..size], size;
    }

    method SetBlob(key: Option<Bytes>, value: Option<Bytes>) returns (status: Status)
      requires Valid() && Sound() && (key.Some? ==> 0 !in key.value)
      modifies records
      ensures Valid() && Sound()
      ensures status.InvalidArgument? <==>
                key.None? || key.value == [] || |key.value| >= KEY_CAPACITY || value.None? || |value.value| > VALUE_CAPACITY
      ensures status.NoResources? <==>
                !status.InvalidArgument? && key.value !in old(Table()) && |old(Table())| == RECORD_CAPACITY
      ensures status.Ok? || status.InvalidArgument? || status.NoResources?
      ensures Table() == if status.Ok? then old(Table())[key.value := value.value] else old(Table())
    {
      hide TableOf, Distinct, Text;
      var keySize := KEY_CAPACITY;
      if key.Some? {
        TextIsWhole(key.value);
        keySize := TextLength(key.value, KEY_CAPACITY);
      }
      if keySize == 0 || keySize >= KEY_CAPACITY || value.None? || |value.value| > VALUE_CAPACITY {
        return InvalidArgument;
      }
      FullTable(Entries());
      var index := Find(key);
      if index >= 0 {
        TableHas(Entries(), index);
      } else {
        index := FindFree();
        if index < 0 {
          return NoResources;
        }
        assert Entries()[index].Free?;
      }
      var record := FillRecord(key.value, value.value);
      Store(index, key.value, value.value, record);
      return Ok;
    }

    method Store(index: nat, ghost key: Bytes, ghost value: Bytes, record: Record)
      requires Valid() && Sound() && index < RECORD_CAPACITY
      requires GoodEntry(Bound(key, value)) && record == Buffers(Bound(key, value))
      requires (Entries()[index].Free? && key !in Table()) || BoundAt(Entries(), index, key)
      modifies records
      ensures Valid() && Sound() && Table() == old(Table())[key := value]
    {
      hide TableOf, Distinct;
      TableSet(Entries(), index, key, value);
      ViewOfBuffers(Bound(key, value));
      ghost var before := Entries();
      records[index] := record;
      assert Entries() == before[index := Bound(key, value)];
    }

    /** The copy loops that fill a zeroed record. */
    static method FillRecord(key: Bytes, value: Bytes) returns (record: Record)
      requires |key| < KEY_CAPACITY && |value| <= VALUE_CAPACITY
      ensures record == Buffers(Bound(key, value))
    {
      var keyBuffer, valueBuffer := EMPTY.key, EMPTY.value;
      for offset := 0 to |key|
        invariant |keyBuffer| == KEY_CAPACITY && keyBuffer[..offset] == key[..offset]
        invariant forall k :: offset <= k < KEY_CAPACITY ==> keyBuffer[k] == 0
      {
        keyBuffer := keyBuffer[offset := key[offset]];
      }
      keyBuffer := keyBuffer[|key| := 0];
      for offset := 0 to |value|
        invariant |valueBuffer| == VALUE_CAPACITY && valueBuffer[..offset] == value[..offset]
        invariant forall k :: offset <= k < VALUE_CAPACITY ==> valueBuffer[k] == 0
      {
        valueBuffer := valueBuffer[offset := value[offset]];
      }
      record := Record(true, keyBuffer, valueBuffer, |value|);
      assert keyBuffer == Buffers(Bound(key, value)).key;
      assert valueBuffer == Buffers(Bound(key, value)).value;
    }

    method Erase(key: Option<Bytes>) returns (status: Status)
      requires Valid() && Sound() && (key.Some? ==> 0 !in key.value)
      modifies records
      ensures Valid() && Sound()
      ensures status == if key.Some? && key.value in old(Table()) then Ok else NotFound
      ensures Table() == if status.Ok? then old(Table()) - {key.value} else old(Table())
    {
      var index := Find(key);
      if index < 0 {
        return NotFound;
      }
      hide TableOf, Distinct;
      TableHas(Entries(), index);
      Drop(index, key.value);
      return Ok;
    }

    method Drop(index: nat, ghost key: Bytes)
      requires Valid() && Sound() && BoundAt(Entries(), index, key)
      modifies records
      ensures Valid() && Sound() && Table() == old(Table()) - {key}
    {
      hide TableOf, Distinct;
      TableErase(Entries(), index, key);
      ghost var before := Entries();
      records[index] := EMPTY;
      assert Entries() == before[index := Free];
      assert GoodRecord(EMPTY);
    }

    /** The next sequence number goes to the slot that is not in use; RAM keeps
        its state unless storage accepted both operations. */
    method Commit(erase: FlashAnswer, write: FlashAnswer) returns (status: Status)
      requires Valid() && Sound()
      requires (erase.Broken? ==> !erase.status.Ok?) && (write.Broken? ==> !write.status.Ok?)
      modifies this, storage, scratch
      ensures Valid() && Sound()
      ensures |Content(Entries(), old(sequence) + 1)| <= CRC_OFFSET
      ensures var target := (1 - old(activeSlot)) * SLOT_BYTES;
              var image := ImageOf(Entries(), old(sequence) + 1);
              && storage.log == old(storage.log) + [EraseOp(target, SLOT_BYTES)] +
                   (if erase.Done? then [WriteOp(target, image)] else [])
              && var wiped := After(old(storage.cells), EraseOp(target, SLOT_BYTES), erase);
              && storage.cells == if erase.Done? then After(wiped, WriteOp(target, image), write) else wiped
      ensures status == if erase.Broken? then erase.status else if write.Broken? then write.status else Ok
      ensures activeSlot == if status.Ok? then 1 - old(activeSlot) else old(activeSlot)
      ensures sequence == if status.Ok? then old(sequence) + 1 else old(sequence)
    {
      hide Content, ImageOf;
      var targetSlot := if activeSlot == 0 then 1 else 0;
      status := WriteSlot(targetSlot, sequence + 1, erase, write);
      if status.Ok? {
        activeSlot := targetSlot;
        sequence := sequence + 1;
      }
    }

    method WriteSlot(slot: nat, sequence: bv32, erase: FlashAnswer, write: FlashAnswer) returns (status: Status)
      requires Valid() && Sound() && slot < 2
      modifies storage, scratch
      ensures Valid() && Sound()
      ensures |Content(Entries(), sequence)| <= CRC_OFFSET
      ensures var target := slot * SLOT_BYTES;
              var image := ImageOf(Entries(), sequence);
              && storage.log == old(storage.log) + [EraseOp(target, SLOT_BYTES)] +
                   (if erase.Done? then [WriteOp(target, image)] else [])
              && var wiped := After(old(storage.cells), EraseOp(target, SLOT_BYTES), erase);
              && storage.cells == if erase.Done? then After(wiped, WriteOp(target, image), write) else wiped
      ensures status == if erase.Broken? then erase.status else if write.Broken? then write.status else Ok
    {
      var room := FillScratch(sequence);
      hide Content, ImageOf;
      status := storage.Erase(slot * SLOT_BYTES, SLOT_BYTES, erase);
      if erase.Broken? {
        return;
      }
      status := storage.Write(slot * SLOT_BYTES, scratch[..], write);
    }

    /** Encodes the used records, pads with zeros and appends the CRC.  `room`
        tells whether every write found room; it always does. */
    method FillScratch(sequence: bv32) returns (room: bool)
      requires Valid() && Sound()
      modifies scratch
      ensures room && |Content(Entries(), sequence)| <= CRC_OFFSET
      ensures scratch[..] == ImageOf(Entries(), sequence)
    {
      hide Field32, Word, Crc32, Content;
      room := FillContent(sequence);
      var crc := Crc32Ieee(scratch, CRC_OFFSET);
      ghost var front := scratch[..CRC_OFFSET];
      var crcWriter := new ByteWriter(scratch, CRC_OFFSET, 4);
      room := crcWriter.WriteU32Le(crc);
      assert scratch[..CRC_OFFSET] == front;
      assert scratch[..] == front + scratch[CRC_OFFSET..];
    }

    method ZeroScratch()
      requires Valid()
      modifies scratch
      ensures forall k :: 0 <= k < SLOT_BYTES ==> scratch[k] == 0
    {
      for index := 0 to SLOT_BYTES
        invariant forall k :: 0 <= k < index ==> scratch[k] == 0
      {
        scratch[index] := 0;
      }
    }

    method FillContent(sequence: bv32) returns (room: bool)
      requires Valid() && Sound()
      modifies scratch
      ensures room && |Content(Entries(), sequence)| <= CRC_OFFSET
      ensures scratch[..CRC_OFFSET] == Content(Entries(), sequence) + Zeroes(CRC_OFFSET - |Content(Entries(), sequence)|)
    {
      hide Field32, ByteOf, Flat, Used;
      ZeroScratch();
      ghost var es := Entries();
      assert es[..0] == [] && es[..RECORD_CAPACITY] == es;
      FitsUpTo(RECORD_CAPACITY);
      FlatOfNone();
      var writer := new ByteWriter(scratch, 0, CRC_OFFSET);
      room := WriteHead(writer, sequence);
      ghost var head := Field32(MAGIC) + Field32(sequence) + [ByteOf(|Used(es)|)];
      assert head + [] == head;
      for index := 0 to RECORD_CAPACITY
        invariant room && writer.Valid()
        invariant writer.Written() == head + Flat(es[..index])
        invariant writer.ClearBehind()
      {
        room := WriteRecord(writer, index, head);
      }
      assert scratch[writer.position..CRC_OFFSET] == Zeroes(CRC_OFFSET - writer.position);
      assert scratch[..CRC_OFFSET] == scratch[..writer.position] + scratch[writer.position..CRC_OFFSET];
    }

    method WriteHead(writer: ByteWriter, sequence: bv32) returns (room: bool)
      requires Valid()
      requires writer.Valid() && writer.data == scratch && writer.start == 0 && writer.capacity == CRC_OFFSET
      requires writer.position == 0 && writer.ClearBehind()
      modifies writer, scratch
      ensures room && writer.Valid()
      ensures writer.Written() == Field32(MAGIC) + Field32(sequence) + [ByteOf(|Used(Entries())|)]
      ensures writer.ClearBehind()
    {
      hide Field32, ByteOf, Used;
      var count := CountUsed();
      assert writer.Written() == [];
      room := writer.WriteU32Le(MAGIC);
      var ok := writer.WriteU32Le(sequence);
      room := room && ok;
      ok := writer.WriteU8(ByteOf(count));
      room := room && ok;
    }

    lemma FlatOfNone()
      ensures Flat([]) == []
    {
    }

    lemma FitsUpTo(n: nat)
      requires Valid() && Sound() && n <= RECORD_CAPACITY
      ensures 9 + |Flat(Entries()[..n])| <= CRC_OFFSET
    {
      var es := Entries();
      forall i | 0 <= i < |es| ensures GoodEntry(es[i]) { assert GoodRecord(records[i]); }
      FlatBound(es[..n]);
    }

    method CountUsed() returns (count: nat)
      requires Valid()
      ensures count == |Used(Entries())|
    {
      count := 0;
      ghost var es := Entries();
      for index := 0 to RECORD_CAPACITY
        invariant count == |Used(es[..index])|
      {
        assert es[..index + 1] == es[..index] + [es[index]];
        FlatAppend(es[..index], es[index]);
        if records[index].used {
          count := count + 1;
        }
      }
      assert es[..RECORD_CAPACITY] == es;
    }

    method WriteRecord(writer: ByteWriter, index: nat, ghost head: Bytes) returns (room: bool)
      requires Valid() && Sound() && index < RECORD_CAPACITY
      requires writer.Valid() && writer.data == scratch && writer.start == 0 && writer.capacity == CRC_OFFSET
      requires |head| == 9 && writer.Written() == head + Flat(Entries()[..index])
      requires writer.ClearBehind()
      modifies writer, scratch
      ensures room && writer.Valid() && writer.Written() == head + Flat(Entries()[..index + 1])
      ensures writer.ClearBehind()
    {
      hide ByteOf, Flat, Used, EncodeEntry, Text, Buffers, View;
      var record := records[index];
      ghost var es := Entries();
      FitsUpTo(index + 1);
      assert es[..index + 1] == es[..index] + [es[index]];
      FlatAppend(es[..index], es[index]);
      BufferParts(record);
      EncodedFree();
      room := true;
      if record.used {
        var keySize := TextLength(record.key, KEY_CAPACITY);
        room := WriteParts(writer, record.key[..keySize], record.value[..record.valueSize]);
        assert head + Flat(es[..index]) + EncodeEntry(es[index]) == head + Flat(es[..index + 1]);
      } else {
        assert Flat(es[..index]) + [] == Flat(es[..index]);
      }
    }

    static lemma BufferParts(r: Record)
      requires GoodRecord(r)
      ensures r.used ==>
        && var n := |Text(r.key)|;
        && n < KEY_CAPACITY == |r.key| && r.valueSize <= |r.value|
        && View(r) == Bound(r.key[..n], r.value[..r.valueSize])
        && |EncodeEntry(View(r))| == 2 + n + r.valueSize
      ensures !r.used ==> View(r) == Free
    {
    }

    static lemma EncodedFree()
      ensures EncodeEntry(Free) == []
    {
    }

    method WriteParts(writer: ByteWriter, key: Bytes, value: Bytes) returns (room: bool)
      requires Valid() && 2 + |key| + |value| <= CRC_OFFSET - writer.position
      requires writer.Valid() && writer.data == scratch && writer.start == 0 && writer.capacity == CRC_OFFSET
      requires writer.ClearBehind()
      modifies writer, scratch
      ensures room && writer.Valid() && writer.Written() == old(writer.Written()) + EncodeEntry(Bound(key, value))
      ensures writer.ClearBehind()
    {
      hide ByteOf;
      var (k, v) := (ByteOf(|key|), ByteOf(|value|));
      ghost var w := writer.Written();
      room := writer.WriteU8(k);
      var ok := writer.WriteU8(v);
      room := room && ok;
      ok := writer.WriteBytes(key);
      room := room && ok;
      ok := writer.WriteBytes(value);
      room := room && ok;
      JoinParts(w, k, v, key, value);
    }

    static lemma JoinParts(w: Bytes, k: Byte, v: Byte, key: Bytes, value: Bytes)
      ensures w + [k] + [v] + key + value == w + ([k, v] + key + value)
    {
    }

    static lemma BuffersOfPadded(es: seq<ConfigEntry>)
      requires |es| <= RECORD_CAPACITY
      ensures BuffersOf(Padded(es, RECORD_CAPACITY)) == BuffersOf(es) + seq(RECORD_CAPACITY - |es|, _ => EMPTY)
    {
    }

    /** Both slots are read; the one with the higher sequence number wins. */
    method Initialize(firstAnswer: Status, secondAnswer: Status) returns (status: Status)
      requires Valid()
      modifies this, records, scratch
      ensures Valid()
      ensures var boot := Boot(ReadResult(firstAnswer, SlotOf(storage.cells, 0)),
                               ReadResult(secondAnswer, SlotOf(storage.cells, 1)));
              match boot
              case Success(b) => && status == Ok && records[..] == BuffersOf(b.entries)
                                 && sequence == b.sequence && activeSlot == b.slot
                                 && (GoodEntries(b.entries) && Distinct(b.entries) ==> Sound() && Entries() == b.entries)
              case Failure(e) => && status == e && records[..] == old(records[..])
                                 && sequence == old(sequence) && activeSlot == old(activeSlot)
    {
      status := BootFromSlots(firstAnswer, secondAnswer);
      ghost var boot := Boot(ReadResult(firstAnswer, SlotOf(storage.cells, 0)),
                             ReadResult(secondAnswer, SlotOf(storage.cells, 1)));
      hide Boot, ReadResult, SlotOf, Buffers, View, Distinct;
      if boot.Success? && GoodEntries(boot.value.entries) { ViewsOfBuffers(boot.value.entries); }
    }

    static lemma ViewsOfBuffers(es: seq<ConfigEntry>)
      requires GoodEntries(es)
      ensures Views(BuffersOf(es)) == es && forall i :: 0 <= i < |es| ==> GoodRecord(BuffersOf(es)[i])
    {
      hide Buffers, View;
      forall i | 0 <= i < |es| ensures View(Buffers(es[i])) == es[i] && GoodRecord(Buffers(es[i])) {
        ViewOfBuffers(es[i]);
      }
    }

    method BootFromSlots(firstAnswer: Status, secondAnswer: Status) returns (status: Status)
      requires Valid()
      modifies this, records, scratch
      ensures Valid()
      ensures var boot := Boot(ReadResult(firstAnswer, SlotOf(storage.cells, 0)),
                               ReadResult(secondAnswer, SlotOf(storage.cells, 1)));
              match boot
              case Success(b) => && status == Ok && records[..] == BuffersOf(b.entries)
                                 && sequence == b.sequence && activeSlot == b.slot
              case Failure(e) => && status == e && records[..] == old(records[..])
                                 && sequence == old(sequence) && activeSlot == old(activeSlot)
    {
      hide Decoded, SlotOf, Buffers, BuffersOf, AtLeast;
      var first := ReadSlot(0, firstAnswer);
      var second := ReadSlot(1, secondAnswer);
      if first.Failure? && second.Failure? {
        if !Blank(first.status) || !Blank(second.status) {
          return IoError;
        }
        BuffersOfFree();
        Adopt(Loaded(0, seq(RECORD_CAPACITY, _ => EMPTY)), 0);
        return Ok;
      }
      if second.Failure? || (first.Success? && AtLeast(first.value.sequence, second.value.sequence)) {
        Adopt(first.value, 0);
      } else {
        Adopt(second.value, 1);
      }
      return Ok;
    }

    method Adopt(selected: Loaded, slot: nat)
      requires Valid() && slot < 2 && |selected.records| == RECORD_CAPACITY
      modifies this, records
      ensures Valid() && records[..] == selected.records
      ensures sequence == selected.sequence && activeSlot == slot
    {
      activeSlot := slot;
      sequence := selected.sequence;
      for index := 0 to RECORD_CAPACITY
        invariant Valid() && sequence == selected.sequence && activeSlot == slot
        invariant records[..index] == selected.records[..index]
      {
        records[index] := selected.records[index];
      }
    }

    static lemma BuffersOfFree()
      ensures Buffers(Free) == EMPTY
      ensures BuffersOf(Nothing()) == seq(RECORD_CAPACITY, _ => EMPTY)
    {
    }

    method ReadSlot(slot: nat, answer: Status) returns (r: Result<Loaded>)
      requires Valid() && slot < 2
      modifies scratch
      ensures r == LoadedFrom(ReadResult(answer, SlotOf(storage.cells, slot)))
      ensures r.Success? ==> |r.value.records| == RECORD_CAPACITY
    {
      hide Word, Crc32, ParseEntries, Buffers, SizeOf, Join32, BuffersOf;
      var status, data := storage.Read(slot * SLOT_BYTES, SLOT_BYTES, answer);
      if !status.Ok? {
        return Failure(status);
      }
      forall index | 0 <= index < SLOT_BYTES {
        scratch[index] := data[index];
      }
      ghost var image := SlotOf(storage.cells, slot);
      assert scratch[..] == image;
      var crc := Crc32Ieee(scratch, CRC_OFFSET);
      var crcReader := new ByteReader(scratch, CRC_OFFSET, 4);
      var ok, storedCrc := crcReader.ReadU32Le();
      assert scratch[..CRC_OFFSET] == image[..CRC_OFFSET];
      assert scratch[CRC_OFFSET..CRC_OFFSET + 4][..4] == image[CRC_OFFSET..];
      if storedCrc != crc {
        return Failure(Corrupt);
      }
      r := ReadContent(image);
    }

    /** The part of `ReadSlot` behind the check of the CRC. */
    method ReadContent(ghost image: Bytes) returns (r: Result<Loaded>)
      requires Valid() && |image| == SLOT_BYTES && scratch[..] == image
      requires Word(image[CRC_OFFSET..]) == Crc32(image[..CRC_OFFSET])
      ensures r == LoadedFrom(Decoded(image))
      ensures r.Success? ==> |r.value.records| == RECORD_CAPACITY
    {
      hide Word, Crc32, ParseEntries, Buffers, SizeOf, Join32;
      var reader := new ByteReader(scratch, 0, CRC_OFFSET);
      assert scratch[..CRC_OFFSET] == image[..CRC_OFFSET];
      var magic, storedSequence, count := ReadHead(reader, image);
      if magic != MAGIC || SizeOf(count) > RECORD_CAPACITY {
        return Failure(Corrupt);
      }
      var loaded := ReadRecords(reader, SizeOf(count));
      if loaded.None? {
        return Failure(Corrupt);
      }
      var padding := seq(RECORD_CAPACITY - |loaded.value|, _ => EMPTY);
      BuffersOfPadded(ParseEntries(image[9..CRC_OFFSET], SizeOf(count)).value);
      r := Success(Loaded(storedSequence, loaded.value + padding));
    }

    method ReadHead(reader: ByteReader, ghost image: Bytes) returns (magic: bv32, sequence: bv32, count: Byte)
      requires reader.Valid() && |image| == SLOT_BYTES && reader.Rest() == image[..CRC_OFFSET]
      modifies reader
      ensures reader.Valid() && reader.Rest() == image[9..CRC_OFFSET]
      ensures magic == Word(image[..4]) && sequence == Word(image[4..8]) && count == image[8]
    {
      hide Word;
      var ok;
      ghost var front := reader.Rest();
      ok, magic := reader.ReadU32Le();
      ok, sequence := reader.ReadU32Le();
      ok, count := reader.ReadU8();
      assert front[..4] == image[..4] && front[4..][..4] == image[4..8] && front[4..][4..][0] == image[8];
      assert front[4..][4..][1..] == image[9..CRC_OFFSET];
    }

    method ReadRecords(reader: ByteReader, count: nat) returns (loaded: Option<seq<Record>>)
      requires reader.Valid()
      modifies reader
      ensures loaded == match ParseEntries(old(reader.Rest()), count)
                        case None => None
                        case Some(es) => Some(BuffersOf(es))
      ensures loaded.Some? ==> |loaded.value| == count
    {
      hide Buffers, ParseEntry;
      ghost var rest := reader.Rest();
      ghost var parsed: seq<ConfigEntry> := [];
      var records: seq<Record> := [];
      PrependNothing(ParseEntries(rest, count));
      for index := 0 to count
        invariant reader.Valid()
        invariant records == BuffersOf(parsed) && |parsed| == index
        invariant ParseEntries(rest, count) == Prepend(parsed, ParseEntries(reader.Rest(), count - index))
      {
        ghost var before := reader.Rest();
        var record := ReadRecord(reader);
        if record.None? {
          return None;
        }
        ghost var entry := ParseEntry(before).value;
        assert ParseEntries(before, count - index) == Prepend([entry], ParseEntries(reader.Rest(), count - index - 1));
        PrependTwice(parsed, [entry], ParseEntries(reader.Rest(), count - index - 1));
        records := records + [record.value];
        parsed := parsed + [entry];
      }
      assert parsed + [] == parsed;
      return Some(records);
    }

    method ReadRecord(reader: ByteReader) returns (record: Option<Record>)
      requires reader.Valid()
      modifies reader
      ensures reader.Valid()
      ensures match ParseEntry(old(reader.Rest()))
              case None => record == None
              case Some(e) => record == Some(Buffers(e)) && reader.Rest() == old(reader.Rest())[2 + |e.key| + |e.value|..]
    {
      hide SizeOf, Buffers, ParseEntry;
      var ok, keySize, valueSize, key, value;
      ghost var b := reader.Rest();
      ParseFields(b);
      ok, keySize := reader.ReadU8();
      if !ok { return None; }
      ok, valueSize := reader.ReadU8();
      if !ok { return None; }
      var (k, v) := (SizeOf(keySize), SizeOf(valueSize));
      if k == 0 || k >= KEY_CAPACITY || v > VALUE_CAPACITY {
        return None;
      }
      assert reader.Rest() == b[2..];
      ok, key, value := ReadFields(reader, k, v, b);
      if !ok { return None; }
      var filled := FillRecord(key, value);
      return Some(filled);
    }

    method ReadFields(reader: ByteReader, k: nat, v: nat, ghost b: Bytes) returns (ok: bool, key: Bytes, value: Bytes)
      requires reader.Valid() && |b| >= 2 && reader.Rest() == b[2..]
      modifies reader
      ensures reader.Valid() && (ok <==> 2 + k + v <= |b|)
      ensures ok ==> key == b[2..2 + k] && value == b[2 + k..2 + k + v] && reader.Rest() == b[2 + k + v..]
    {
      value := [];
      ghost var body := reader.Rest();
      ok, key := reader.ReadBytes(k);
      if !ok { return; }
      ok, value := reader.ReadBytes(v);
      if !ok { return; }
      assert body[..k] == b[2..2 + k] && body[k..][..v] == b[2 + k..2 + k + v];
      assert body[k..][v..] == b[2 + k + v..];
    }

    static lemma ParseFields(b: Bytes)
      ensures |b| < 2 ==> ParseEntry(b) == None
      ensures |b| >= 2 ==>
        var (k, v) := (SizeOf(b[0]), SizeOf(b[1]));
        ParseEntry(b) == if k == 0 || k >= KEY_CAPACITY || v > VALUE_CAPACITY || |b| < 2 + k + v then None
                         else Some(Bound(b[2..2 + k], b[2 + k..2 + k + v]))
    {}
  }

  // ---- what reading back means -----------------------------------------------------

  datatype Loaded = Loaded(sequence: bv32, records: seq<Record>)

  function LoadedFrom(r: Result<Snapshot>): Result<Loaded> {
    match r
    case Failure(e) => Failure(e)
    case Success(s) => Success(Loaded(s.sequence, BuffersOf(s.entries)))
  }

  function Prepend(es: seq<ConfigEntry>, rest: Option<seq<ConfigEntry>>): Option<seq<ConfigEntry>> {
    match rest
    case None => None
    case Some(fs) => Some(es + fs)
  }

  lemma PrependNothing(rest: Option<seq<ConfigEntry>>)
    ensures Prepend([], rest) == rest
  {
    if rest.Some? { assert [] + rest.value == rest.value; }
  }

  lemma PrependTwice(es: seq<ConfigEntry>, fs: seq<ConfigEntry>, rest: Option<seq<ConfigEntry>>)
    ensures Prepend(es, Prepend(fs, rest)) == Prepend(es + fs, rest)
  {
    if rest.Some? { assert es + (fs + rest.value) == es + fs + rest.value; }
  }
}
