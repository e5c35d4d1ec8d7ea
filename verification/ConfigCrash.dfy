/** Power loss: what a restart finds after any run of edits and commits. */
module ConfigCrash {
  import opened Uhal
  import opened Bytes8
  import opened EntryTable
  import opened ConfigImage
  import opened ConfigRecords
  import opened Config
  import opened Crc
  import opened Numbers32

  type Table = map<Bytes, Bytes>

  /** Both slots, the RAM array, the slot and sequence number in use, and whether the last
      start-up succeeded. */
  datatype Device = Device(slots: seq<Bytes>, entries: seq<ConfigEntry>, sequence: bv32, slot: nat, up: bool)

  function Next(sequence: bv32): bv32 { sequence + 1 }

  function Before(sequence: bv32): bv32 { sequence - 1 }

  const LAST: bv32 := 0xFFFF_FFFF

  ghost predicate Shaped(es: seq<ConfigEntry>) {
    |es| == RECORD_CAPACITY && GoodEntries(es) && Distinct(es)
  }

  ghost predicate WellFormed(d: Device) { |d.slots| == 2 && d.slot < 2 && Shaped(d.entries) }

  /** What the next commit writes. */
  ghost function Image(d: Device): Bytes
    requires Shaped(d.entries)
  {
    ContentFits(d.entries, Next(d.sequence));
    ImageOf(d.entries, Next(d.sequence))
  }

  /** What a commit that did not report success can leave in its slot: the old
      content, the whole new image, or something no reader accepts. */
  ghost predicate Torn(d: Device, left: Bytes)
    requires WellFormed(d)
  {
    left == d.slots[1 - d.slot] || left == Image(d) || Decoded(left).Failure?
  }

  // ---- start-up --------------------------------------------------------------------

  /** How storage answers the two reads of a start-up. */
  datatype Reads = Reads(first: Status, second: Status)

  const BOTH_READ := Reads(Ok, Ok)

  function Answer(r: Reads, slot: nat): Status { if slot == 0 then r.first else r.second }

  /** A read that fails does not claim that the slot is corrupt or not there. */
  predicate NoneBlank(r: Reads) { !Blank(r.first) && !Blank(r.second) }

  function Reboot(d: Device, r: Reads): Device
    requires |d.slots| == 2
  {
    match Boot(ReadResult(r.first, d.slots[0]), ReadResult(r.second, d.slots[1]))
    case Success(b) => Device(d.slots, b.entries, b.sequence, b.slot, true)
    case Failure(_) => Off(d.slots)
  }

  /** A device before its first successful start-up. */
  function Off(slots: seq<Bytes>): Device { Device(slots, Nothing(), 0, 0, false) }

  // ---- steps ---------------------------------------------------------------------

  datatype Step =
    | Edit(entries: seq<ConfigEntry>)   // any set_blob or erase
    | Commit                            // both storage operations succeed
    | Fail(left: Bytes)                 // commit returns an error
    | Restart(answers: Reads)
    | Cut(left: Bytes, answers: Reads)    // power is lost inside a commit, then restart

  /** Sequence numbers must not wrap; a device that did not start is only started again. */
  ghost predicate Possible(d: Device, s: Step)
    requires WellFormed(d)
  {
    match s
    case Edit(es) => d.up && Shaped(es)
    case Commit => d.up && d.sequence != LAST
    case Fail(left) => d.up && d.sequence != LAST && Torn(d, left)
    case Restart(r) => NoneBlank(r)
    case Cut(left, r) => d.up && d.sequence != LAST && Torn(d, left) && NoneBlank(r)
  }

  function Put(d: Device, left: Bytes): Device
    requires |d.slots| == 2 && d.slot < 2
  {
    d.(slots := d.slots[1 - d.slot := left])
  }

  ghost function After(d: Device, s: Step): Device
    requires WellFormed(d)
  {
    match s
    case Edit(es) => d.(entries := es)
    case Commit => Put(d, Image(d)).(slot := 1 - d.slot, sequence := Next(d.sequence))
    case Fail(left) => Put(d, left)
    case Restart(r) => Reboot(d, r)
    case Cut(left, r) => Reboot(Put(d, left), r)
  }

  // ---- what must be remembered -----------------------------------------------------

  /** The table of the last successful commit or start-up, with its slot and sequence
      number; the table before it, if the other slot may still hold that; and the table of
      a newer image that the other slot may hold: of a commit that failed, or of one that a
      start-up passed over. */
  datatype Memory = Memory(slot: nat, sequence: bv32, committed: Table, previous: Option<Table>, attempted: Option<Table>)

  const NO_MEMORY := Memory(0, 0, map[], None, None)

  ghost function Recall(d: Device, m: Memory, s: Step): Memory
    requires WellFormed(d) && m.slot < 2
  {
    match s
    case Edit(_) => m
    case Commit => Memory(1 - d.slot, Next(d.sequence), TableOf(d.entries), Stored(d.slots, m), None)
    case Fail(left) => Leave(d, m, left)
    case Restart(r) => Started(d, m, r)
    case Cut(left, r) => Started(Put(d, left), Leave(d, m, left), r)
  }

  ghost function Stored(slots: seq<Bytes>, m: Memory): Option<Table>
    requires |slots| == 2 && m.slot < 2
  {
    if Decoded(slots[m.slot]).Success? then Some(m.committed) else None
  }

  ghost function Leave(d: Device, m: Memory, left: Bytes): Memory
    requires WellFormed(d)
  {
    if left == Image(d) then m.(previous := None, attempted := Some(TableOf(d.entries)))
    else if left == d.slots[1 - d.slot] then m
    else m.(previous := None, attempted := None)
  }

  /** After a start-up: a newer image was adopted, an older one was, or none of both. */
  ghost function Started(d: Device, m: Memory, r: Reads): Memory
    requires |d.slots| == 2 && m.slot < 2
  {
    var e := Reboot(d, r);
    if !e.up then m
    else if e.slot == m.slot then if Answer(r, 1 - m.slot).Ok? then m.(attempted := None) else m
    else if AtLeast(e.sequence, m.sequence) then
      Memory(e.slot, e.sequence, TableOf(e.entries), Stored(d.slots, m), None)
    else Memory(e.slot, e.sequence, TableOf(e.entries), None, Some(m.committed))
  }

  ghost predicate Keeps(image: Bytes, sequence: bv32, table: Table) {
    && Decoded(image).Success?
    && var s := Decoded(image).value;
    && s.sequence == sequence && Shaped(s.entries) && TableOf(s.entries) == table
  }

  /** The slot in use holds the committed table, or is unreadable as it left the factory. */
  ghost predicate ActiveHolds(image: Bytes, m: Memory) {
    || Keeps(image, m.sequence, m.committed)
    || (Decoded(image).Failure? && m.sequence == 0 && m.slot == 0 && m.committed == map[])
  }

  /** The other slot is unreadable, holds the previous table under the sequence number
      before, or the attempted one under the next. */
  ghost predicate OtherHolds(image: Bytes, m: Memory) {
    || Decoded(image).Failure?
    || (m.previous.Some? && m.sequence != 0 && Keeps(image, Before(m.sequence), m.previous.value))
    || (m.attempted.Some? && m.sequence != LAST && Keeps(image, Next(m.sequence), m.attempted.value))
  }

  ghost predicate Holds(slots: seq<Bytes>, m: Memory) {
    |slots| == 2 && m.slot < 2 && ActiveHolds(slots[m.slot], m) && OtherHolds(slots[1 - m.slot], m)
  }

  ghost predicate Consistent(d: Device, m: Memory) {
    && Holds(d.slots, m) && WellFormed(d)
    && (if d.up then d.slot == m.slot && d.sequence == m.sequence else d == Off(d.slots))
  }

  // ---- facts about one image --------------------------------------------------------

  lemma ImageKeeps(d: Device)
    requires WellFormed(d)
    ensures Keeps(Image(d), Next(d.sequence), TableOf(d.entries))
  {
    hide Decoded, TableOf, Distinct, Content, ImageOf, IsImage;
    ContentFits(d.entries, Next(d.sequence));
    ImageOfIsImage(d.entries, Next(d.sequence));
    SlotRoundTrip(d.entries, Next(d.sequence), Image(d));
  }

  lemma Order(s: bv32)
    ensures AtLeast(s, 0) && (s != 0 ==> !AtLeast(0, s))
    ensures s != LAST ==> !AtLeast(s, Next(s)) && AtLeast(Next(s), s) && Next(s) != 0 && Before(Next(s)) == s
    ensures s != 0 ==> !AtLeast(Before(s), s) && AtLeast(s, Before(s)) && Before(s) != LAST && Next(Before(s)) == s
    ensures s == LAST ==> Next(s) == 0
  {
    hide *;
    FromZero(s);
    if s == LAST { Wraps(); } else { Upwards(s); }
    if s != 0 { Downwards(s); }
  }

  lemma FromZero(s: bv32)
    ensures AtLeast(s, 0) && (s != 0 ==> !AtLeast(0, s))
  {}

  lemma Upwards(s: bv32)
    requires s != LAST
    ensures !AtLeast(s, Next(s)) && AtLeast(Next(s), s) && Next(s) != 0 && Before(Next(s)) == s
  {}

  lemma Downwards(s: bv32)
    requires s != 0
    ensures !AtLeast(Before(s), s) && AtLeast(s, Before(s)) && Before(s) != LAST && Next(Before(s)) == s
  {}

  lemma Wraps()
    ensures Next(LAST) == 0
  {}

  lemma NothingIsShaped()
    ensures Shaped(Nothing()) && TableOf(Nothing()) == map[]
  {}

  lemma OnlyCorrupt(image: Bytes)
    ensures Decoded(image).Failure? ==> Decoded(image).status == Corrupt
  {}

  // ---- what a start-up adopts ---------------------------------------------------------

  ghost function Found(slots: seq<Bytes>, r: Reads, slot: nat): Result<Snapshot>
    requires |slots| == 2 && slot < 2
  {
    ReadResult(Answer(r, slot), slots[slot])
  }

  /** The higher sequence number wins; without any readable slot, start-up succeeds only if
      both are said to be blank. */
  lemma Chosen(d: Device, r: Reads, slot: nat)
    requires |d.slots| == 2 && slot < 2
    ensures var (a, b, e) := (Found(d.slots, r, slot), Found(d.slots, r, 1 - slot), Reboot(d, r));
            && (a.Success? && (b.Failure? || !AtLeast(b.value.sequence, a.value.sequence)) ==>
                  e == Device(d.slots, a.value.entries, a.value.sequence, slot, true))
            && (a.Failure? && b.Failure? ==>
                  e == if Blank(a.status) && Blank(b.status) then Off(d.slots).(up := true) else Off(d.slots))
  {
    hide Decoded, AtLeast;
    var (a, b) := (Found(d.slots, r, slot), Found(d.slots, r, 1 - slot));
    if a.Success? && b.Success? { Total(a.value.sequence, b.value.sequence); }
  }

  lemma Total(a: bv32, b: bv32)
    ensures AtLeast(a, b) || AtLeast(b, a)
  {}

  /** The slot in use is adopted. */
  lemma AdoptsActive(d: Device, m: Memory, r: Reads)
    requires Holds(d.slots, m) && Answer(r, m.slot).Ok? && Decoded(d.slots[m.slot]).Success?
    requires Answer(r, 1 - m.slot).Ok? ==>
               OtherHolds(d.slots[1 - m.slot], m.(attempted := None))
    ensures var e := Reboot(d, r);
            && e == Device(d.slots, Decoded(d.slots[m.slot]).value.entries, m.sequence, m.slot, true)
            && Keeps(d.slots[m.slot], m.sequence, m.committed)
            && TableOf(e.entries) == m.committed && Consistent(e, Started(d, m, r))
  {
    hide Decoded, AtLeast, Next, Before, TableOf, Shaped, Reboot, Boot;
    Order(m.sequence);
    Chosen(d, r, m.slot);
  }

  /** A newer image in the other slot is adopted. */
  lemma AdoptsAttempted(d: Device, m: Memory, r: Reads)
    requires Holds(d.slots, m) && Answer(r, 1 - m.slot).Ok? && m.attempted.Some? && m.sequence != LAST
    requires Keeps(d.slots[1 - m.slot], Next(m.sequence), m.attempted.value)
    ensures var e := Reboot(d, r);
            && e == Device(d.slots, Decoded(d.slots[1 - m.slot]).value.entries, Next(m.sequence), 1 - m.slot, true)
            && TableOf(e.entries) == m.attempted.value && Consistent(e, Started(d, m, r))
  {
    hide Decoded, AtLeast, Next, Before, TableOf, Shaped, Reboot, Boot;
    Order(m.sequence);
    Chosen(d, r, 1 - m.slot);
  }

  /** The slot in use is not read, and the previous table in the other slot is adopted. */
  lemma AdoptsPrevious(d: Device, m: Memory, r: Reads)
    requires Holds(d.slots, m) && !Answer(r, m.slot).Ok? && Answer(r, 1 - m.slot).Ok?
    requires m.previous.Some? && m.sequence != 0 && Keeps(d.slots[1 - m.slot], Before(m.sequence), m.previous.value)
    ensures var e := Reboot(d, r);
            && e == Device(d.slots, Decoded(d.slots[1 - m.slot]).value.entries, Before(m.sequence), 1 - m.slot, true)
            && TableOf(e.entries) == m.previous.value && Consistent(e, Started(d, m, r))
  {
    hide Decoded, AtLeast, Next, Before, TableOf, Shaped, Reboot, Boot;
    Order(m.sequence);
    Chosen(d, r, 1 - m.slot);
  }

  /** Nothing readable: the empty table if that is what was committed, or no start. */
  lemma AdoptsNothing(d: Device, m: Memory, r: Reads)
    requires Holds(d.slots, m) && NoneBlank(r)
    requires !Answer(r, m.slot).Ok? || Decoded(d.slots[m.slot]).Failure?
    requires !Answer(r, 1 - m.slot).Ok? || Decoded(d.slots[1 - m.slot]).Failure?
    ensures var e := Reboot(d, r);
            && (if Answer(r, m.slot).Ok? && Answer(r, 1 - m.slot).Ok? then e == Off(d.slots).(up := true) && m.committed == map[]
                else e == Off(d.slots))
            && Consistent(e, Started(d, m, r)) && TableOf(e.entries) == map[]
            && Started(d, m, r).sequence == m.sequence
  {
    hide Decoded, AtLeast, Next, Before, TableOf, Shaped, Reboot, Boot;
    OnlyCorrupt(d.slots[m.slot]);
    OnlyCorrupt(d.slots[1 - m.slot]);
    NothingIsShaped();
    Chosen(d, r, m.slot);
  }

  /** Whatever the reads answer, as long as a failing one does not claim a blank slot, a
      start-up adopts the committed, the attempted or the previous table, or fails; the
      previous one only if the slot in use was not read. If both reads succeed, it finds
      the committed table, or the attempted one in full. */
  lemma RestartRestores(d: Device, m: Memory, r: Reads)
    requires Consistent(d, m) && NoneBlank(r)
    ensures var e := Reboot(d, r);
            && Consistent(e, Started(d, m, r))
            && (e.up ==> Some(TableOf(e.entries)) in {Some(m.committed), m.attempted, m.previous})
            && (e.up && Answer(r, m.slot).Ok? ==> Some(TableOf(e.entries)) in {Some(m.committed), m.attempted})
            && (r == BOTH_READ ==> e.up)
            && (e.up && m.attempted.None? && Answer(r, m.slot).Ok? ==> TableOf(e.entries) == m.committed)
  {
    hide Decoded, AtLeast, Next, Before, TableOf, Shaped, Reboot, Boot, Keeps, Started;
    var (a, b) := (Answer(r, m.slot), Answer(r, 1 - m.slot));
    var (active, other) := (d.slots[m.slot], d.slots[1 - m.slot]);
    if b.Ok? && m.attempted.Some? && m.sequence != LAST && Keeps(other, Next(m.sequence), m.attempted.value) {
      AdoptsAttempted(d, m, r);
    } else if a.Ok? && Decoded(active).Success? {
      AdoptsActive(d, m, r);
    } else if b.Ok? && Decoded(other).Success? {
      UnreadableIsFirst(active, m);
      AdoptsPrevious(d, m, r);
    } else {
      AdoptsNothing(d, m, r);
    }
  }

  lemma UnreadableIsFirst(image: Bytes, m: Memory)
    requires ActiveHolds(image, m)
    ensures Decoded(image).Failure? ==> m.sequence == 0
  {}

  /** Both slots readable and no newer image than the one in use: the committed table comes
      back if and only if the slot in use is read - or by chance: the previous table was the
      same, or the table was empty and both failing reads claim blank slots. Otherwise a
      start-up that can read the other slot silently goes one commit back. */
  lemma RestartIsExact(d: Device, m: Memory, r: Reads)
    requires Consistent(d, m) && m.attempted.None? && m.previous.Some?
    requires Decoded(d.slots[0]).Success? && Decoded(d.slots[1]).Success?
    ensures var (a, b, e) := (Answer(r, m.slot), Answer(r, 1 - m.slot), Reboot(d, r));
            && (e.up && TableOf(e.entries) == m.committed <==>
                  || a.Ok?
                  || (b.Ok? && m.previous == Some(m.committed))
                  || (!b.Ok? && Blank(a) && Blank(b) && m.committed == map[]))
            && (!a.Ok? && b.Ok? ==> e.up && e.slot == 1 - m.slot && Some(TableOf(e.entries)) == m.previous)
  {
    hide Decoded, AtLeast, Next, Before, TableOf, Shaped, Reboot, Boot, Started;
    var (a, b) := (Answer(r, m.slot), Answer(r, 1 - m.slot));
    if a.Ok? {
      AdoptsActive(d, m, r);
    } else if b.Ok? {
      AdoptsPrevious(d, m, r);
    } else {
      NothingIsShaped();
      Chosen(d, r, m.slot);
    }
  }

  // ---- one step -----------------------------------------------------------------------

  lemma CommitKeeps(d: Device, m: Memory)
    requires Consistent(d, m) && d.up && d.sequence != LAST
    ensures Consistent(After(d, Commit), Recall(d, m, Commit))
  {
    hide Decoded, TableOf, Distinct, Content, AtLeast, GoodEntries, Next, Before, ImageOf;
    ImageKeeps(d);
    Order(d.sequence);
  }

  lemma FailKeeps(d: Device, m: Memory, left: Bytes)
    requires Consistent(d, m) && d.up && d.sequence != LAST && Torn(d, left)
    ensures Consistent(Put(d, left), Leave(d, m, left))
  {
    hide Decoded, TableOf, Distinct, Content, AtLeast, GoodEntries, Next, Before, ImageOf;
    ImageKeeps(d);
  }

  /** Every step keeps the device consistent with what must be remembered. */
  lemma StepKeeps(d: Device, m: Memory, s: Step)
    requires Consistent(d, m) && Possible(d, s)
    ensures Consistent(After(d, s), Recall(d, m, s))
  {
    hide Decoded, TableOf, Distinct, Content, AtLeast, GoodEntries, Next, Before, ImageOf, Reboot, Keeps, Started;
    match s
    case Edit(es) =>
    case Commit => CommitKeeps(d, m);
    case Fail(left) => FailKeeps(d, m, left);
    case Restart(r) => RestartRestores(d, m, r);
    case Cut(left, r) =>
      FailKeeps(d, m, left);
      RestartRestores(Put(d, left), Leave(d, m, left), r);
  }

  /** Power loss inside a commit is atomic: with no earlier failed commit in
      the way, a restart finds the table being committed if its image is
      complete, and the last committed table otherwise. */
  lemma CutIsAtomic(d: Device, m: Memory, left: Bytes)
    requires Consistent(d, m) && m.attempted.None? && Possible(d, Cut(left, BOTH_READ))
    ensures var e := After(d, Cut(left, BOTH_READ));
            e.up && TableOf(e.entries) == if left == Image(d) then TableOf(d.entries) else m.committed
  {
    hide Decoded, TableOf, Distinct, Content, AtLeast, GoodEntries, Next, Before, ImageOf, Reboot, Started;
    var p := Put(d, left);
    FailKeeps(d, m, left);
    RestartRestores(p, Leave(d, m, left), BOTH_READ);
    if left == Image(d) {
      ImageKeeps(d);
      AdoptsAttempted(p, Leave(d, m, left), BOTH_READ);
    }
  }

  /** A committed table survives a restart exactly as long as sequence numbers
      have not wrapped; at the wrap the restart returns to the previous table. */
  lemma CommitSurvivesRestart(d: Device, m: Memory)
    requires Consistent(d, m) && d.up
    ensures var e := Reboot(After(d, Commit), BOTH_READ);
            e.up && TableOf(e.entries) == if d.sequence != LAST then TableOf(d.entries) else m.committed
  {
    hide Decoded, TableOf, Distinct, Content, AtLeast, GoodEntries, Next, Before, ImageOf, Reboot, Started;
    var after := After(d, Commit);
    if d.sequence != LAST {
      CommitKeeps(d, m);
      RestartRestores(after, Recall(d, m, Commit), BOTH_READ);
    } else {
      ImageKeeps(d);
      Order(LAST);
      NotFirst(d.slots[d.slot], m);
      Chosen(after, BOTH_READ, d.slot);
    }
  }

  lemma NotFirst(image: Bytes, m: Memory)
    requires ActiveHolds(image, m) && m.sequence == LAST
    ensures Keeps(image, LAST, m.committed)
  {}

  /** Two failing reads that claim blank slots give an empty table, whatever was stored. The
      next commit succeeds, and is gone at the next restart if the first slot was in use. */
  lemma BlankReadsForget(d: Device, m: Memory, r: Reads, es: seq<ConfigEntry>)
    requires Consistent(d, m) && !r.first.Ok? && !r.second.Ok? && Blank(r.first) && Blank(r.second) && Shaped(es)
    ensures var e := Reboot(d, r);
            && e.up && e.entries == Nothing() && e.sequence == 0
            && (Decoded(d.slots[0]).Success? && m.slot == 0 && AtLeast(m.sequence, 1) ==>
                  var f := Reboot(After(After(e, Edit(es)), Commit), BOTH_READ);
                  f.up && TableOf(f.entries) == m.committed)
  {
    hide Decoded, TableOf, Distinct, Content, GoodEntries, ImageOf, Reboot, Before;
    Chosen(d, r, 0);
    NothingIsShaped();
    var e1 := After(Reboot(d, r), Edit(es));
    ImageKeeps(e1);
    if Decoded(d.slots[0]).Success? && m.slot == 0 && AtLeast(m.sequence, 1) {
      FirstWins(After(e1, Commit), m.sequence);
    }
  }

  lemma FirstWins(d: Device, sequence: bv32)
    requires |d.slots| == 2 && Decoded(d.slots[0]).Success? && Decoded(d.slots[0]).value.sequence == sequence
    requires Decoded(d.slots[1]).Success? && AtLeast(sequence, Decoded(d.slots[1]).value.sequence)
    ensures var e := Reboot(d, BOTH_READ); e.up && e.entries == Decoded(d.slots[0]).value.entries
  {
    hide Decoded, AtLeast;
  }

  // ---- whole runs -----------------------------------------------------------------------

  datatype World = World(device: Device, memory: Memory)

  ghost function Run(w: World, steps: seq<Step>): Option<World> {
    if steps == [] then Some(w)
    else
      match Run(w, steps[..|steps| - 1])
      case None => None
      case Some(v) =>
        var step := steps[|steps| - 1];
        if WellFormed(v.device) && v.memory.slot < 2 && Possible(v.device, step) then
          Some(World(After(v.device, step), Recall(v.device, v.memory, step)))
        else None
  }

  ghost predicate Settled(w: World) { Consistent(w.device, w.memory) }

  lemma {:induction false} RunKeeps(w: World, steps: seq<Step>)
    requires Settled(w) && Run(w, steps).Some?
    ensures Settled(Run(w, steps).value)
  {
    if steps != [] {
      RunKeeps(w, steps[..|steps| - 1]);
      var v := Run(w, steps[..|steps| - 1]).value;
      StepKeeps(v.device, v.memory, steps[|steps| - 1]);
      hide Holds, After, Recall, WellFormed, Possible;
    }
  }

  lemma RunMore(w: World, steps: seq<Step>, v: World, step: Step)
    requires Settled(v) && Run(w, steps) == Some(v) && Possible(v.device, step)
    ensures Run(w, steps + [step]) == Some(World(After(v.device, step), Recall(v.device, v.memory, step)))
  {
    assert (steps + [step])[..|steps|] == steps;
    hide After, Recall, Possible, ActiveHolds, OtherHolds;
  }

  /** After any run of edits, commits, failures, power losses and restarts, a restart gives
      exactly the table committed last, or the table of a newer image that was attempted or
      passed over since, never a mixture; the table before only if the slot in use cannot
      be read. */
  lemma RunRestores(w: World, steps: seq<Step>, v: World, r: Reads)
    requires Settled(w) && Run(w, steps) == Some(v) && NoneBlank(r)
    ensures Settled(v) && Settled(World(Reboot(v.device, r), Started(v.device, v.memory, r)))
    ensures var (m, e) := (v.memory, Reboot(v.device, r));
            && (r == BOTH_READ ==> e.up)
            && (e.up && Answer(r, m.slot).Ok? ==> Some(TableOf(e.entries)) in {Some(m.committed), m.attempted})
            && (e.up ==> Some(TableOf(e.entries)) in {Some(m.committed), m.attempted, m.previous})
  {
    RunKeeps(w, steps);
    hide TableOf, Reboot, Started, Run;
    RestartRestores(v.device, v.memory, r);
  }

  /** A device with two unreadable slots, as it leaves the factory. */
  function Fresh(slots: seq<Bytes>): World { World(Off(slots), NO_MEMORY) }

  lemma FreshIsConsistent(slots: seq<Bytes>)
    requires |slots| == 2 && Decoded(slots[0]).Failure? && Decoded(slots[1]).Failure?
    ensures Settled(Fresh(slots))
  {
    hide Decoded, TableOf;
    NothingIsShaped();
  }

  // ---- sequence numbers last long enough ----------------------------------------------

  lemma {:induction false} SequenceBound(w: World, steps: seq<Step>, used: nat)
    requires Settled(w) && Number(w.memory.sequence) <= used && Run(w, steps).Some?
    ensures Number(Run(w, steps).value.memory.sequence) <= used + |steps|
  {
    if steps != [] {
      var before := steps[..|steps| - 1];
      SequenceBound(w, before, used);
      RunKeeps(w, before);
      var v := Run(w, before).value;
      StepSequence(v.device, v.memory, steps[|steps| - 1]);
      hide After, Recall, Number, Possible, WellFormed, Holds;
    }
  }

  lemma StepSequence(d: Device, m: Memory, s: Step)
    requires Consistent(d, m) && Possible(d, s)
    ensures Number(Recall(d, m, s).sequence) <= Number(m.sequence) + 1
  {
    hide Decoded, TableOf, Distinct, Content, AtLeast, GoodEntries, ImageOf, Reboot, Number, Started, Holds;
    if d.sequence != LAST { NextNumber(d.sequence); }
    match s
    case Edit(_) =>
    case Commit =>
    case Fail(_) =>
    case Restart(r) => RestartSequence(d, m, r);
    case Cut(left, r) =>
      FailKeeps(d, m, left);
      RestartSequence(Put(d, left), Leave(d, m, left), r);
  }

  lemma RestartSequence(d: Device, m: Memory, r: Reads)
    requires Consistent(d, m) && NoneBlank(r)
    ensures Number(Started(d, m, r).sequence) <= Number(m.sequence) + 1
  {
    hide Decoded, AtLeast, Next, Before, TableOf, Shaped, Reboot, Boot, Keeps, Number;
    var (a, b) := (Answer(r, m.slot), Answer(r, 1 - m.slot));
    var (active, other) := (d.slots[m.slot], d.slots[1 - m.slot]);
    if b.Ok? && m.attempted.Some? && m.sequence != LAST && Keeps(other, Next(m.sequence), m.attempted.value) {
      AdoptsAttempted(d, m, r);
      NumberUp(m.sequence);
    } else if a.Ok? && Decoded(active).Success? {
      AdoptsActive(d, m, r);
    } else if b.Ok? && Decoded(other).Success? {
      UnreadableIsFirst(active, m);
      AdoptsPrevious(d, m, r);
      NumberDown(m.sequence);
    } else {
      AdoptsNothing(d, m, r);
    }
  }

  lemma NumberUp(s: bv32)
    requires s != LAST
    ensures Number(Next(s)) == Number(s) + 1
  {
    NextNumber(s);
  }

  lemma NumberDown(s: bv32)
    requires s != 0
    ensures Number(Before(s)) < Number(s)
  {
    Order(s);
    NumberUp(Before(s));
  }

  /** In a run of fewer than 2^32 - 1 steps from a fresh device, no step ever
      meets a sequence number that is about to wrap. */
  lemma NeverWraps(slots: seq<Bytes>, steps: seq<Step>)
    requires |slots| == 2 && Decoded(slots[0]).Failure? && Decoded(slots[1]).Failure?
    requires Run(Fresh(slots), steps).Some? && |steps| < 0xFFFF_FFFF
    ensures Run(Fresh(slots), steps).value.device.sequence != LAST
  {
    hide Decoded, Number, Holds;
    FreshIsConsistent(slots);
    NumberOfZero();
    NumberOfLast();
    SequenceBound(Fresh(slots), steps, 0);
    RunKeeps(Fresh(slots), steps);
  }

  // ---- a damaged slot ---------------------------------------------------------------------

  /** A change confined to four consecutive bytes of the slot in use sends the
      restart to the other slot, if that one is readable. */
  lemma DamagedSlotFallsBack(d: Device, es: seq<ConfigEntry>, damaged: Bytes, i: nat)
    requires |d.slots| == 2 && d.slot < 2 && IsImage(es, d.sequence, d.slots[d.slot])
    requires DifferInside(d.slots[d.slot], damaged, i, 4) && damaged != d.slots[d.slot]
    requires Decoded(d.slots[1 - d.slot]).Success?
    ensures var other := Decoded(d.slots[1 - d.slot]).value;
            var e := Reboot(d.(slots := d.slots[d.slot := damaged]), BOTH_READ);
            e.entries == other.entries && e.sequence == other.sequence && e.slot == 1 - d.slot
  {
    hide Decoded, IsImage;
    BurstIsCorrupt(es, d.sequence, d.slots[d.slot], damaged, i);
  }

  // ---- the service's own calls take these steps -----------------------------------------------

  function DeviceOf(cells: Bytes, entries: seq<ConfigEntry>, sequence: bv32, slot: nat, up: bool): Device
    requires |cells| == 2 * SLOT_BYTES
  {
    Device([SlotOf(cells, 0), SlotOf(cells, 1)], entries, sequence, slot, up)
  }

  lemma SpliceSlots(cells: Bytes, slot: nat, data: Bytes)
    requires |cells| == 2 * SLOT_BYTES && slot < 2 && |data| == SLOT_BYTES
    ensures SlotOf(Splice(cells, slot * SLOT_BYTES, data), slot) == data
    ensures SlotOf(Splice(cells, slot * SLOT_BYTES, data), 1 - slot) == SlotOf(cells, 1 - slot)
  {
  }

  /** A storage operation that failed left the old content, the new image, or something no
      reader accepts; or, leaving less than a slot, nothing but what was there. */
  ghost predicate Tears(d: Device, answer: FlashAnswer)
    requires WellFormed(d)
  {
    answer.Broken? && |answer.left| == SLOT_BYTES ==> Torn(d, answer.left)
  }

  /** The cells after the erase and the write of a commit. */
  ghost function Committed(d: Device, cells: Bytes, erase: FlashAnswer, write: FlashAnswer): (r: Bytes)
    requires |cells| == 2 * SLOT_BYTES && WellFormed(d)
    ensures |r| == |cells|
  {
    ImageSize(d);
    var target := (1 - d.slot) * SLOT_BYTES;
    var wiped := ConfigRecords.After(cells, EraseOp(target, SLOT_BYTES), erase);
    if erase.Done? then ConfigRecords.After(wiped, WriteOp(target, Image(d)), write) else wiped
  }

  /** The cells a commit leaves, by its contract, are those of a step: `Commit`
      if both operations succeed, otherwise `Fail` or, if power is lost
      between or inside the operations, `Cut`. */
  lemma CommitTakesStep(d: Device, cells: Bytes, erase: FlashAnswer, write: FlashAnswer)
    requires |cells| == 2 * SLOT_BYTES && d.slots == [SlotOf(cells, 0), SlotOf(cells, 1)] && WellFormed(d)
    requires Tears(d, erase) && Tears(d, write)
    ensures var left := SlotOf(Committed(d, cells, erase, write), 1 - d.slot);
            && Torn(d, left)
            && (erase.Done? && write.Done? ==> left == Image(d))
            && [SlotOf(Committed(d, cells, erase, write), 0), SlotOf(Committed(d, cells, erase, write), 1)] == Put(d, left).slots
  {
    hide Decoded, Image, SlotOf, Splice;
    var (slot, image) := (1 - d.slot, Image(d));
    ImageSize(d);
    ErasedIsCorrupt(Erased(SLOT_BYTES));
    var wiped := ConfigRecords.After(cells, EraseOp(slot * SLOT_BYTES, SLOT_BYTES), erase);
    if erase.Done? { SpliceSlots(cells, slot, Erased(SLOT_BYTES)); }
    if erase.Broken? && |erase.left| == SLOT_BYTES { SpliceSlots(cells, slot, erase.left); }
    if write.Done? { SpliceSlots(wiped, slot, image); }
    if write.Broken? && |write.left| == SLOT_BYTES { SpliceSlots(wiped, slot, write.left); }
  }

  lemma EditIsStep(d: Device, m: Memory, es: seq<ConfigEntry>)
    requires Consistent(d, m) && d.up && Shaped(es)
    ensures Possible(d, Edit(es)) && After(d, Edit(es)) == d.(entries := es) && Recall(d, m, Edit(es)) == m
  {
    hide Shaped;
  }

  /** The device after a commit: RAM follows if both operations succeeded. */
  ghost function CommitDevice(d: Device, cells: Bytes, erase: FlashAnswer, write: FlashAnswer): Device
    requires |cells| == 2 * SLOT_BYTES && WellFormed(d)
  {
    var after := Committed(d, cells, erase, write);
    if erase.Done? && write.Done? then DeviceOf(after, d.entries, Next(d.sequence), 1 - d.slot, d.up)
    else DeviceOf(after, d.entries, d.sequence, d.slot, d.up)
  }

  lemma CommitIsStep(d: Device, cells: Bytes, erase: FlashAnswer, write: FlashAnswer)
    requires |cells| == 2 * SLOT_BYTES && d.slots == [SlotOf(cells, 0), SlotOf(cells, 1)] && WellFormed(d)
    requires d.up && d.sequence != LAST && Tears(d, erase) && Tears(d, write)
    ensures var step := StepOf(d, cells, erase, write);
            && Possible(d, step) && After(d, step) == CommitDevice(d, cells, erase, write)
            && CommitDevice(d, cells, erase, write).slots == Put(d, Left(d, cells, erase, write)).slots
            && Torn(d, Left(d, cells, erase, write))
  {
    hide SlotOf, Committed, Torn, Image, Tears, Next;
    CommitTakesStep(d, cells, erase, write);
  }

  /** What is committed changes only if the commit succeeds. */
  lemma CommitRecalls(d: Device, m: Memory, cells: Bytes, erase: FlashAnswer, write: FlashAnswer)
    requires |cells| == 2 * SLOT_BYTES && WellFormed(d) && m.slot < 2
    ensures Recall(d, m, StepOf(d, cells, erase, write)).committed
              == if erase.Done? && write.Done? then TableOf(d.entries) else m.committed
  {
    hide Left, TableOf, Image, Stored, Shaped, Put, Committed;
    if erase.Done? && write.Done? { assert StepOf(d, cells, erase, write) == Commit; }
  }

  /** What a commit leaves in its slot, and the step it is. */
  ghost function Left(d: Device, cells: Bytes, erase: FlashAnswer, write: FlashAnswer): Bytes
    requires |cells| == 2 * SLOT_BYTES && WellFormed(d)
  {
    SlotOf(Committed(d, cells, erase, write), 1 - d.slot)
  }

  ghost function StepOf(d: Device, cells: Bytes, erase: FlashAnswer, write: FlashAnswer): Step
    requires |cells| == 2 * SLOT_BYTES && WellFormed(d)
  {
    if erase.Done? && write.Done? then Commit else Fail(Left(d, cells, erase, write))
  }

  /** A restart behind a commit, whatever became of it, is a `Cut`. */
  lemma CutIsStep(d: Device, m: Memory, cells: Bytes, erase: FlashAnswer, write: FlashAnswer, r: Reads)
    requires |cells| == 2 * SLOT_BYTES && d.slots == [SlotOf(cells, 0), SlotOf(cells, 1)]
    requires Consistent(d, m) && d.up && d.sequence != LAST && Tears(d, erase) && Tears(d, write) && NoneBlank(r)
    ensures var step := Cut(Left(d, cells, erase, write), r);
            && Possible(d, step) && After(d, step) == Reboot(CommitDevice(d, cells, erase, write), r)
            && Shaped(After(d, step).entries)
  {
    hide Left, CommitDevice, StepOf, Torn, Image, Tears, Next, Holds, Reboot, Started, SlotOf;
    CommitIsStep(d, cells, erase, write);
    var left := Left(d, cells, erase, write);
    StepKeeps(d, m, Cut(left, r));
    SameReboot(CommitDevice(d, cells, erase, write), Put(d, left), r);
  }

  lemma SameReboot(d: Device, e: Device, r: Reads)
    requires |d.slots| == 2 && d.slots == e.slots
    ensures Reboot(d, r) == Reboot(e, r)
  {}

  lemma ImageSize(d: Device)
    requires WellFormed(d)
    ensures |Image(d)| == SLOT_BYTES
  {
    ContentFits(d.entries, Next(d.sequence));
  }
}
