/** A node: storage, and the service that runs on it between one power-up and the next. */
module ConfigRun {
  import opened Uhal
  import opened Bytes8
  import opened EntryTable
  import opened ConfigImage
  import opened ConfigRecords
  import opened Config
  import ConfigCrash

  /** Every call is a step of the machine of `ConfigCrash`, so every sequence of calls is
      one of its runs. */
  class ConfigNode {
    const storage: Storage
    var service: ConfigService
    var up: bool
    ghost var start: ConfigCrash.World
    ghost var steps: seq<ConfigCrash.Step>

    ghost function Device(): ConfigCrash.Device
      requires |storage.cells| == 2 * SLOT_BYTES
      reads this, storage, service, service.records
    {
      ConfigCrash.DeviceOf(storage.cells, service.Entries(), service.sequence, service.activeSlot, up)
    }

    ghost predicate Valid()
      reads this, storage, service, service.records
    {
      && service.storage == storage && service.Valid() && service.Sound()
      && ConfigCrash.Settled(start) && Now().Some? && Now().value.device == Device()
    }

    ghost function Now(): Option<ConfigCrash.World>
      reads this
    {
      ConfigCrash.Run(start, steps)
    }

    ghost function Memory(): ConfigCrash.Memory
      requires Now().Some?
      reads this
    {
      Now().value.memory
    }

    /** Power comes on over storage that holds what `m` remembers. */
    constructor (storage: Storage, ghost m: ConfigCrash.Memory)
      requires |storage.cells| == 2 * SLOT_BYTES
      requires ConfigCrash.Holds([SlotOf(storage.cells, 0), SlotOf(storage.cells, 1)], m)
      ensures Valid() && this.storage == storage && !up && Memory() == m && steps == []
      ensures fresh(service) && fresh(service.records) && fresh(service.scratch)
    {
      this.storage := storage;
      service := new ConfigService(storage);
      up := false;
      start := ConfigCrash.World(ConfigCrash.Off([SlotOf(storage.cells, 0), SlotOf(storage.cells, 1)]), m);
      steps := [];
      new;
      ConfigCrash.NothingIsShaped();
      hide SlotOf, TableOf;
    }

    lemma AtRun()
      requires Valid()
      ensures ConfigCrash.Consistent(Device(), Memory())
    {
      ConfigCrash.RunKeeps(start, steps);
    }

    lemma ShapedNow()
      requires service.Valid() && service.Sound() && service.storage == storage
      ensures ConfigCrash.Shaped(service.Entries())
    {
      hide Buffers, View, GoodEntry, Distinct;
      forall i | 0 <= i < RECORD_CAPACITY ensures GoodEntry(service.Entries()[i]) {
        assert GoodRecord(service.records[i]);
      }
    }

    /** One step more, once the service has taken it. */
    ghost method Record(v: ConfigCrash.World, step: ConfigCrash.Step)
      requires service.storage == storage && service.Valid() && service.Sound() && ConfigCrash.Settled(start)
      requires Now() == Some(v) && ConfigCrash.Settled(v) && ConfigCrash.Possible(v.device, step)
      requires Device() == ConfigCrash.After(v.device, step)
      modifies this`steps
      ensures Valid() && steps == old(steps) + [step] && Memory() == ConfigCrash.Recall(v.device, v.memory, step)
    {
      hide ConfigCrash.Run, ConfigCrash.Recall, ConfigCrash.After, ConfigCrash.Holds, ConfigCrash.Possible, Distinct;
      ConfigCrash.RunMore(start, steps, v, step);
      steps := steps + [step];
    }

    /** A new service is started over the same storage. */
    method StartService(answers: ConfigCrash.Reads) returns (status: Status)
      requires |storage.cells| == 2 * SLOT_BYTES && service.storage == storage && service.Valid()
      requires ConfigCrash.Shaped(ConfigCrash.Reboot(Device(), answers).entries)
      modifies this`service, this`up
      ensures service.storage == storage && service.Valid() && service.Sound()
      ensures fresh(service) && fresh(service.records) && fresh(service.scratch)
      ensures up == status.Ok? && Device() == ConfigCrash.Reboot(old(Device()), answers)
    {
      hide SlotOf, Decoded, TableOf, Buffers, View, Distinct;
      service := new ConfigService(storage);
      status := service.Initialize(answers.first, answers.second);
      up := status.Ok?;
    }

    method Restart(answers: ConfigCrash.Reads) returns (status: Status)
      requires Valid() && ConfigCrash.NoneBlank(answers)
      modifies this
      ensures Valid() && start == old(start) && steps == old(steps) + [ConfigCrash.Restart(answers)]
      ensures fresh(service) && fresh(service.records) && fresh(service.scratch)
      ensures up == status.Ok? && (answers == ConfigCrash.BOTH_READ ==> up)
      ensures var m := old(Memory());
              && (up ==> Some(service.Table()) in {Some(m.committed), m.attempted, m.previous})
              && (up && ConfigCrash.Answer(answers, m.slot).Ok? ==> Some(service.Table()) in {Some(m.committed), m.attempted})
    {
      AtRun();
      ghost var v := ConfigCrash.World(Device(), Memory());
      ConfigCrash.RestartRestores(v.device, v.memory, answers);
      hide Decoded, TableOf, ConfigCrash.Run, ConfigCrash.Started, ConfigCrash.Reboot, ConfigCrash.Holds, Distinct;
      status := StartService(answers);
      Record(v, ConfigCrash.Restart(answers));
    }

    method Set(key: Option<Bytes>, value: Option<Bytes>) returns (status: Status)
      requires Valid() && up && (key.Some? ==> 0 !in key.value)
      modifies this`steps, service.records
      ensures Valid() && start == old(start) && steps == old(steps) + [ConfigCrash.Edit(service.Entries())]
      ensures status.InvalidArgument? <==>
                key.None? || key.value == [] || |key.value| >= KEY_CAPACITY || value.None? || |value.value| > VALUE_CAPACITY
      ensures status.NoResources? <==>
                !status.InvalidArgument? && key.value !in old(service.Table()) && |old(service.Table())| == RECORD_CAPACITY
      ensures status.Ok? || status.InvalidArgument? || status.NoResources?
      ensures service.Table() == if status.Ok? then old(service.Table())[key.value := value.value] else old(service.Table())
      ensures Memory() == old(Memory())
    {
      AtRun();
      ghost var v := ConfigCrash.World(Device(), Memory());
      hide TableOf, SlotOf, ConfigCrash.Run, ConfigCrash.Holds, ConfigCrash.Shaped, ConfigService.Sound;
      hide ConfigCrash.After, ConfigCrash.Recall, ConfigCrash.Possible;
      status := service.SetBlob(key, value);
      ShapedNow();
      ConfigCrash.EditIsStep(v.device, v.memory, service.Entries());
      Record(v, ConfigCrash.Edit(service.Entries()));
    }

    method Remove(key: Option<Bytes>) returns (status: Status)
      requires Valid() && up && (key.Some? ==> 0 !in key.value)
      modifies this`steps, service.records
      ensures Valid() && start == old(start) && steps == old(steps) + [ConfigCrash.Edit(service.Entries())]
      ensures status == if key.Some? && key.value in old(service.Table()) then Ok else NotFound
      ensures service.Table() == if status.Ok? then old(service.Table()) - {key.value} else old(service.Table())
      ensures Memory() == old(Memory())
    {
      AtRun();
      ghost var v := ConfigCrash.World(Device(), Memory());
      hide TableOf, SlotOf, ConfigCrash.Run, ConfigCrash.Holds, ConfigCrash.Shaped, ConfigService.Sound;
      hide ConfigCrash.After, ConfigCrash.Recall, ConfigCrash.Possible;
      status := service.Erase(key);
      ShapedNow();
      ConfigCrash.EditIsStep(v.device, v.memory, service.Entries());
      Record(v, ConfigCrash.Edit(service.Entries()));
    }

    /** What a failing storage operation leaves is as `ConfigCrash` allows. */
    ghost predicate Answers(erase: FlashAnswer, write: FlashAnswer)
      requires Valid()
      reads this, storage, service, service.records
    {
      AtRun();
      && ConfigCrash.Tears(Device(), erase) && ConfigCrash.Tears(Device(), write)
      && (erase.Broken? ==> !erase.status.Ok?) && (write.Broken? ==> !write.status.Ok?)
    }

    /** What the commit leaves in its slot, and the step it is. */
    ghost function Leaves(erase: FlashAnswer, write: FlashAnswer): Bytes
      requires Valid()
      reads this, storage, service, service.records
    {
      AtRun();
      ConfigCrash.Left(Device(), storage.cells, erase, write)
    }

    ghost function CommitStep(erase: FlashAnswer, write: FlashAnswer): ConfigCrash.Step
      requires Valid()
      reads this, storage, service, service.records
    {
      AtRun();
      ConfigCrash.StepOf(Device(), storage.cells, erase, write)
    }

    lemma CommitFacts(erase: FlashAnswer, write: FlashAnswer)
      requires Valid() && up && Answers(erase, write) && service.sequence != ConfigCrash.LAST
      ensures var (d, m, step) := (Device(), Memory(), CommitStep(erase, write));
              && ConfigCrash.Consistent(d, m) && ConfigCrash.Possible(d, step)
              && ConfigCrash.After(d, step) == ConfigCrash.CommitDevice(d, storage.cells, erase, write)
              && ConfigCrash.Recall(d, m, step).committed
                   == (if erase.Done? && write.Done? then service.Table() else m.committed)
      ensures (erase.Broken? ==> !erase.status.Ok?) && (write.Broken? ==> !write.status.Ok?)
    {
      hide ConfigCrash.Possible, ConfigCrash.After, ConfigCrash.CommitDevice, ConfigCrash.Recall, SlotOf, TableOf;
      hide ConfigCrash.Holds, ConfigCrash.Run, ConfigService.Sound, ConfigCrash.StepOf, ConfigCrash.Tears, ConfigCrash.Shaped;
      AtRun();
      ConfigCrash.CommitIsStep(Device(), storage.cells, erase, write);
      ConfigCrash.CommitRecalls(Device(), Memory(), storage.cells, erase, write);
    }

    lemma CutFacts(erase: FlashAnswer, write: FlashAnswer, answers: ConfigCrash.Reads)
      requires Valid() && up && Answers(erase, write) && service.sequence != ConfigCrash.LAST
      requires ConfigCrash.NoneBlank(answers)
      ensures var (d, m, step) := (Device(), Memory(), ConfigCrash.Cut(Leaves(erase, write), answers));
              && ConfigCrash.Consistent(d, m) && ConfigCrash.Possible(d, step)
              && ConfigCrash.After(d, step) == ConfigCrash.Reboot(ConfigCrash.CommitDevice(d, storage.cells, erase, write), answers)
              && ConfigCrash.Shaped(ConfigCrash.After(d, step).entries)
              && (answers == ConfigCrash.BOTH_READ && m.attempted.None? ==>
                    var e := ConfigCrash.After(d, step);
                    e.up && TableOf(e.entries) == if Leaves(erase, write) == ConfigCrash.Image(d) then service.Table() else m.committed)
      ensures (erase.Broken? ==> !erase.status.Ok?) && (write.Broken? ==> !write.status.Ok?)
    {
      hide ConfigCrash.Possible, ConfigCrash.After, ConfigCrash.CommitDevice, ConfigCrash.Image, SlotOf, TableOf;
      hide ConfigCrash.Holds, ConfigCrash.Run, ConfigService.Sound, ConfigCrash.Left, ConfigCrash.Shaped, ConfigCrash.Reboot;
      hide ConfigCrash.Tears;
      AtRun();
      ConfigCrash.CutIsStep(Device(), Memory(), storage.cells, erase, write, answers);
      if answers == ConfigCrash.BOTH_READ && Memory().attempted.None? {
        ConfigCrash.CutIsAtomic(Device(), Memory(), Leaves(erase, write));
      }
    }

    /** The service's commit, as far as storage and the numbers in RAM are concerned. */
    method WriteCells(erase: FlashAnswer, write: FlashAnswer) returns (status: Status)
      requires service.storage == storage && service.Valid() && service.Sound() && ConfigCrash.WellFormed(Device())
      requires (erase.Broken? ==> !erase.status.Ok?) && (write.Broken? ==> !write.status.Ok?)
      modifies service, storage, service.scratch
      ensures service.Valid() && service.Sound() && service.Entries() == old(service.Entries())
      ensures storage.cells == old(ConfigCrash.Committed(Device(), storage.cells, erase, write))
      ensures status.Ok? <==> erase.Done? && write.Done?
      ensures service.activeSlot == if status.Ok? then 1 - old(service.activeSlot) else old(service.activeSlot)
      ensures service.sequence == if status.Ok? then ConfigCrash.Next(old(service.sequence)) else old(service.sequence)
    {
      hide TableOf, Distinct, SlotOf, Content, ImageOf, After;
      status := service.Commit(erase, write);
    }

    method WriteBack(erase: FlashAnswer, write: FlashAnswer) returns (status: Status)
      requires service.storage == storage && service.Valid() && service.Sound() && ConfigCrash.WellFormed(Device())
      requires (erase.Broken? ==> !erase.status.Ok?) && (write.Broken? ==> !write.status.Ok?)
      modifies service, storage, service.scratch
      ensures service.Valid() && service.Sound() && service.storage == storage
      ensures status.Ok? <==> erase.Done? && write.Done?
      ensures Device() == old(ConfigCrash.CommitDevice(Device(), storage.cells, erase, write))
    {
      hide ConfigCrash.Committed, ConfigCrash.Next, ConfigCrash.Shaped, ConfigService.Sound, SlotOf;
      status := WriteCells(erase, write);
    }

    method PowerCycle(erase: FlashAnswer, write: FlashAnswer, answers: ConfigCrash.Reads) returns (status: Status)
      requires service.storage == storage && service.Valid() && service.Sound() && ConfigCrash.WellFormed(Device())
      requires (erase.Broken? ==> !erase.status.Ok?) && (write.Broken? ==> !write.status.Ok?)
      requires ConfigCrash.Shaped(
                 ConfigCrash.Reboot(ConfigCrash.CommitDevice(Device(), storage.cells, erase, write), answers).entries)
      modifies this`service, this`up, service, storage, service.scratch
      ensures service.Valid() && service.Sound() && service.storage == storage
      ensures fresh(service) && fresh(service.records) && fresh(service.scratch)
      ensures up == status.Ok?
      ensures Device() == ConfigCrash.Reboot(old(ConfigCrash.CommitDevice(Device(), storage.cells, erase, write)), answers)
    {
      hide ConfigCrash.CommitDevice, ConfigCrash.Reboot, ConfigCrash.Shaped, ConfigService.Sound, SlotOf, ConfigCrash.DeviceOf;
      var done := WriteBack(erase, write);
      status := StartService(answers);
    }

    method Commit(erase: FlashAnswer, write: FlashAnswer) returns (status: Status)
      requires Valid() && up && Answers(erase, write) && service.sequence != ConfigCrash.LAST
      modifies this`steps, service, storage, service.scratch
      ensures Valid() && start == old(start) && steps == old(steps) + [old(CommitStep(erase, write))]
      ensures status.Ok? <==> erase.Done? && write.Done?
      ensures Memory().committed == if status.Ok? then service.Table() else old(Memory()).committed
    {
      hide CommitStep, Leaves, Answers, ConfigCrash.CommitDevice, ConfigCrash.After, ConfigCrash.Shaped, ConfigCrash.Recall;
      hide ConfigCrash.Run, ConfigCrash.Holds, ConfigCrash.Possible, ConfigService.Sound, TableOf, SlotOf;
      CommitFacts(erase, write);
      ghost var v := ConfigCrash.World(Device(), Memory());
      ghost var step := CommitStep(erase, write);
      status := WriteBack(erase, write);
      Record(v, step);
    }

    /** Power is lost while a commit is at work, or right behind it, and comes back. */
    method Cut(erase: FlashAnswer, write: FlashAnswer, answers: ConfigCrash.Reads) returns (status: Status)
      requires Valid() && up && Answers(erase, write) && service.sequence != ConfigCrash.LAST
      requires ConfigCrash.NoneBlank(answers)
      modifies this, service, storage, service.scratch
      ensures Valid() && start == old(start)
      ensures steps == old(steps) + [ConfigCrash.Cut(old(Leaves(erase, write)), answers)]
      ensures fresh(service) && fresh(service.records) && fresh(service.scratch)
      ensures up == status.Ok?
      ensures answers == ConfigCrash.BOTH_READ && old(Memory()).attempted.None? ==>
                up && service.Table() == if old(Leaves(erase, write)) == old(ConfigCrash.Image(Device()))
                                         then old(service.Table()) else old(Memory()).committed
    {
      hide Leaves, Answers, ConfigCrash.CommitDevice, ConfigCrash.Reboot, ConfigCrash.After, ConfigCrash.Shaped;
      hide ConfigCrash.Run, ConfigCrash.Holds, ConfigCrash.Possible, ConfigCrash.Image, ConfigService.Sound, TableOf, SlotOf;
      CutFacts(erase, write, answers);
      ghost var v := ConfigCrash.World(Device(), Memory());
      ghost var step := ConfigCrash.Cut(Leaves(erase, write), answers);
      status := PowerCycle(erase, write, answers);
      Record(v, step);
    }
  }
}
