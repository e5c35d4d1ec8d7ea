/** The over-the-air update machine: what it may activate, and that downloads make progress. */
module Ota {
  import opened Uhal
  import opened Bytes8

  const CHUNK_BYTES := 1024
  const DIGEST_BYTES := 32

  /** What the digest buffers hold. */
  type Digest = d: Bytes | |d| == DIGEST_BYTES witness seq(DIGEST_BYTES, _ => 0)

  datatype Manifest = Manifest(sizeBytes: nat, digest: Digest, signature: Bytes, keyId: Byte)

  /** Everything that happens at the five ports, and every offer that reaches them. */
  datatype Call =
    | Offer(manifest: Manifest)
    | StoreBegin(size: nat, status: Status)
    | StoreWrite(offset: nat, data: Bytes, status: Status)
    | StoreFinish(status: Status)
    | StoreAbort
    | DigestBegin(status: Status)
    | DigestUpdate(data: Bytes, status: Status)
    | DigestFinish(digest: Digest, status: Status)
    | FetchPoll(now: nat)
    | FetchRequest(offset: nat, size: nat, status: Status)
    | FetchTake(data: Bytes, status: Status)
    | Verify(digest: Digest, signature: Bytes, keyId: Byte, status: Status)
    | Activate(status: Status)

  // ---- what an onlooker at the ports knows ----------------------------------------------

  /** What was staged since the store was last opened, as the ports saw it. */
  datatype Staged = Staged(
    offered: Option<Manifest>,
    open: Option<nat>,          // the announced size, unless the store was aborted since
    written: Bytes,             // the bytes written, if they were contiguous from offset 0
    inOrder: bool,              // no write failed or left a gap
    hashing: bool,              // the digest was started after the store was opened
    hashed: Bytes,              // the bytes fed to it since
    digest: Option<Digest>,     // its result, if nothing was fed since
    accepted: Option<(Digest, Bytes, Byte)>,  // what the verifier last accepted
    finished: bool)             // the store was finished and not written since

  const NOTHING := Staged(None, None, [], true, false, [], None, None, false)

  function Seen(s: Staged, c: Call): Staged {
    match c
    case Offer(m) => s.(offered := Some(m))
    case StoreBegin(size, status) =>
      NOTHING.(offered := s.offered, open := if status.Ok? then Some(size) else None)
    case StoreWrite(offset, data, status) =>
      s.(written := s.written + data, inOrder := s.inOrder && status.Ok? && offset == |s.written|,
         finished := false)
    case StoreFinish(status) => s.(finished := status.Ok?)
    case StoreAbort => NOTHING.(offered := s.offered)
    case DigestBegin(status) => s.(hashing := status.Ok?, hashed := [], digest := None, accepted := None)
    case DigestUpdate(data, status) =>
      s.(hashed := s.hashed + data, hashing := s.hashing && status.Ok?, digest := None, accepted := None)
    case DigestFinish(digest, status) => s.(digest := if status.Ok? then Some(digest) else None)
    case FetchPoll(_) => s
    case FetchRequest(_, _, _) => s
    case FetchTake(_, _) => s
    case Verify(digest, signature, keyId, status) =>
      s.(accepted := if status.Ok? then Some((digest, signature, keyId)) else None)
    case Activate(_) => NOTHING
  }

  function StagedAfter(log: seq<Call>): Staged {
    if log == [] then NOTHING else Seen(StagedAfter(log[..|log| - 1]), log[|log| - 1])
  }

  /** The staged image is the one last offered: complete, in order, hashed as written,
      with the promised digest, signed, and finished. */
  predicate Justified(s: Staged) {
    && s.offered.Some?
    && var m := s.offered.value;
    && s.open == Some(m.sizeBytes) && s.inOrder && |s.written| == m.sizeBytes
    && s.hashing && s.hashed == s.written
    && s.digest == Some(m.digest)
    && s.accepted == Some((m.digest, m.signature, m.keyId))
    && s.finished
  }

  /** Nothing is ever activated without justification, nor twice for one download. */
  ghost predicate Safe(log: seq<Call>) {
    forall i :: 0 <= i < |log| && log[i].Activate? ==> Justified(StagedAfter(log[..i]))
  }

  lemma Extended(log: seq<Call>, c: Call)
    ensures StagedAfter(log + [c]) == Seen(StagedAfter(log), c)
    ensures Safe(log) && (c.Activate? ==> Justified(StagedAfter(log))) ==> Safe(log + [c])
  {
    assert (log + [c])[..|log|] == log;
    if Safe(log) && (c.Activate? ==> Justified(StagedAfter(log))) {
      forall i | 0 <= i < |log + [c]| && (log + [c])[i].Activate?
        ensures Justified(StagedAfter((log + [c])[..i]))
      {
        if i < |log| { assert (log + [c])[..i] == log[..i]; }
      }
    }
  }

  // ---- the size test ------------------------------------------------------------------

  /** The largest image the 32-bit size test is right for. */
  const LARGEST_IMAGE := WRAP32 - CHUNK_BYTES

  /** `received + size > size_bytes`, the sum being 32 bits wide. */
  predicate TooMuch(received: nat, size: nat, total: nat) { (received + size) % WRAP32 > total }

  /** The test refuses exactly the chunks that would overrun the image if and only if the
      image leaves room for one chunk below 2^32. */
  lemma SizeTestIsExact(total: nat)
    requires 0 < total < WRAP32
    ensures (forall received: nat, size: nat :: received < total && size <= CHUNK_BYTES ==>
               (TooMuch(received, size, total) <==> received + size > total))
            <==> total <= LARGEST_IMAGE
  {
    if total > LARGEST_IMAGE {
      var received: nat := total - 1;
      assert (received + CHUNK_BYTES) % WRAP32 == received + CHUNK_BYTES - WRAP32;
      assert !TooMuch(received, CHUNK_BYTES, total);
    }
  }

  // ---- the machine as a function of its state and of what the ports answered ---------------

  datatype OtaState = Idle | Downloading | Verifying | ReadyToActivate | Activating | Failed | RolledBack

  datatype Machine = Machine(state: OtaState, manifest: Manifest, received: nat, requested: bool)

  /** The answers of the ports during one call; what is not asked is not used. */
  datatype Answers = Answers(
    storeBegin: Status, digestBegin: Status,
    request: Status, take: Status, data: Bytes,
    write: Status, update: Status,
    hashed: Status, digest: Digest, verify: Status, storeFinish: Status,
    activate: Status)

  function Fail(m: Machine, log: seq<Call>): (Machine, seq<Call>) {
    (m.(state := Failed, requested := false), log + [StoreAbort])
  }

  function OfferStep(m: Machine, log: seq<Call>, manifest: Manifest, a: Answers): (Status, Machine, seq<Call>) {
    if !m.state.Idle? || manifest.sizeBytes == 0 then (InvalidArgument, m, log)
    else
      var log1 := log + [Offer(manifest)] + [StoreBegin(manifest.sizeBytes, a.storeBegin)];
      if !a.storeBegin.Ok? then (IoError, Fail(m, log1).0, Fail(m, log1).1)
      else
        var log2 := log1 + [DigestBegin(a.digestBegin)];
        if !a.digestBegin.Ok? then (IoError, Fail(m, log2).0, Fail(m, log2).1)
        else (Ok, Machine(Downloading, manifest, 0, false), log2)
  }

  function RequestStep(m: Machine, log: seq<Call>, a: Answers): (Machine, seq<Call>) {
    var remaining := m.manifest.sizeBytes - m.received;
    var wanted := if remaining < CHUNK_BYTES then (if remaining >= 0 then remaining else 0) else CHUNK_BYTES;
    var log1 := log + [FetchRequest(m.received, wanted, a.request)];
    if a.request.Ok? || a.request.Busy? then (m.(requested := true), log1) else Fail(m, log1)
  }

  function TakeStep(m: Machine, log: seq<Call>, a: Answers): (Machine, seq<Call>) {
    var log1 := log + [FetchTake(a.data, a.take)];
    if a.take.Busy? then (m, log1)
    else if !a.take.Ok? || a.data == [] || TooMuch(m.received, |a.data|, m.manifest.sizeBytes) then Fail(m, log1)
    else
      var log2 := log1 + [StoreWrite(m.received, a.data, a.write)];
      if !a.write.Ok? then Fail(m, log2)
      else
        var log3 := log2 + [DigestUpdate(a.data, a.update)];
        if !a.update.Ok? then Fail(m, log3)
        else
          var m1 := m.(received := (m.received + |a.data|) % WRAP32, requested := false);
          if m1.received != m.manifest.sizeBytes then (m1, log3) else FinishStep(m1.(state := Verifying), log3, a)
  }

  function FinishStep(m: Machine, log: seq<Call>, a: Answers): (Machine, seq<Call>) {
    var log1 := log + [DigestFinish(a.digest, a.hashed)];
    if !a.hashed.Ok? || a.digest != m.manifest.digest then Fail(m, log1)
    else
      var log2 := log1 + [Verify(a.digest, m.manifest.signature, m.manifest.keyId, a.verify)];
      if !a.verify.Ok? then Fail(m, log2)
      else
        var log3 := log2 + [StoreFinish(a.storeFinish)];
        if !a.storeFinish.Ok? then Fail(m, log3) else (m.(state := ReadyToActivate), log3)
  }

  function PollStep(m: Machine, log: seq<Call>, now: nat, a: Answers): (Machine, seq<Call>) {
    if !m.state.Downloading? then (m, log)
    else if !m.requested then RequestStep(m, log + [FetchPoll(now)], a)
    else TakeStep(m, log + [FetchPoll(now)], a)
  }

  function ActivateStep(m: Machine, log: seq<Call>, a: Answers): (Status, Machine, seq<Call>) {
    if !m.state.ReadyToActivate? then (NotReady, m, log)
    else
      var (m1, log1) := (m.(state := Activating), log + [Activate(a.activate)]);
      if a.activate.Ok? then (Ok, m1, log1) else (a.activate, Fail(m1, log1).0, Fail(m1, log1).1)
  }

  function CancelStep(m: Machine, log: seq<Call>): (Machine, seq<Call>) {
    (m.(state := Idle, received := 0, requested := false), log + [StoreAbort])
  }

  // ---- what every step keeps ------------------------------------------------------------

  /** The machine's own bookkeeping agrees with what the ports saw. */
  predicate Linked(m: Machine, s: Staged) {
    match m.state
    case Downloading =>
      && s.offered == Some(m.manifest) && s.open == Some(m.manifest.sizeBytes) && s.inOrder
      && |s.written| == m.received < m.manifest.sizeBytes <= LARGEST_IMAGE
      && s.hashing && s.hashed == s.written
    case ReadyToActivate => Justified(s)
    case Verifying => false
    case RolledBack => false
    case _ => true
  }

  ghost predicate Inv(m: Machine, log: seq<Call>) { Safe(log) && Linked(m, StagedAfter(log)) }

  /** The contracts of the store and the fetcher: no partition can take an image beyond
      the size test's range, and a taken chunk fits the buffer. */
  predicate PortsBehave(manifest: Manifest, a: Answers) {
    && (a.storeBegin.Ok? ==> manifest.sizeBytes <= LARGEST_IMAGE)
    && |a.data| <= CHUNK_BYTES
  }

  lemma FailKeeps(m: Machine, log: seq<Call>)
    requires Safe(log)
    ensures Inv(Fail(m, log).0, Fail(m, log).1)
  {
    Extended(log, StoreAbort);
  }

  lemma OfferKeeps(m: Machine, log: seq<Call>, manifest: Manifest, a: Answers)
    requires Inv(m, log) && PortsBehave(manifest, a)
    ensures var (_, m1, log1) := OfferStep(m, log, manifest, a); Inv(m1, log1)
  {
    hide Safe, StagedAfter, Justified;
    if m.state.Idle? && manifest.sizeBytes > 0 {
      Extended(log, Offer(manifest));
      var log0 := log + [Offer(manifest)];
      Extended(log0, StoreBegin(manifest.sizeBytes, a.storeBegin));
      var log1 := log0 + [StoreBegin(manifest.sizeBytes, a.storeBegin)];
      Extended(log1, DigestBegin(a.digestBegin));
      FailKeeps(m, log1);
      FailKeeps(m, log1 + [DigestBegin(a.digestBegin)]);
    }
  }

  lemma FinishKeeps(m: Machine, log: seq<Call>, a: Answers)
    requires Safe(log) && m.state.Verifying?
    requires var s := StagedAfter(log);
             && s.offered == Some(m.manifest) && s.open == Some(m.manifest.sizeBytes) && s.inOrder
             && |s.written| == m.manifest.sizeBytes && s.hashing && s.hashed == s.written
    ensures var (m1, log1) := FinishStep(m, log, a); Inv(m1, log1)
  {
    hide Safe, StagedAfter;
    var log1 := log + [DigestFinish(a.digest, a.hashed)];
    Extended(log, DigestFinish(a.digest, a.hashed));
    FailKeeps(m, log1);
    var verify := Verify(a.digest, m.manifest.signature, m.manifest.keyId, a.verify);
    Extended(log1, verify);
    FailKeeps(m, log1 + [verify]);
    Extended(log1 + [verify], StoreFinish(a.storeFinish));
    FailKeeps(m, log1 + [verify] + [StoreFinish(a.storeFinish)]);
  }

  lemma TakeKeeps(m: Machine, log: seq<Call>, a: Answers)
    requires Inv(m, log) && m.state.Downloading? && |a.data| <= CHUNK_BYTES
    ensures var (m1, log1) := TakeStep(m, log, a); Inv(m1, log1)
  {
    hide Safe, StagedAfter, Justified, FinishStep;
    var log1 := log + [FetchTake(a.data, a.take)];
    Extended(log, FetchTake(a.data, a.take));
    FailKeeps(m, log1);
    var log2 := log1 + [StoreWrite(m.received, a.data, a.write)];
    Extended(log1, StoreWrite(m.received, a.data, a.write));
    FailKeeps(m, log2);
    var log3 := log2 + [DigestUpdate(a.data, a.update)];
    Extended(log2, DigestUpdate(a.data, a.update));
    FailKeeps(m, log3);
    if !TooMuch(m.received, |a.data|, m.manifest.sizeBytes) && a.write.Ok? && a.update.Ok? {
      var m1 := m.(received := m.received + |a.data|, requested := false);
      if m1.received == m.manifest.sizeBytes {
        FinishKeeps(m1.(state := Verifying), log3, a);
      }
    }
  }

  lemma PollKeeps(m: Machine, log: seq<Call>, now: nat, a: Answers)
    requires Inv(m, log) && |a.data| <= CHUNK_BYTES
    ensures var (m1, log1) := PollStep(m, log, now, a); Inv(m1, log1)
  {
    hide Safe, StagedAfter, Justified, TakeStep;
    if m.state.Downloading? {
      var log0 := log + [FetchPoll(now)];
      Extended(log, FetchPoll(now));
      if m.requested {
        TakeKeeps(m, log0, a);
      } else {
        var remaining := m.manifest.sizeBytes - m.received;
        var wanted := if remaining < CHUNK_BYTES then remaining else CHUNK_BYTES;
        Extended(log0, FetchRequest(m.received, wanted, a.request));
        FailKeeps(m, log0 + [FetchRequest(m.received, wanted, a.request)]);
      }
    }
  }

  lemma ActivateKeeps(m: Machine, log: seq<Call>, a: Answers)
    requires Inv(m, log)
    ensures var (_, m1, log1) := ActivateStep(m, log, a); Inv(m1, log1)
  {
    hide Safe, StagedAfter, Justified;
    if m.state.ReadyToActivate? {
      Extended(log, Activate(a.activate));
      FailKeeps(m.(state := Activating), log + [Activate(a.activate)]);
    }
  }

  // ---- whole runs -------------------------------------------------------------------------

  datatype Event =
    | OfferCall(manifest: Manifest, answers: Answers)
    | PollCall(now: nat, answers: Answers)
    | ActivateCall(answers: Answers)
    | CancelCall

  function Start(): Machine { Machine(Idle, Manifest(0, seq(DIGEST_BYTES, _ => 0), [], 0), 0, false) }

  function Step(m: Machine, log: seq<Call>, e: Event): (Machine, seq<Call>) {
    match e
    case OfferCall(manifest, a) => var (_, m1, log1) := OfferStep(m, log, manifest, a); (m1, log1)
    case PollCall(now, a) => PollStep(m, log, now, a)
    case ActivateCall(a) => var (_, m1, log1) := ActivateStep(m, log, a); (m1, log1)
    case CancelCall => CancelStep(m, log)
  }

  function Run(events: seq<Event>): (Machine, seq<Call>) {
    if events == [] then (Start(), [])
    else
      var (m, log) := Run(events[..|events| - 1]);
      Step(m, log, events[|events| - 1])
  }

  predicate Behaved(e: Event) {
    match e
    case OfferCall(manifest, a) => PortsBehave(manifest, a)
    case PollCall(_, a) => |a.data| <= CHUNK_BYTES
    case _ => true
  }

  /** In no run is anything activated but the image last offered, complete, unaltered,
      matching its manifest, signed and finished. */
  lemma {:induction false} RunIsSafe(events: seq<Event>)
    requires forall i :: 0 <= i < |events| ==> Behaved(events[i])
    ensures Inv(Run(events).0, Run(events).1)
  {
    if events == [] {
    } else {
      var (m, log) := Run(events[..|events| - 1]);
      RunIsSafe(events[..|events| - 1]);
      hide Inv, OfferStep, PollStep, ActivateStep;
      match events[|events| - 1] {
        case OfferCall(manifest, a) => OfferKeeps(m, log, manifest, a);
        case PollCall(now, a) => PollKeeps(m, log, now, a);
        case ActivateCall(a) => ActivateKeeps(m, log, a);
        case CancelCall => CancelKeeps(m, log);
      }
    }
  }

  lemma CancelKeeps(m: Machine, log: seq<Call>)
    requires Inv(m, log)
    ensures Inv(CancelStep(m, log).0, CancelStep(m, log).1)
  {
    Extended(log, StoreAbort);
  }

  // ---- progress ---------------------------------------------------------------------------

  function Measure(m: Machine): int {
    2 * (m.manifest.sizeBytes - m.received) + if m.requested then 0 else 1
  }

  /** Every poll of a download that is not kept waiting brings it closer to its end. */
  lemma PollProgresses(m: Machine, log: seq<Call>, now: nat, a: Answers)
    requires Linked(m, StagedAfter(log)) && m.state.Downloading? && |a.data| <= CHUNK_BYTES
    ensures var m1 := PollStep(m, log, now, a).0;
            && 0 < Measure(m)
            && (m.requested && a.take.Busy? ==> m1 == m)
            && (m1.state.Downloading? && !(m.requested && a.take.Busy?) ==> 0 < Measure(m1) < Measure(m))
  {}

  /** The answers of a fetcher that delivers `image`, and of ports that accept it. */
  function Honest(m: Machine, image: Bytes): Answers
    requires m.received <= |image|
  {
    var end := if |image| - m.received < CHUNK_BYTES then |image| else m.received + CHUNK_BYTES;
    Answers(Ok, Ok, Ok, Ok, image[m.received..end], Ok, Ok, Ok, m.manifest.digest, Ok, Ok, Ok)
  }

  function Polls(m: Machine, log: seq<Call>, image: Bytes, n: nat): (Machine, seq<Call>)
    decreases n
  {
    if n == 0 || !m.state.Downloading? || m.received > |image| then (m, log)
    else
      var (m1, log1) := PollStep(m, log, 0, Honest(m, image));
      Polls(m1, log1, image, n - 1)
  }

  /** The bytes written so far are the beginning of the image. */
  ghost predicate Delivering(m: Machine, log: seq<Call>, image: Bytes) {
    && m.state.Downloading? && |image| == m.manifest.sizeBytes
    && m.received <= |image| && StagedAfter(log).written == image[..m.received]
  }

  /** One poll under honest answers: closer to the end, or done. */
  lemma HonestPoll(m: Machine, log: seq<Call>, image: Bytes)
    requires Inv(m, log) && Delivering(m, log, image)
    ensures var (m1, log1) := PollStep(m, log, 0, Honest(m, image));
            && Inv(m1, log1)
            && (Delivering(m1, log1, image) || (m1.state.ReadyToActivate? && StagedAfter(log1).written == image))
  {
    var a := Honest(m, image);
    PollKeeps(m, log, 0, a);
    var log0 := log + [FetchPoll(0)];
    Extended(log, FetchPoll(0));
    if m.requested {
      hide TakeStep, Inv, StagedAfter, Safe, Justified;
      HonestTake(m, log0, image);
    } else {
      hide TakeStep, StagedAfter, Safe, Justified;
      var wanted := if |image| - m.received < CHUNK_BYTES then |image| - m.received else CHUNK_BYTES;
      Extended(log0, FetchRequest(m.received, wanted, a.request));
    }
  }

  lemma WrittenSoFar(m: Machine, image: Bytes)
    requires m.received <= |image|
    ensures var a := Honest(m, image);
            image[..m.received] + a.data == image[..m.received + |a.data|] && image[..|image|] == image
  {}

  /** The log after a chunk has been taken, written and hashed. */
  function Chunked(m: Machine, log: seq<Call>, a: Answers): seq<Call> {
    log + [FetchTake(a.data, a.take)] + [StoreWrite(m.received, a.data, a.write)] + [DigestUpdate(a.data, a.update)]
  }

  predicate GoodChunk(m: Machine, a: Answers) {
    && 0 < |a.data| && m.received + |a.data| < WRAP32 && !TooMuch(m.received, |a.data|, m.manifest.sizeBytes)
    && a.take.Ok? && a.write.Ok? && a.update.Ok?
  }

  lemma TakesChunk(m: Machine, log: seq<Call>, a: Answers)
    requires GoodChunk(m, a)
    ensures var m1 := m.(received := m.received + |a.data|, requested := false);
            TakeStep(m, log, a) ==
              if m1.received != m.manifest.sizeBytes then (m1, Chunked(m, log, a))
              else FinishStep(m1.(state := Verifying), Chunked(m, log, a), a)
  {
    hide FinishStep, TooMuch;
  }

  lemma HonestTake(m: Machine, log: seq<Call>, image: Bytes)
    requires Linked(m, StagedAfter(log)) && Delivering(m, log, image)
    ensures var (m1, log1) := TakeStep(m, log, Honest(m, image));
            Delivering(m1, log1, image) || (m1.state.ReadyToActivate? && StagedAfter(log1).written == image)
  {
    hide StagedAfter, FinishStep, Honest, Linked, TakeStep, Chunked, GoodChunk;
    var a := Honest(m, image);
    HonestChunk(m, log, image);
    HonestStaged(m, log, image);
    TakesChunk(m, log, a);
    if m.received + |a.data| == |image| {
      FinishWrites(m.(received := m.received + |a.data|, requested := false, state := Verifying), Chunked(m, log, a), a);
      assert image[..|image|] == image;
    }
  }

  /** What an honest fetcher delivers passes every test. */
  lemma HonestChunk(m: Machine, log: seq<Call>, image: Bytes)
    requires Linked(m, StagedAfter(log)) && Delivering(m, log, image)
    ensures var a := Honest(m, image);
            && GoodChunk(m, a) && m.received + |a.data| <= |image|
            && a.hashed.Ok? && a.digest == m.manifest.digest && a.verify.Ok? && a.storeFinish.Ok?
  {
    hide StagedAfter, Justified;
  }

  lemma HonestStaged(m: Machine, log: seq<Call>, image: Bytes)
    requires Delivering(m, log, image) && m.received + |Honest(m, image).data| <= |image|
    ensures StagedAfter(Chunked(m, log, Honest(m, image))).written == image[..m.received + |Honest(m, image).data|]
  {
    var a := Honest(m, image);
    WrittenSoFar(m, image);
    assert StagedAfter(log).written == image[..m.received];
    hide *;
    ChunkStaged(m, log, a);
  }

  lemma ChunkStaged(m: Machine, log: seq<Call>, a: Answers)
    ensures StagedAfter(Chunked(m, log, a)).written == StagedAfter(log).written + a.data
  {
    hide StagedAfter, Safe;
    var log1 := log + [FetchTake(a.data, a.take)];
    var log2 := log1 + [StoreWrite(m.received, a.data, a.write)];
    Extended(log, FetchTake(a.data, a.take));
    Extended(log1, StoreWrite(m.received, a.data, a.write));
    Extended(log2, DigestUpdate(a.data, a.update));
  }

  lemma FinishWrites(m: Machine, log: seq<Call>, a: Answers)
    requires a.hashed.Ok? && a.digest == m.manifest.digest && a.verify.Ok? && a.storeFinish.Ok?
    ensures var (m1, log1) := FinishStep(m, log, a);
            m1.state.ReadyToActivate? && StagedAfter(log1).written == StagedAfter(log).written
  {
    hide StagedAfter, Safe;
    var log1 := log + [DigestFinish(a.digest, a.hashed)];
    Extended(log, DigestFinish(a.digest, a.hashed));
    var verify := Verify(a.digest, m.manifest.signature, m.manifest.keyId, a.verify);
    Extended(log1, verify);
    Extended(log1 + [verify], StoreFinish(a.storeFinish));
  }

  /** A download from honest ports ends ready to activate, with exactly the image
      staged, within twice its size and one polls. */
  lemma {:induction false} HonestDownloadCompletes(m: Machine, log: seq<Call>, image: Bytes, n: nat)
    requires Inv(m, log) && Delivering(m, log, image) && n >= Measure(m)
    ensures var (m1, log1) := Polls(m, log, image, n);
            m1.state.ReadyToActivate? && StagedAfter(log1).written == image && Justified(StagedAfter(log1))
    decreases n
  {
    hide PollStep, StagedAfter, Justified, Linked, Safe, Honest, Delivering;
    HonestStarts(m, log, image);
    var a := Honest(m, image);
    var (m1, log1) := PollStep(m, log, 0, a);
    PollProgresses(m, log, 0, a);
    HonestPoll(m, log, image);
    if m1.state.Downloading? {
      HonestDownloadCompletes(m1, log1, image, n - 1);
    } else {
      NotDelivering(m1, log1, image);
      PollsEnd(m1, log1, image, n - 1);
    }
  }

  lemma HonestStarts(m: Machine, log: seq<Call>, image: Bytes)
    requires Delivering(m, log, image)
    ensures m.state.Downloading? && m.received <= |image| && |Honest(m, image).data| <= CHUNK_BYTES
    ensures !Honest(m, image).take.Busy?
  {
    hide StagedAfter;
  }

  lemma NotDelivering(m: Machine, log: seq<Call>, image: Bytes)
    ensures Delivering(m, log, image) ==> m.state.Downloading?
    ensures Inv(m, log) && m.state.ReadyToActivate? ==> Justified(StagedAfter(log))
  {
    hide StagedAfter, Justified;
  }

  lemma PollsEnd(m: Machine, log: seq<Call>, image: Bytes, n: nat)
    requires !m.state.Downloading?
    ensures Polls(m, log, image, n) == (m, log)
  {}

  // ---- failing ports ---------------------------------------------------------------------------

  /** A call whose answer leaves a download without a way on. */
  predicate Refuses(m: Machine, c: Call) {
    match c
    case FetchRequest(_, _, status) => !status.Ok? && !status.Busy?
    case FetchTake(data, status) =>
      !status.Busy? && (!status.Ok? || data == [] || m.received + |data| > m.manifest.sizeBytes)
    case StoreWrite(_, _, status) => !status.Ok?
    case DigestUpdate(_, status) => !status.Ok?
    case DigestFinish(digest, status) => !status.Ok? || digest != m.manifest.digest
    case Verify(_, _, _, status) => !status.Ok?
    case StoreFinish(status) => !status.Ok?
    case _ => false
  }

  ghost predicate Refused(m: Machine, calls: seq<Call>) { exists c :: c in calls && Refuses(m, c) }

  lemma RefusedGrows(m: Machine, calls: seq<Call>, c: Call)
    ensures Refused(m, calls + [c]) <==> Refused(m, calls) || Refuses(m, c)
  {
    if Refuses(m, c) { assert c in calls + [c]; }
    if Refused(m, calls) {
      var d :| d in calls && Refuses(m, d);
      assert d in calls + [c];
    }
  }

  /** The part of the log from position `n` on. */
  ghost predicate Ends(m: Machine, log: seq<Call>, n: nat, m1: Machine, log1: seq<Call>) {
    && n <= |log| && log <= log1
    && (m1.state.Failed? <==> Refused(m, log1[n..]))
    && (m1.state.Failed? ==> log1[|log1| - 1] == StoreAbort)
  }

  lemma FailEnds(m: Machine, m0: Machine, log: seq<Call>, n: nat)
    requires n <= |log| && Refused(m, log[n..])
    ensures Ends(m, log, n, Fail(m0, log).0, Fail(m0, log).1)
  {
    assert (log + [StoreAbort])[n..] == log[n..] + [StoreAbort];
    RefusedGrows(m, log[n..], StoreAbort);
  }

  lemma OneMore(m: Machine, log: seq<Call>, n: nat, c: Call)
    requires n <= |log| && !Refused(m, log[n..])
    ensures Refused(m, (log + [c])[n..]) <==> Refuses(m, c)
  {
    assert (log + [c])[n..] == log[n..] + [c];
    RefusedGrows(m, log[n..], c);
  }

  lemma FinishEnds(m: Machine, m0: Machine, log: seq<Call>, n: nat, a: Answers)
    requires n <= |log| && !Refused(m, log[n..]) && m0.manifest == m.manifest
    ensures Ends(m, log, n, FinishStep(m0, log, a).0, FinishStep(m0, log, a).1)
  {
    hide Refused;
    var c1 := DigestFinish(a.digest, a.hashed);
    var log1 := log + [c1];
    OneMore(m, log, n, c1);
    if Refuses(m, c1) { FailEnds(m, m0, log1, n); }
    else {
      var c2 := Verify(a.digest, m.manifest.signature, m.manifest.keyId, a.verify);
      var log2 := log1 + [c2];
      OneMore(m, log1, n, c2);
      if Refuses(m, c2) { FailEnds(m, m0, log2, n); }
      else {
        var c3 := StoreFinish(a.storeFinish);
        OneMore(m, log2, n, c3);
        if Refuses(m, c3) { FailEnds(m, m0, log2 + [c3], n); }
      }
    }
  }

  lemma TakeEnds(m: Machine, log: seq<Call>, n: nat, a: Answers)
    requires n <= |log| && !Refused(m, log[n..]) && m.state.Downloading?
    requires m.received < m.manifest.sizeBytes <= LARGEST_IMAGE && |a.data| <= CHUNK_BYTES
    ensures Ends(m, log, n, TakeStep(m, log, a).0, TakeStep(m, log, a).1)
  {
    hide Refused, FinishStep;
    var c1 := FetchTake(a.data, a.take);
    var log1 := log + [c1];
    OneMore(m, log, n, c1);
    if Refuses(m, c1) { FailEnds(m, m, log1, n); }
    else if !a.take.Busy? {
      var c2 := StoreWrite(m.received, a.data, a.write);
      var log2 := log1 + [c2];
      OneMore(m, log1, n, c2);
      if Refuses(m, c2) { FailEnds(m, m, log2, n); }
      else {
        var c3 := DigestUpdate(a.data, a.update);
        var log3 := log2 + [c3];
        OneMore(m, log2, n, c3);
        if Refuses(m, c3) { FailEnds(m, m, log3, n); }
        else {
          FinishEnds(m, m.(received := m.received + |a.data|, requested := false, state := Verifying), log3, n, a);
        }
      }
    }
  }

  /** A poll of a download abandons the update if and only if one of the calls it makes is
      refused, and the last call then aborts the store. */
  lemma PollFailsIffRefused(m: Machine, log: seq<Call>, now: nat, a: Answers)
    requires Inv(m, log) && m.state.Downloading? && |a.data| <= CHUNK_BYTES
    ensures Ends(m, log, |log|, PollStep(m, log, now, a).0, PollStep(m, log, now, a).1)
  {
    hide Safe, StagedAfter, Refused, TakeStep;
    assert log[|log|..] == [];
    assert !Refused(m, []) by { NoneRefused(m); }
    OneMore(m, log, |log|, FetchPoll(now));
    var log0 := log + [FetchPoll(now)];
    if m.requested {
      TakeEnds(m, log0, |log|, a);
    } else {
      var remaining := m.manifest.sizeBytes - m.received;
      var wanted := if remaining < CHUNK_BYTES then remaining else CHUNK_BYTES;
      var c := FetchRequest(m.received, wanted, a.request);
      OneMore(m, log0, |log|, c);
      if Refuses(m, c) { FailEnds(m, m, log0 + [c], |log|); }
    }
  }

  lemma NoneRefused(m: Machine)
    ensures !Refused(m, [])
  {}

  // ---- a whole update ------------------------------------------------------------------------

  lemma RunAdds(events: seq<Event>, e: Event)
    ensures Run(events + [e]) == Step(Run(events).0, Run(events).1, e)
  {
    assert (events + [e])[..|events|] == events;
    hide Step;
  }

  lemma {:induction false} RunJoins(events: seq<Event>, more: seq<Event>)
    ensures Run(events + more) == RunFrom(Run(events).0, Run(events).1, more)
  {
    hide Step;
    if more == [] {
      assert events + more == events;
    } else {
      assert (events + more)[..|events + more| - 1] == events + more[..|more| - 1];
      RunJoins(events, more[..|more| - 1]);
    }
  }

  function RunFrom(m: Machine, log: seq<Call>, events: seq<Event>): (Machine, seq<Call>) {
    if events == [] then (m, log)
    else
      var (m1, log1) := RunFrom(m, log, events[..|events| - 1]);
      Step(m1, log1, events[|events| - 1])
  }

  /** The polls of a download from honest ports, until it ends. */
  function PollEvents(m: Machine, log: seq<Call>, image: Bytes, n: nat): seq<Event>
    decreases n
  {
    if n == 0 || !m.state.Downloading? || m.received > |image| then []
    else
      var (m1, log1) := PollStep(m, log, 0, Honest(m, image));
      [PollCall(0, Honest(m, image))] + PollEvents(m1, log1, image, n - 1)
  }

  lemma {:induction false} PollEventsPoll(m: Machine, log: seq<Call>, image: Bytes, n: nat)
    ensures RunFrom(m, log, PollEvents(m, log, image, n)) == Polls(m, log, image, n)
    decreases n
  {
    if !(n == 0 || !m.state.Downloading? || m.received > |image|) {
      var e := PollCall(0, Honest(m, image));
      var (m1, log1) := PollStep(m, log, 0, Honest(m, image));
      PollEventsPoll(m1, log1, image, n - 1);
      FirstOfRun(m, log, e, PollEvents(m1, log1, image, n - 1));
      hide PollStep, Honest, RunFrom;
    }
  }

  lemma {:induction false} FirstOfRun(m: Machine, log: seq<Call>, e: Event, more: seq<Event>)
    ensures var (m1, log1) := Step(m, log, e); RunFrom(m, log, [e] + more) == RunFrom(m1, log1, more)
  {
    hide Step;
    if more == [] {
      assert ([e] + more)[..0] == [];
      assert RunFrom(m, log, []) == (m, log);
    } else {
      assert ([e] + more)[..|more|] == [e] + more[..|more| - 1];
      FirstOfRun(m, log, e, more[..|more| - 1]);
    }
  }

  /** The ports accept an offer of this image. */
  predicate Accepts(manifest: Manifest, image: Bytes, a: Answers) {
    && 0 < manifest.sizeBytes == |image| <= LARGEST_IMAGE
    && a.storeBegin.Ok? && a.digestBegin.Ok? && |a.data| <= CHUNK_BYTES
  }

  /** An honest offer to an idle machine is accepted. */
  lemma OfferIsAccepted(m: Machine, log: seq<Call>, manifest: Manifest, image: Bytes, a: Answers)
    requires Inv(m, log) && m.state.Idle? && Accepts(manifest, image, a)
    ensures var (status, m1, log1) := OfferStep(m, log, manifest, a);
            && status == Ok && Inv(m1, log1) && Delivering(m1, log1, image) && m1.manifest == manifest
            && Measure(m1) == 2 * |image| + 1
  {
    hide Safe, StagedAfter, Justified;
    OfferKeeps(m, log, manifest, a);
    Extended(log, Offer(manifest));
    var log0 := log + [Offer(manifest)];
    Extended(log0, StoreBegin(manifest.sizeBytes, a.storeBegin));
    Extended(log0 + [StoreBegin(manifest.sizeBytes, a.storeBegin)], DigestBegin(a.digestBegin));
  }

  /** An offer that the store or the digest refuses ends in failure, the store aborted. */
  lemma OfferFails(m: Machine, log: seq<Call>, manifest: Manifest, a: Answers)
    requires m.state.Idle? && manifest.sizeBytes > 0 && !(a.storeBegin.Ok? && a.digestBegin.Ok?)
    ensures var (status, m1, log1) := OfferStep(m, log, manifest, a);
            status == IoError && m1.state.Failed? && |log1| > |log| && log1[|log1| - 1] == StoreAbort
  {}

  /** The events of a whole update: the offer, and twice the image's size and one polls at
      most. */
  function Update(m: Machine, log: seq<Call>, manifest: Manifest, image: Bytes, a: Answers): seq<Event> {
    var (_, m1, log1) := OfferStep(m, log, manifest, a);
    [OfferCall(manifest, a)] + PollEvents(m1, log1, image, 2 * |image| + 1)
  }

  /** In every run that leaves the machine idle: an offer of any image, the polls of honest
      ports and one activation stage exactly this image and hand it to the boot port; its
      answer is the status, and a refusal abandons the update. */
  lemma UpdateActivates(events: seq<Event>, manifest: Manifest, image: Bytes, a: Answers, b: Answers)
    requires (forall i :: 0 <= i < |events| ==> Behaved(events[i])) && Run(events).0.state.Idle?
    requires Accepts(manifest, image, a)
    ensures var before := events + Update(Run(events).0, Run(events).1, manifest, image, a);
            var ((m, log), (m1, log1)) := (Run(before), Run(before + [ActivateCall(b)]));
            && m.state.ReadyToActivate? && StagedAfter(log).written == image && Justified(StagedAfter(log))
            && ActivateStep(m, log, b).0 == b.activate
            && (if b.activate.Ok? then m1.state.Activating? && log1 == log + [Activate(Ok)]
                else m1.state.Failed? && log1 == log + [Activate(b.activate)] + [StoreAbort])
  {
    hide Run, RunFrom, OfferStep, Polls, PollEvents, StagedAfter, Justified, Linked, Safe, ActivateStep, Delivering, Update;
    RunIsSafe(events);
    var (m, log) := Run(events);
    UpdateDelivers(m, log, manifest, image, a);
    var before := events + Update(m, log, manifest, image, a);
    RunJoins(events, Update(m, log, manifest, image, a));
    RunAdds(before, ActivateCall(b));
    ActivationIsExact(Run(before).0, Run(before).1, b);
  }

  /** The offer and the polls of a whole update, from an idle machine. */
  lemma UpdateDelivers(m: Machine, log: seq<Call>, manifest: Manifest, image: Bytes, a: Answers)
    requires Inv(m, log) && m.state.Idle? && Accepts(manifest, image, a)
    ensures var (m1, log1) := RunFrom(m, log, Update(m, log, manifest, image, a));
            m1.state.ReadyToActivate? && StagedAfter(log1).written == image && Justified(StagedAfter(log1))
  {
    hide RunFrom, OfferStep, Polls, PollEvents, StagedAfter, Justified, Inv, Delivering;
    OfferIsAccepted(m, log, manifest, image, a);
    var (status, m1, log1) := OfferStep(m, log, manifest, a);
    HonestDownloadCompletes(m1, log1, image, 2 * |image| + 1);
    PollEventsPoll(m1, log1, image, 2 * |image| + 1);
    FirstOfRun(m, log, OfferCall(manifest, a), PollEvents(m1, log1, image, 2 * |image| + 1));
  }

  /** What is ready is handed to the boot port, whose answer is the status; a refusal
      abandons the update. */
  lemma ActivationIsExact(m: Machine, log: seq<Call>, b: Answers)
    requires m.state.ReadyToActivate?
    ensures var (status, m1, log1) := ActivateStep(m, log, b);
            && status == b.activate
            && (if b.activate.Ok? then m1.state.Activating? && log1 == log + [Activate(Ok)]
                else m1.state.Failed? && log1 == log + [Activate(b.activate)] + [StoreAbort])
  {}

  /** After every run, cancelling leaves the machine idle, whatever it was doing. */
  lemma CancelIsIdle(events: seq<Event>)
    ensures Run(events + [CancelCall]).0.state.Idle?
  {
    RunAdds(events, CancelCall);
    hide Run;
  }

  /** An offer to a machine that is not idle, or of nothing, is refused and reaches no port;
      neither does a poll without a download, nor an activation without a ready image. */
  lemma NothingWithoutCause(m: Machine, log: seq<Call>, e: Event)
    requires match e
             case OfferCall(manifest, _) => !m.state.Idle? || manifest.sizeBytes == 0
             case PollCall(_, _) => !m.state.Downloading?
             case ActivateCall(_) => !m.state.ReadyToActivate?
             case CancelCall => false
    ensures Step(m, log, e) == (m, log)
    ensures e.OfferCall? ==> OfferStep(m, log, e.manifest, e.answers).0 == InvalidArgument
    ensures e.ActivateCall? ==> ActivateStep(m, log, e.answers).0 == NotReady
  {}

  // ---- the service ----------------------------------------------------------------------------

  class Ports {
    var log: seq<Call>

    constructor ()
      ensures log == []
    {
      log := [];
    }

    method Do(call: Call)
      modifies this
      ensures log == old(log) + [call]
    {
      log := log + [call];
    }
  }

  class OtaService {
    const ports: Ports
    const chunk: array<Byte>
    var manifest: Manifest
    var received: nat
    var requested: bool
    var state: OtaState

    ghost predicate Valid()
      reads this, ports
    {
      chunk.Length == CHUNK_BYTES && Inv(Model(), ports.log)
    }

    ghost function Model(): Machine
      reads this
    {
      Machine(state, manifest, received, requested)
    }

    constructor (ports: Ports)
      requires ports.log == []
      ensures Valid() && this.ports == ports && Model() == Start() && fresh(chunk)
    {
      this.ports := ports;
      chunk := new Byte[CHUNK_BYTES](_ => 0);
      manifest, received, requested, state := Start().manifest, 0, false, Idle;
    }

    method Abandon()
      modifies this`state, this`requested, ports
      ensures (Model(), ports.log) == Fail(old(Model()), old(ports.log))
    {
      ports.Do(StoreAbort);
      state, requested := Failed, false;
    }

    method OfferImage(m: Manifest, answers: Answers) returns (status: Status)
      requires Valid() && PortsBehave(m, answers)
      modifies this, ports
      ensures Valid()
      ensures (status, Model(), ports.log) == OfferStep(old(Model()), old(ports.log), m, answers)
    {
      OfferKeeps(Model(), ports.log, m, answers);
      hide Inv;
      if !state.Idle? || m.sizeBytes == 0 { return InvalidArgument; }
      ports.Do(Offer(m));
      ports.Do(StoreBegin(m.sizeBytes, answers.storeBegin));
      if answers.storeBegin.Ok? { ports.Do(DigestBegin(answers.digestBegin)); }
      if !answers.storeBegin.Ok? || !answers.digestBegin.Ok? {
        Abandon();
        return IoError;
      }
      manifest, received, requested, state := m, 0, false, Downloading;
      return Ok;
    }

    method Poll(now: nat, answers: Answers)
      requires Valid() && |answers.data| <= CHUNK_BYTES
      modifies this, ports, chunk
      ensures Valid()
      ensures (Model(), ports.log) == PollStep(old(Model()), old(ports.log), now, answers)
      ensures old(state).Downloading? && state.Downloading? && !(old(requested) && answers.take.Busy?) ==>
                Measure(Model()) < Measure(old(Model()))
    {
      PollKeeps(Model(), ports.log, now, answers);
      if !state.Downloading? { return; }
      PollProgresses(Model(), ports.log, now, answers);
      hide Inv, Linked, TakeStep, RequestStep, Measure;
      ports.Do(FetchPoll(now));
      if requested { Take(answers); } else { Request(answers); }
    }

    /** Asks for the next chunk. */
    method Request(answers: Answers)
      requires received <= manifest.sizeBytes
      modifies this`state, this`requested, ports
      ensures (Model(), ports.log) == RequestStep(old(Model()), old(ports.log), answers)
    {
      var remaining := manifest.sizeBytes - received;
      var wanted := if remaining < CHUNK_BYTES then remaining else CHUNK_BYTES;
      ports.Do(FetchRequest(received, wanted, answers.request));
      if answers.request.Ok? || answers.request.Busy? { requested := true; } else { Abandon(); }
    }

    /** Takes a chunk, writes and hashes it, and finishes the image with the last one. */
    method Take(answers: Answers)
      requires chunk.Length == CHUNK_BYTES && |answers.data| <= CHUNK_BYTES
      modifies this, ports, chunk
      ensures (Model(), ports.log) == TakeStep(old(Model()), old(ports.log), answers)
    {
      hide FinishStep;
      ports.Do(FetchTake(answers.data, answers.take));
      if answers.take.Busy? { return; }
      var size := |answers.data|;
      forall i | 0 <= i < size { chunk[i] := answers.data[i]; }
      assert chunk[..size] == answers.data;
      if !answers.take.Ok? || size == 0 || TooMuch(received, size, manifest.sizeBytes) {
        Abandon();
        return;
      }
      ports.Do(StoreWrite(received, chunk[..size], answers.write));
      if answers.write.Ok? { ports.Do(DigestUpdate(chunk[..size], answers.update)); }
      if !answers.write.Ok? || !answers.update.Ok? {
        Abandon();
        return;
      }
      received := (received + size) % WRAP32;
      requested := false;
      if received != manifest.sizeBytes { return; }
      state := Verifying;
      Finish(answers);
    }

    /** Compares the digest, has it verified, and finishes the store. */
    method Finish(answers: Answers)
      modifies this, ports
      ensures (Model(), ports.log) == FinishStep(old(Model()), old(ports.log), answers)
    {
      ports.Do(DigestFinish(answers.digest, answers.hashed));
      if !answers.hashed.Ok? {
        Abandon();
        return;
      }
      var same := SameDigest(answers.digest, manifest.digest);
      if !same {
        Abandon();
        return;
      }
      ports.Do(Verify(answers.digest, manifest.signature, manifest.keyId, answers.verify));
      if answers.verify.Ok? { ports.Do(StoreFinish(answers.storeFinish)); }
      if !answers.verify.Ok? || !answers.storeFinish.Ok? {
        Abandon();
        return;
      }
      state := ReadyToActivate;
    }

    method ActivateImage(answers: Answers) returns (status: Status)
      requires Valid()
      modifies this, ports
      ensures Valid()
      ensures (status, Model(), ports.log) == ActivateStep(old(Model()), old(ports.log), answers)
    {
      ActivateKeeps(Model(), ports.log, answers);
      hide Inv;
      if !state.ReadyToActivate? { return NotReady; }
      state := Activating;
      ports.Do(Activate(answers.activate));
      if !answers.activate.Ok? { Abandon(); }
      return answers.activate;
    }

    method Cancel()
      requires Valid()
      modifies this, ports
      ensures Valid()
      ensures (Model(), ports.log) == CancelStep(old(Model()), old(ports.log))
    {
      CancelKeeps(Model(), ports.log);
      ports.Do(StoreAbort);
      state, received, requested := Idle, 0, false;
    }
  }

  method SameDigest(calculated: Digest, expected: Digest) returns (same: bool)
    ensures same <==> calculated == expected
  {
    for i := 0 to |calculated|
      invariant calculated[..i] == expected[..i]
    {
      if calculated[i] != expected[i] { return false; }
    }
    assert calculated[..|calculated|] == calculated && expected[..|calculated|] == expected;
    return true;
  }
}
