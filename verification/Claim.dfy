/** The claim protocol: a time-limited window in which challenges are answered,
    each with a fresh nonce and none twice. */
module Claim {
  import opened Uhal
  import opened Bytes8
  import opened Recent

  type Block16 = b: Bytes | |b| == 16 witness seq(16, _ => 0)
  type Block32 = b: Bytes | |b| == 32 witness seq(32, _ => 0)

  function Zero16(): Block16 { seq(16, _ => 0) }
  function Zero32(): Block32 { seq(32, _ => 0) }

  datatype Material = Material(productId: nat, claimId: Block16, secret: Block32)
  datatype Persistent = Persistent(lockoutMs: nat, attempts: nat, lockoutLevel: nat, claimed: bool)
  datatype Flags = Flags(commissionable: bool, factoryNew: bool, claimed: bool, locked: bool)
  datatype Identity = Identity(productId: nat, claimId: Block16, nonce: Block16, flags: Flags)

  const BLANK := Persistent(0, 0, 0, false)

  /** What goes into the proof. */
  function ProofInput(nonce: Block16, challenge: Block32, claimId: Block16): (m: Bytes)
    ensures |m| == 64
  {
    nonce + challenge + claimId
  }

  /** The nonce comes first, then the challenge, then the claim id. */
  lemma ProofInputParts(n: Block16, c: Block32, i: Block16)
    ensures ProofInput(n, c, i)[..16] == n && ProofInput(n, c, i)[16..48] == c && ProofInput(n, c, i)[48..] == i
  {}

  /** Different nonces or challenges never share a proof input. */
  lemma ProofInputInjective(n: Block16, c: Block32, i: Block16, n1: Block16, c1: Block32, i1: Block16)
    ensures ProofInput(n, c, i) == ProofInput(n1, c1, i1) <==> n == n1 && c == c1 && i == i1
  {
    var (m, m1) := (ProofInput(n, c, i), ProofInput(n1, c1, i1));
    assert m[..16] == n && m[16..48] == c && m[48..] == i;
    assert m1[..16] == n1 && m1[16..48] == c1 && m1[48..] == i1;
  }

  // ---- the protocol ---------------------------------------------------------------------------

  /** What the random source answers, and what it leaves in the buffer. */
  datatype Drawn = Drawn(status: Status, bytes: Block16)

  /** A released proof: how many calls of the random source were made before it, the last
      of which gave its nonce, and what it was made from. */
  datatype Release = Release(draw: nat, nonce: Block16, challenge: Block32, proof: Block32)

  /** Whether the nonce of a release came from a call that succeeded. */
  predicate Fresh(r: Release, calls: seq<Drawn>) {
    0 < r.draw <= |calls| && calls[r.draw - 1].status.Ok?
  }

  /** Every release used what the call before it left, no two of them the same call, and
      the call after it succeeded. */
  ghost predicate FreshNonces(released: seq<Release>, calls: seq<Drawn>) {
    && (forall i, j :: 0 <= i < j < |released| ==> released[i].draw < released[j].draw)
    && forall i :: 0 <= i < |released| ==>
         && 0 < released[i].draw < |calls|
         && released[i].nonce == calls[released[i].draw - 1].bytes && calls[released[i].draw].status.Ok?
  }

  lemma FreshAgain(released: seq<Release>, calls: seq<Drawn>, r: Release, random: Drawn)
    requires FreshNonces(released, calls) && random.status.Ok?
    requires 0 < r.draw == |calls| && r.nonce == calls[r.draw - 1].bytes
    ensures FreshNonces(released + [r], calls + [random])
  {}

  /** The successful calls never repeat. */
  ghost predicate CallsDiffer(calls: seq<Drawn>) {
    forall i, j :: 0 <= i < j < |calls| && calls[i].status.Ok? && calls[j].status.Ok? ==>
      calls[i].bytes != calls[j].bytes
  }

  /** Proofs whose nonces came from successful calls are made from different inputs. */
  ghost predicate InputsDiffer(released: seq<Release>, calls: seq<Drawn>, claimId: Block16) {
    forall i, j :: 0 <= i < j < |released| && Fresh(released[i], calls) && Fresh(released[j], calls) ==>
      ProofInput(released[i].nonce, released[i].challenge, claimId) !=
      ProofInput(released[j].nonce, released[j].challenge, claimId)
  }

  lemma ReleasesDiffer(released: seq<Release>, calls: seq<Drawn>, claimId: Block16)
    requires FreshNonces(released, calls) && CallsDiffer(calls)
    ensures InputsDiffer(released, calls, claimId)
  {
    forall i, j | 0 <= i < j < |released| && Fresh(released[i], calls) && Fresh(released[j], calls)
      ensures ProofInput(released[i].nonce, released[i].challenge, claimId) !=
              ProofInput(released[j].nonce, released[j].challenge, claimId)
    {
      var (a, b) := (released[i], released[j]);
      assert a.draw < b.draw;
      ProofInputInjective(a.nonce, a.challenge, claimId, b.nonce, b.challenge, claimId);
    }
  }

  /** Calls to the state store. */
  datatype StoreCall = Save(state: Persistent, status: Status) | Clear(status: Status)

  // ---- the protocol as a function of its state ------------------------------------------------

  datatype Machine = Machine(
    material: Material, identity: Identity, persistent: Persistent,
    expires: nat, lockoutUntil: nat,
    cache: seq<Block32>, count: nat, next: nat,
    initialized: bool, active: bool, store: seq<StoreCall>)

  function Start(): Machine {
    Machine(Material(0, Zero16(), Zero32()), Identity(0, Zero16(), Zero16(), Flags(false, false, false, false)),
            BLANK, 0, 0, seq(RECENT, _ => Zero32()), 0, 0, false, false, [])
  }

  function Refreshed(m: Machine, now: nat): Machine {
    var p := m.persistent;
    m.(identity := m.identity.(flags :=
      Flags(m.active, !p.claimed, p.claimed, p.lockoutMs != 0 && Before32(now, m.lockoutUntil))))
  }

  function Closed(m: Machine): Machine {
    Refreshed(m.(active := false, expires := 0, identity := m.identity.(nonce := Zero16()),
                 cache := seq(RECENT, _ => Zero32()), count := 0, next := 0), 0)
  }

  /** Whether an old lockout still holds; one that ended is forgotten. */
  function Lock(m: Machine, now: nat, saved: Status): (bool, Machine) {
    if m.persistent.lockoutMs == 0 then (false, m)
    else if Before32(now, m.lockoutUntil) then (true, m)
    else
      var p := m.persistent.(attempts := 0, lockoutMs := 0);
      (false, m.(persistent := p, lockoutUntil := 0, store := m.store + [Save(p, saved)]))
  }

  function Rotated(m: Machine, random: Drawn): Machine { m.(identity := m.identity.(nonce := random.bytes)) }

  function InitializeStep(m: Machine, provided: Status, material: Material, loaded: Status, state: Persistent,
                          saved: Status): (Status, Machine) {
    var m1 := m.(material := material);
    if !provided.Ok? then (provided, m1)
    else if !loaded.Ok? then
      (loaded, m1.(persistent := state, material := material.(secret := Zero32())))
    else
      ForgetStep(m1.(persistent := state,
                     identity := m.identity.(productId := material.productId, claimId := material.claimId)), saved)
  }

  predicate Legacy(p: Persistent) { p.attempts != 0 || p.lockoutLevel != 0 || p.lockoutMs != 0 }

  /** Lockouts of older firmware are dropped, and their absence is saved. */
  function Dropped(m: Machine, saved: Status): Machine {
    var p := Persistent(0, 0, 0, m.persistent.claimed);
    m.(persistent := p, lockoutUntil := 0,
       store := if Legacy(m.persistent) then m.store + [Save(p, saved)] else m.store)
  }

  function ForgetStep(m: Machine, saved: Status): (Status, Machine) {
    var m1 := Dropped(m, saved);
    if Legacy(m.persistent) && !saved.Ok? then (IoError, m1.(material := m.material.(secret := Zero32())))
    else (Ok, Refreshed(m1.(initialized := true), 0))
  }

  function OpenStep(m: Machine, now: nat, duration: nat, random: Drawn, saved: Status): (Status, Machine) {
    if !m.initialized then (NotReady, m)
    else if duration == 0 then (InvalidArgument, m)
    else
      var (locked, m1) := Lock(m, now, saved);
      if locked then (Busy, Refreshed(m1, now))
      else
        var m2 := Rotated(m1, random);
        if !random.status.Ok? then (random.status, m2)
        else
          (Ok, Refreshed(Begun(m2, now, duration), now))
  }

  function Begun(m: Machine, now: nat, duration: nat): Machine {
    m.(expires := (now + duration) % WRAP32, active := true, cache := seq(RECENT, _ => Zero32()), count := 0, next := 0)
  }

  predicate Expired(m: Machine, now: nat) { m.active && !Before32(now, m.expires) }

  function ActiveStep(m: Machine, now: nat, saved: Status): (bool, Machine) {
    var m1 := if Expired(m, now) then Closed(m) else m;
    var (locked, m2) := Lock(m1, now, saved);
    var m3 := Refreshed(if locked then m2.(active := false) else m2, now);
    (m3.active, m3)
  }

  /** How the crypto port answers a challenge, and what it leaves behind when it fails. */
  datatype Crypto = Crypto(hmac: Status, left: Block32, random: Drawn)

  predicate ChallengeSeen(m: Machine, challenge: Block32) {
    m.count <= |m.cache| && challenge in m.cache[..m.count]
  }

  /** The status, the proof buffer and the machine after a challenge. */
  function RespondStep(hmac: (Block32, Bytes) -> Block32, m: Machine, challenge: Block32, now: nat, c: Crypto,
                       saved: Status): (Status, Block32, Machine) {
    var (open, m1) := ActiveStep(m, now, saved);
    var (locked, m2) := Lock(m1, now, saved);
    if !open then (Denied, Zero32(), m1)
    else if locked then (Busy, Zero32(), m2)
    else AnswerStep(hmac, m2, challenge, now, c)
  }

  /** The same, the window being open. */
  function AnswerStep(hmac: (Block32, Bytes) -> Block32, m: Machine, challenge: Block32, now: nat, c: Crypto)
    : (Status, Block32, Machine)
  {
    if ChallengeSeen(m, challenge) then (Denied, Zero32(), m)
    else if !c.hmac.Ok? then (c.hmac, c.left, m)
    else if !c.random.status.Ok? then (c.random.status, Zero32(), Rotated(m, c.random))
    else
      var proof := hmac(m.material.secret, ProofInput(m.identity.nonce, challenge, m.identity.claimId));
      (Ok, proof, Refreshed(Remembered(Rotated(m, c.random), challenge), now))
  }

  function Remembered(m: Machine, challenge: Block32): Machine {
    m.(cache := if m.next < |m.cache| then m.cache[m.next := challenge] else m.cache,
       next := (m.next + 1) % RECENT, count := if m.count + 1 < RECENT then m.count + 1 else RECENT)
  }

  function CommissionStep(m: Machine, saved: Status): (Status, Machine) {
    if !m.initialized then (NotReady, m)
    else
      var p := Persistent(0, 0, 0, true);
      var m1 := Closed(m.(persistent := p, lockoutUntil := 0));
      (saved, m1.(store := m.store + [Save(p, saved)]))
  }

  function ResetStep(m: Machine, cleared: Status): (Status, Machine) {
    var m1 := Refreshed(Closed(m).(persistent := BLANK, lockoutUntil := 0), 0);
    (cleared, m1.(store := m.store + [Clear(cleared)]))
  }

  // ---- what an all-knowing observer keeps -------------------------------------------------------

  /** The true times of the last opening or check that found the window open, and of its
      end; whether duration and gaps were at most half a turn; whether the last
      initialization succeeded; the challenges answered in this window; every call of the
      random source; and every release. */
  datatype Trail = Trail(
    seen: nat, end: nat, timely: bool, clean: bool,
    answered: seq<Block32>, calls: seq<Drawn>, released: seq<Release>)

  const NO_TRAIL := Trail(0, 0, false, false, [], [], [])

  function AfterDraw(tr: Trail, random: Drawn): Trail { tr.(calls := tr.calls + [random]) }

  function AfterOpen(m: Machine, tr: Trail, t: nat, duration: nat, random: Drawn, saved: Status): Trail {
    var status := OpenStep(m, Stamp(t), duration, random, saved).0;
    var (locked, _) := Lock(m, Stamp(t), saved);
    if !m.initialized || duration == 0 || locked then tr
    else if !random.status.Ok? then AfterDraw(tr, random)
    else AfterDraw(tr, random).(seen := t, end := t + duration, timely := duration <= HALF32, answered := [])
  }

  function AfterCheck(m: Machine, tr: Trail, t: nat): Trail {
    if Expired(m, Stamp(t)) then tr.(answered := [])
    else if m.active then tr.(seen := t, timely := tr.timely && t <= tr.seen + HALF32)
    else tr
  }

  function AfterAnswer(hmac: (Block32, Bytes) -> Block32, m: Machine, tr: Trail, challenge: Block32, now: nat,
                       c: Crypto): Trail
  {
    if ChallengeSeen(m, challenge) || !c.hmac.Ok? then tr
    else if !c.random.status.Ok? then AfterDraw(tr, c.random)
    else
      var proof := AnswerStep(hmac, m, challenge, now, c).1;
      AfterDraw(tr, c.random).(
        answered := tr.answered + [challenge],
        released := tr.released + [Release(|tr.calls|, m.identity.nonce, challenge, proof)])
  }

  function AfterRespond(hmac: (Block32, Bytes) -> Block32, m: Machine, tr: Trail, challenge: Block32, t: nat,
                        c: Crypto, saved: Status): Trail
  {
    var (open, m1) := ActiveStep(m, Stamp(t), saved);
    var (locked, m2) := Lock(m1, Stamp(t), saved);
    var tr1 := AfterCheck(m, tr, t);
    if open && !locked then AfterAnswer(hmac, m2, tr1, challenge, Stamp(t), c) else tr1
  }

  // ---- what every call keeps ---------------------------------------------------------------------

  /** An open window: its end, seen open before it. */
  predicate Window(expires: nat, seen: nat, end: nat, timely: bool) {
    expires == Stamp(end) && (timely ==> seen < end <= seen + HALF32)
  }

  /** The nonce is what the last call of the random source left, whatever it answered. */
  predicate Nonce(nonce: Block16, calls: seq<Drawn>) {
    calls != [] && nonce == calls[|calls| - 1].bytes
  }

  ghost predicate Remembers(m: Machine, answered: seq<Block32>) {
    RingHolds(m.cache, m.next, answered) && m.count == if |answered| < RECENT then |answered| else RECENT
  }

  /** What the machine's fields and the observer's trail have to do with each other. */
  ghost predicate Core(m: Machine, tr: Trail) {
    && Remembers(m, tr.answered)
    && FreshNonces(tr.released, tr.calls)
    && (tr.clean ==> m.initialized && m.persistent.lockoutMs == 0)
    && (m.active ==> Window(m.expires, tr.seen, tr.end, tr.timely) && Nonce(m.identity.nonce, tr.calls))
  }

  /** The commissionable flag follows the window, and after a successful initialization
      the locked flag is never set. */
  predicate FlagsRight(m: Machine, tr: Trail) {
    m.identity.flags.commissionable == m.active && (tr.clean ==> !m.identity.flags.locked)
  }

  ghost predicate Inv(m: Machine, tr: Trail) { Core(m, tr) && FlagsRight(m, tr) }

  lemma RefreshedIsRight(m: Machine, tr: Trail, now: nat)
    requires Core(m, tr)
    ensures Inv(Refreshed(m, now), tr)
    ensures var flags := Refreshed(m, now).identity.flags;
            flags.claimed == m.persistent.claimed && flags.factoryNew == !m.persistent.claimed
  {}

  lemma LockKeeps(m: Machine, tr: Trail, now: nat, saved: Status)
    requires Inv(m, tr)
    ensures Inv(Lock(m, now, saved).1, tr)
    ensures tr.clean ==> Lock(m, now, saved) == (false, m)
    ensures Lock(m, now, saved).1 == m.(persistent := Lock(m, now, saved).1.persistent,
                                        lockoutUntil := Lock(m, now, saved).1.lockoutUntil,
                                        store := Lock(m, now, saved).1.store)
  {}

  lemma StartIsSound()
    ensures Inv(Start(), NO_TRAIL)
  {}

  lemma InitializeKeeps(m: Machine, tr: Trail, provided: Status, material: Material, loaded: Status,
                        state: Persistent, saved: Status)
    requires Inv(m, tr)
    ensures var (status, m1) := InitializeStep(m, provided, material, loaded, state, saved);
            Inv(m1, tr.(clean := status.Ok?)) && m1.active == m.active
  {}

  /** Initialization succeeds if material and state are loaded and an old lockout, if there
      is one, can be dropped; otherwise the claim secret is not kept. */
  lemma InitializeIsExact(m: Machine, provided: Status, material: Material, loaded: Status, state: Persistent,
                          saved: Status)
    ensures var (status, m1) := InitializeStep(m, provided, material, loaded, state, saved);
            && status == (if !provided.Ok? then provided
                          else if !loaded.Ok? then loaded
                          else if state == Persistent(0, 0, 0, state.claimed) || saved.Ok? then Ok else IoError)
            && (status.Ok? ==>
                  && m1.initialized && m1.material == material && m1.persistent == Persistent(0, 0, 0, state.claimed)
                  && m1.identity.productId == material.productId && m1.identity.claimId == material.claimId
                  && m1.identity.flags.claimed == state.claimed && m1.identity.flags.factoryNew == !state.claimed)
            && (!status.Ok? ==> m1.initialized == m.initialized && (provided.Ok? ==> m1.material.secret == Zero32()))
  {
    hide Before32;
  }

  lemma ExpiryKeeps(m: Machine, tr: Trail, t: nat)
    requires Inv(m, tr) && tr.seen <= t
    ensures Inv(if Expired(m, Stamp(t)) then Closed(m) else m, AfterCheck(m, tr, t))
  {
    if Expired(m, Stamp(t)) {
      ClosedKeeps(m, tr);
      hide Closed, Inv, Expired;
    } else if m.active {
      WindowStays(m.expires, tr, t);
      hide Expired, Before32, Stamp, Remembers, FreshNonces, Window;
    }
  }

  lemma WindowStays(expires: nat, tr: Trail, t: nat)
    requires Window(expires, tr.seen, tr.end, tr.timely) && Before32(Stamp(t), expires) && tr.seen <= t
    ensures Window(expires, t, tr.end, tr.timely && t <= tr.seen + HALF32)
  {
    if tr.timely && t <= tr.seen + HALF32 { StampsAgree(t, tr.end); }
    hide Stamp, Before32;
  }

  lemma CheckKeeps(m: Machine, tr: Trail, t: nat, saved: Status)
    requires Inv(m, tr) && tr.seen <= t
    ensures var (open, m1) := ActiveStep(m, Stamp(t), saved);
            Inv(m1, AfterCheck(m, tr, t)) && open == m1.active && (open ==> m.active)
  {
    hide Core, Stamp, Before32, Lock, AfterCheck, Closed, Expired;
    var now := Stamp(t);
    ExpiryKeeps(m, tr, t);
    ClosedKeeps(m, tr);
    var m1 := if Expired(m, now) then Closed(m) else m;
    var tr1 := AfterCheck(m, tr, t);
    LockedCloses(m1, tr1, now, saved);
    var (locked, m2) := Lock(m1, now, saved);
    var m3 := if locked then m2.(active := false) else m2;
    RefreshedIsRight(m3, tr1, now);
  }

  lemma LockedCloses(m: Machine, tr: Trail, now: nat, saved: Status)
    requires Inv(m, tr)
    ensures var (locked, m2) := Lock(m, now, saved);
            Core(if locked then m2.(active := false) else m2, tr) && m2.active == m.active
  {}

  /** The window lasts exactly from the opening to its end: as long as checks are timely,
      it is found open at a time if and only if that time is before the end. */
  lemma CheckIsExact(m: Machine, tr: Trail, t: nat, saved: Status)
    requires Inv(m, tr) && tr.clean && tr.seen <= t
    requires m.active ==> tr.timely && t <= tr.seen + HALF32
    ensures ActiveStep(m, Stamp(t), saved).0 <==> m.active && t < tr.end
  {
    if m.active { StampsAgree(t, tr.end); }
    hide Stamp, Before32, Remembers, FreshNonces, Nonce;
  }

  /** Within one turn of the counter, these are all the times at which an open window is
      found open: up to half a turn before its end, and from half a turn after it on. */
  lemma CheckWithinTurn(m: Machine, tr: Trail, t: nat, saved: Status)
    requires Inv(m, tr) && tr.clean && m.active && -WRAP32 < t - tr.end < WRAP32
    ensures ActiveStep(m, Stamp(t), saved).0 <==> -HALF32 <= t - tr.end < 0 || t - tr.end >= HALF32
  {
    StampDifference(t, tr.end);
    hide Stamp, Remembers, FreshNonces, Nonce;
  }

  lemma OpenKeeps(m: Machine, tr: Trail, t: nat, duration: nat, random: Drawn, saved: Status)
    requires Inv(m, tr)
    ensures var (status, m1) := OpenStep(m, Stamp(t), duration, random, saved);
            var tr1 := AfterOpen(m, tr, t, duration, random, saved);
            && Inv(m1, tr1)
            && (status.Ok? ==> m1.active && tr1.end == t + duration && tr1.answered == []
                               && (tr1.timely <==> duration <= HALF32))
            && (!status.Ok? ==> m1.active == m.active && tr1.end == tr.end && tr1.answered == tr.answered)
            && (tr.clean && duration > 0 ==> status == random.status)
  {
    var now := Stamp(t);
    LockKeeps(m, tr, now, saved);
    var (locked, m1) := Lock(m, now, saved);
    RefreshedIsRight(m1, tr, now);
    DrawKeeps(m1, tr, random);
    var (m2, tr2) := (Rotated(m1, random), AfterDraw(tr, random));
    if duration > 0 && random.status.Ok? {
      WindowStarts(m2, tr2, t, duration);
      var m3 := Begun(m2, now, duration);
      RefreshedIsRight(m3, tr2.(seen := t, end := t + duration, timely := duration <= HALF32, answered := []), now);
    }
    hide Core, FlagsRight, Stamp, Before32, Lock;
  }

  lemma WindowStarts(m: Machine, tr: Trail, t: nat, duration: nat)
    requires Core(m, tr) && duration > 0 && Nonce(m.identity.nonce, tr.calls)
    ensures Core(Begun(m, Stamp(t), duration),
                 tr.(seen := t, end := t + duration, timely := duration <= HALF32, answered := []))
  {
    StampAdds(t, duration);
    NothingHeld(m, t, duration);
    hide Stamp, RingHolds, FreshNonces, Nonce;
  }

  lemma NothingHeld(m: Machine, t: nat, duration: nat)
    ensures Remembers(Begun(m, Stamp(t), duration), [])
  {
    hide Stamp;
  }

  lemma DrawKeeps(m: Machine, tr: Trail, random: Drawn)
    requires Inv(m, tr)
    ensures Inv(Rotated(m, random), AfterDraw(tr, random))
    ensures Nonce(random.bytes, AfterDraw(tr, random).calls)
  {}

  lemma ClosedKeeps(m: Machine, tr: Trail)
    requires Inv(m, tr)
    ensures Inv(Closed(m), tr.(answered := [])) && !Closed(m).active
    ensures Closed(m).identity.nonce == Zero16() && Closed(m).count == 0
    ensures forall c :: c in Closed(m).cache ==> c == Zero32()
  {}

  lemma CommissionKeeps(m: Machine, tr: Trail, saved: Status)
    requires Inv(m, tr)
    ensures var (status, m1) := CommissionStep(m, saved);
            && Inv(m1, if m.initialized then tr.(answered := []) else tr)
            && (m.initialized ==> !m1.active && m1.persistent == Persistent(0, 0, 0, true))
  {}

  lemma ResetKeeps(m: Machine, tr: Trail, cleared: Status)
    requires Inv(m, tr)
    ensures var (status, m1) := ResetStep(m, cleared);
            Inv(m1, tr.(answered := [])) && !m1.active && m1.persistent == BLANK
  {}

  // ---- challenges ------------------------------------------------------------------------------

  /** A challenge is answered if and only if the window is open, it is not among the last
      eight answered in this window, and the crypto port works. The proof then uses what
      the last call of the random source left, which no earlier release used, and a newer
      call has succeeded. That nonce is a fresh one if and only if its own call succeeded. */
  lemma RespondIsExact(hmac: (Block32, Bytes) -> Block32, m: Machine, tr: Trail, challenge: Block32, t: nat,
                       c: Crypto, saved: Status)
    requires Inv(m, tr) && tr.clean && tr.seen <= t
    requires m.active ==> tr.timely && t <= tr.seen + HALF32
    ensures var (status, proof, m1) := RespondStep(hmac, m, challenge, Stamp(t), c, saved);
            var tr1 := AfterRespond(hmac, m, tr, challenge, t, c, saved);
            var open := m.active && t < tr.end;
            && Inv(m1, tr1)
            && status == (if !open || challenge in Latest(tr.answered) then Denied
                          else if !c.hmac.Ok? then c.hmac else c.random.status)
            && (status.Ok? ==>
                  && tr1.answered == tr.answered + [challenge]
                  && tr1.calls == tr.calls + [c.random] && Nonce(m.identity.nonce, tr.calls)
                  && proof == hmac(m.material.secret, ProofInput(m.identity.nonce, challenge, m.identity.claimId))
                  && tr1.released == tr.released + [Release(|tr.calls|, m.identity.nonce, challenge, proof)])
            && (!status.Ok? ==> tr1.released == tr.released && (open ==> tr1.answered == tr.answered))
            && (!status.Ok? ==>
                  proof == if open && challenge !in Latest(tr.answered) && !c.hmac.Ok? then c.left else Zero32())
            && m1.active == open
  {
    CheckIsExact(m, tr, t, saved);
    CheckKeeps(m, tr, t, saved);
    RespondKeeps(hmac, m, tr, challenge, t, c, saved);
    var (open, m1) := ActiveStep(m, Stamp(t), saved);
    var tr1 := AfterCheck(m, tr, t);
    LockKeeps(m1, tr1, Stamp(t), saved);
    if open {
      RingIsLatest(m1.cache, m1.next, m1.count, tr1.answered, challenge);
      OpenIsUnchanged(m, tr, t, saved);
    }
    hide Stamp, Inv, ActiveStep, AfterCheck, Lock, FreshNonces, Window;
  }

  lemma OpenIsUnchanged(m: Machine, tr: Trail, t: nat, saved: Status)
    requires Inv(m, tr) && tr.clean && ActiveStep(m, Stamp(t), saved).0
    ensures var m1 := ActiveStep(m, Stamp(t), saved).1;
            m1.material == m.material && m1.identity.nonce == m.identity.nonce
            && m1.identity.claimId == m.identity.claimId
    ensures var tr1 := AfterCheck(m, tr, t);
            tr1.answered == tr.answered && tr1.calls == tr.calls
    ensures Nonce(m.identity.nonce, tr.calls)
  {}

  lemma AnswerKeeps(hmac: (Block32, Bytes) -> Block32, m: Machine, tr: Trail, challenge: Block32, now: nat,
                    c: Crypto)
    requires Inv(m, tr) && m.active
    ensures Inv(AnswerStep(hmac, m, challenge, now, c).2, AfterAnswer(hmac, m, tr, challenge, now, c))
  {
    DrawKeeps(m, tr, c.random);
    var proof := AnswerStep(hmac, m, challenge, now, c).1;
    if c.random.status.Ok? {
      ReleaseKeeps(m, tr, challenge, c.random, proof);
      RefreshedIsRight(Remembered(Rotated(m, c.random), challenge),
                       AfterDraw(tr, c.random).(
                         answered := tr.answered + [challenge],
                         released := tr.released + [Release(|tr.calls|, m.identity.nonce, challenge, proof)]),
                       now);
    }
    hide Core, FlagsRight, Remembered, ProofInput, ChallengeSeen;
  }

  lemma ReleaseKeeps(m: Machine, tr: Trail, challenge: Block32, random: Drawn, proof: Block32)
    requires Inv(m, tr) && m.active && random.status.Ok?
    ensures Core(Remembered(Rotated(m, random), challenge),
                 AfterDraw(tr, random).(
                   answered := tr.answered + [challenge],
                   released := tr.released + [Release(|tr.calls|, m.identity.nonce, challenge, proof)]))
  {
    RingGrows(m.cache, m.next, tr.answered, challenge);
    FreshAgain(tr.released, tr.calls,
               Release(|tr.calls|, m.identity.nonce, challenge, proof), random);
    hide RingHolds, FreshNonces, Window;
  }

  lemma RespondKeeps(hmac: (Block32, Bytes) -> Block32, m: Machine, tr: Trail, challenge: Block32, t: nat,
                     c: Crypto, saved: Status)
    requires Inv(m, tr) && tr.seen <= t
    ensures Inv(RespondStep(hmac, m, challenge, Stamp(t), c, saved).2,
                AfterRespond(hmac, m, tr, challenge, t, c, saved))
  {
    var now := Stamp(t);
    CheckKeeps(m, tr, t, saved);
    var (open, m1) := ActiveStep(m, now, saved);
    var tr1 := AfterCheck(m, tr, t);
    LockKeeps(m1, tr1, now, saved);
    var (locked, m2) := Lock(m1, now, saved);
    if open && !locked {
      AnswerKeeps(hmac, m2, tr1, challenge, now, c);
    }
    hide Stamp, Inv, ActiveStep, AfterCheck, Lock, AnswerStep, AfterAnswer;
  }

  // ---- whole runs ----------------------------------------------------------------------------------

  /** A call, with what the ports answer during it. */
  datatype Event =
    | Initialized(provided: Status, material: Material, loaded: Status, state: Persistent, saved: Status)
    | Opened(duration: nat, random: Drawn, saved: Status)
    | Checked(saved: Status)
    | Challenged(challenge: Block32, crypto: Crypto, saved: Status)
    | Cancelled
    | Commissioned(saved: Status)
    | WasReset(cleared: Status)

  datatype Timed = Timed(at: nat, event: Event)

  function Next(hmac: (Block32, Bytes) -> Block32, m: Machine, tr: Trail, e: Timed): (Machine, Trail) {
    match e.event
    case Initialized(provided, material, loaded, state, saved) =>
      var (status, m1) := InitializeStep(m, provided, material, loaded, state, saved);
      (m1, tr.(clean := status.Ok?))
    case Opened(duration, random, saved) =>
      (OpenStep(m, Stamp(e.at), duration, random, saved).1, AfterOpen(m, tr, e.at, duration, random, saved))
    case Checked(saved) => (ActiveStep(m, Stamp(e.at), saved).1, AfterCheck(m, tr, e.at))
    case Challenged(challenge, c, saved) =>
      (RespondStep(hmac, m, challenge, Stamp(e.at), c, saved).2, AfterRespond(hmac, m, tr, challenge, e.at, c, saved))
    case Cancelled => (Closed(m), tr.(answered := []))
    case Commissioned(saved) =>
      (CommissionStep(m, saved).1, if m.initialized then tr.(answered := []) else tr)
    case WasReset(cleared) => (ResetStep(m, cleared).1, tr.(answered := []))
  }

  function Run(hmac: (Block32, Bytes) -> Block32, m: Machine, tr: Trail, es: seq<Timed>): (Machine, Trail)
    decreases |es|
  {
    if es == [] then (m, tr)
    else
      var (m1, tr1) := Next(hmac, m, tr, es[0]);
      Run(hmac, m1, tr1, es[1..])
  }

  /** Time does not run backwards. */
  predicate InOrder(from: nat, es: seq<Timed>)
    decreases |es|
  {
    es == [] || (from <= es[0].at && InOrder(es[0].at, es[1..]))
  }

  lemma NextKeeps(hmac: (Block32, Bytes) -> Block32, m: Machine, tr: Trail, e: Timed)
    requires Inv(m, tr) && tr.seen <= e.at
    ensures var (m1, tr1) := Next(hmac, m, tr, e); Inv(m1, tr1) && tr1.seen <= e.at
  {
    SeenIsPast(hmac, m, tr, e);
    match e.event {
      case Initialized(provided, material, loaded, state, saved) =>
        InitializeKeeps(m, tr, provided, material, loaded, state, saved);
      case Opened(duration, random, saved) => OpenKeeps(m, tr, e.at, duration, random, saved);
      case Checked(saved) => CheckKeeps(m, tr, e.at, saved);
      case Challenged(challenge, c, saved) => RespondKeeps(hmac, m, tr, challenge, e.at, c, saved);
      case Cancelled => ClosedKeeps(m, tr);
      case Commissioned(saved) => CommissionKeeps(m, tr, saved);
      case WasReset(cleared) => ResetKeeps(m, tr, cleared);
    }
    hide Inv, InitializeStep, OpenStep, AfterOpen, ActiveStep, AfterCheck, RespondStep, AfterRespond, Closed;
    hide CommissionStep, ResetStep;
  }

  lemma SeenIsPast(hmac: (Block32, Bytes) -> Block32, m: Machine, tr: Trail, e: Timed)
    requires tr.seen <= e.at
    ensures Next(hmac, m, tr, e).1.seen <= e.at
  {
    hide Stamp, Lock, ActiveStep, AnswerStep, ChallengeSeen, Expired, OpenStep;
  }

  /** After every run of calls in the order of time the invariant holds. */
  lemma {:induction false} RunKeeps(hmac: (Block32, Bytes) -> Block32, m: Machine, tr: Trail, from: nat, es: seq<Timed>)
    requires Inv(m, tr) && tr.seen <= from && InOrder(from, es)
    ensures var (m1, tr1) := Run(hmac, m, tr, es); Inv(m1, tr1)
    decreases |es|
  {
    hide Inv, Next;
    if es != [] {
      NextKeeps(hmac, m, tr, es[0]);
      var (m1, tr1) := Next(hmac, m, tr, es[0]);
      RunKeeps(hmac, m1, tr1, es[0].at, es[1..]);
    }
  }

  /** Whatever happens since power-on, every nonce released is what one call of the random
      source left, each time another one; so nonces from successful calls never repeat
      unless the random source does. */
  lemma RunReleasesFresh(hmac: (Block32, Bytes) -> Block32, es: seq<Timed>, claimId: Block16)
    requires InOrder(0, es)
    ensures var tr := Run(hmac, Start(), NO_TRAIL, es).1;
            && FreshNonces(tr.released, tr.calls)
            && (CallsDiffer(tr.calls) ==> InputsDiffer(tr.released, tr.calls, claimId))
  {
    StartIsSound();
    RunKeeps(hmac, Start(), NO_TRAIL, 0, es);
    var (m, tr) := Run(hmac, Start(), NO_TRAIL, es);
    hide Run, FreshNonces, Remembers, CallsDiffer, InputsDiffer;
    if CallsDiffer(tr.calls) { ReleasesDiffer(tr.released, tr.calls, claimId); }
  }

  // ---- a random source that fails ---------------------------------------------------------------------

  /** A window is opened, opening it again fails and leaves `x` as the nonce, and a
      challenge is answered in the window that is still open. */
  function Spoiling(t: nat, duration: nat, x: Block16, challenge: Block32, failure: Status, opening: Block16,
                    later: Block16, saved: Status): seq<Timed>
  {
    [Timed(t, Opened(duration, Drawn(Ok, opening), saved)),
     Timed(t, Opened(duration, Drawn(failure, x), saved)),
     Timed(t, Challenged(challenge, Crypto(Ok, Zero32(), Drawn(Ok, later)), saved))]
  }

  /** The proof for a challenge and the nonce `x`. */
  function ProofOf(hmac: (Block32, Bytes) -> Block32, m: Machine, x: Block16, challenge: Block32): Block32 {
    hmac(m.material.secret, ProofInput(x, challenge, m.identity.claimId))
  }

  lemma OpensFresh(m: Machine, tr: Trail, t: nat, duration: nat, opening: Block16, saved: Status)
    requires Inv(m, tr) && tr.clean && 0 < duration <= HALF32
    ensures var (status, m1) := OpenStep(m, Stamp(t), duration, Drawn(Ok, opening), saved);
            var tr1 := AfterOpen(m, tr, t, duration, Drawn(Ok, opening), saved);
            && m1.active && m1.material == m.material && m1.identity.claimId == m.identity.claimId
            && tr1 == tr.(seen := t, end := t + duration, timely := true, answered := [],
                          calls := tr.calls + [Drawn(Ok, opening)])
  {
    hide Stamp, Before32;
  }

  lemma OpensSpoiled(m: Machine, tr: Trail, t: nat, duration: nat, failure: Status, x: Block16, saved: Status)
    requires Inv(m, tr) && tr.clean && 0 < duration && !failure.Ok?
    ensures var (status, m1) := OpenStep(m, Stamp(t), duration, Drawn(failure, x), saved);
            var tr1 := AfterOpen(m, tr, t, duration, Drawn(failure, x), saved);
            && m1 == Rotated(m, Drawn(failure, x)) && tr1 == tr.(calls := tr.calls + [Drawn(failure, x)])
  {
    hide Stamp, Before32;
  }

  lemma RespondRest(hmac: (Block32, Bytes) -> Block32, m: Machine, tr: Trail, challenge: Block32, t: nat,
                    c: Crypto, saved: Status)
    requires Inv(m, tr) && tr.clean && RespondStep(hmac, m, challenge, Stamp(t), c, saved).0.Ok? && tr.seen <= t
    ensures var m1 := RespondStep(hmac, m, challenge, Stamp(t), c, saved).2;
            m1.material == m.material && m1.identity.claimId == m.identity.claimId
    ensures AfterRespond(hmac, m, tr, challenge, t, c, saved).seen <= t
    ensures AfterRespond(hmac, m, tr, challenge, t, c, saved).clean
  {
    hide Stamp, Before32, Remembers, FreshNonces, ChallengeSeen;
  }

  lemma SpoiledOnce(hmac: (Block32, Bytes) -> Block32, m: Machine, tr: Trail, t: nat, duration: nat, x: Block16,
                    challenge: Block32, failure: Status, opening: Block16, later: Block16, saved: Status)
    requires Inv(m, tr) && tr.clean && tr.seen <= t && 0 < duration <= HALF32 && !failure.Ok?
    ensures var (m1, tr1) := Run(hmac, m, tr, Spoiling(t, duration, x, challenge, failure, opening, later, saved));
            && Inv(m1, tr1) && tr1.clean && tr1.seen <= t
            && m1.material == m.material && m1.identity.claimId == m.identity.claimId
            && tr1.calls == tr.calls + [Drawn(Ok, opening), Drawn(failure, x), Drawn(Ok, later)]
            && tr1.released == tr.released + [Release(|tr.calls| + 2, x, challenge, ProofOf(hmac, m, x, challenge))]
  {
    var es := Spoiling(t, duration, x, challenge, failure, opening, later, saved);
    var (m1, tr1) := Next(hmac, m, tr, es[0]);
    var (m2, tr2) := Next(hmac, m1, tr1, es[1]);
    var (m3, tr3) := Next(hmac, m2, tr2, es[2]);
    var c := Crypto(Ok, Zero32(), Drawn(Ok, later));
    OpensFresh(m, tr, t, duration, opening, saved);
    NextKeeps(hmac, m, tr, es[0]);
    OpensSpoiled(m1, tr1, t, duration, failure, x, saved);
    NextKeeps(hmac, m1, tr1, es[1]);
    hide Inv, OpenStep, AfterOpen, RespondStep, AfterRespond, Latest, Stamp;
    NothingLatest(challenge);
    RespondIsExact(hmac, m2, tr2, challenge, t, c, saved);
    RespondRest(hmac, m2, tr2, challenge, t, c, saved);
    RunOfThree(hmac, m, tr, es);
  }

  lemma NothingLatest(challenge: Block32)
    ensures challenge !in Latest<Block32>([])
  {}

  lemma RunOfThree(hmac: (Block32, Bytes) -> Block32, m: Machine, tr: Trail, es: seq<Timed>)
    requires |es| == 3
    ensures var (m1, tr1) := Next(hmac, m, tr, es[0]);
            var (m2, tr2) := Next(hmac, m1, tr1, es[1]);
            Run(hmac, m, tr, es) == Next(hmac, m2, tr2, es[2])
  {
    hide Next;
    var (m1, tr1) := Next(hmac, m, tr, es[0]);
    var (m2, tr2) := Next(hmac, m1, tr1, es[1]);
    assert es[1..][1..] == [es[2]] && [es[2]][1..] == [];
    assert Run(hmac, m2, tr2, [es[2]]) == Next(hmac, m2, tr2, es[2]);
    assert Run(hmac, m1, tr1, es[1..]) == Run(hmac, m2, tr2, [es[2]]);
  }

  lemma {:induction false} RunJoins(hmac: (Block32, Bytes) -> Block32, m: Machine, tr: Trail, a: seq<Timed>, b: seq<Timed>)
    ensures var (m1, tr1) := Run(hmac, m, tr, a); Run(hmac, m, tr, a + b) == Run(hmac, m1, tr1, b)
    decreases |a|
  {
    hide Next;
    if a == [] {
      assert a + b == b;
    } else {
      assert (a + b)[1..] == a[1..] + b;
      var (m1, tr1) := Next(hmac, m, tr, a[0]);
      RunJoins(hmac, m1, tr1, a[1..], b);
    }
  }

  /** If the random source may fail, any value can be the nonce of two releases: whatever
      `x` a failing call leaves is used, and the same challenge can get the same proof
      twice. This starts from any state after a successful initialization. */
  lemma SpoiledNonceIsReused(hmac: (Block32, Bytes) -> Block32, m: Machine, tr: Trail, t: nat, duration: nat,
                             x: Block16, challenge: Block32, failure: Status, opening: Block16, later: Block16,
                             opening2: Block16, later2: Block16, saved: Status)
    requires Inv(m, tr) && tr.clean && tr.seen <= t && 0 < duration <= HALF32 && !failure.Ok?
    ensures var es := Spoiling(t, duration, x, challenge, failure, opening, later, saved) +
                      Spoiling(t, duration, x, challenge, failure, opening2, later2, saved);
            var (n, proof) := (|tr.calls|, ProofOf(hmac, m, x, challenge));
            Run(hmac, m, tr, es).1.released ==
              tr.released + [Release(n + 2, x, challenge, proof)] + [Release(n + 5, x, challenge, proof)]
  {
    hide Inv, Run, Spoiling;
    var a := Spoiling(t, duration, x, challenge, failure, opening, later, saved);
    var b := Spoiling(t, duration, x, challenge, failure, opening2, later2, saved);
    SpoiledOnce(hmac, m, tr, t, duration, x, challenge, failure, opening, later, saved);
    var (m1, tr1) := Run(hmac, m, tr, a);
    SpoiledOnce(hmac, m1, tr1, t, duration, x, challenge, failure, opening2, later2, saved);
    RunJoins(hmac, m, tr, a, b);
  }

  // ---- what survives a power cycle ---------------------------------------------------------------------

  /** What flash holds after the calls to the state store, if they reach it in order. */
  function Cell(first: Persistent, store: seq<StoreCall>): Persistent {
    if store == [] then first
    else
      var before := Cell(first, store[..|store| - 1]);
      match store[|store| - 1]
      case Save(p, status) => if status.Ok? then p else before
      case Clear(status) => if status.Ok? then BLANK else before
  }

  lemma CellAfter(first: Persistent, store: seq<StoreCall>, c: StoreCall)
    ensures Cell(first, store + [c]) ==
            match c
            case Save(p, status) => if status.Ok? then p else Cell(first, store)
            case Clear(status) => if status.Ok? then BLANK else Cell(first, store)
  {
    assert (store + [c])[..|store|] == store;
  }

  /** Commissioning and reset answer as the store does; a success is in flash, and a failure
      leaves flash as it was. */
  lemma StoreIsAsked(m: Machine, first: Persistent, answer: Status)
    ensures m.initialized ==>
              var (status, m1) := CommissionStep(m, answer);
              && status == answer && m1.persistent == Persistent(0, 0, 0, true)
              && Cell(first, m1.store) == if answer.Ok? then Persistent(0, 0, 0, true) else Cell(first, m.store)
    ensures !m.initialized ==> CommissionStep(m, answer) == (NotReady, m)
    ensures var (status, m1) := ResetStep(m, answer);
            && status == answer && m1.persistent == BLANK
            && Cell(first, m1.store) == if answer.Ok? then BLANK else Cell(first, m.store)
  {
    CellAfter(first, m.store, Save(Persistent(0, 0, 0, true), answer));
    CellAfter(first, m.store, Clear(answer));
    hide Cell, Before32;
  }

  /** An initialization that succeeds over the state in flash leaves flash and memory
      agreeing, without a lockout. */
  lemma InitializeIsSaved(m: Machine, first: Persistent, material: Material, saved: Status)
    requires InitializeStep(m, Ok, material, Ok, Cell(first, m.store), saved).0.Ok?
    ensures var m1 := InitializeStep(m, Ok, material, Ok, Cell(first, m.store), saved).1;
            Cell(first, m1.store) == m1.persistent == Persistent(0, 0, 0, Cell(first, m.store).claimed)
  {
    CellAfter(first, m.store, Save(Persistent(0, 0, 0, Cell(first, m.store).claimed), saved));
    hide Cell, Before32;
  }

  /** The state store answers a load from its cell; a load that fails may leave what it read
      so far, and zeroes. */
  predicate ReadsCell(e: Event, cell: Persistent) {
    e.Initialized? ==> if e.loaded.Ok? then e.state == cell else e.state.lockoutMs in {0, cell.lockoutMs}
  }

  /** A run without commissioning and reset, over this store. */
  ghost predicate Quiet(hmac: (Block32, Bytes) -> Block32, first: Persistent, m: Machine, tr: Trail, es: seq<Timed>)
    decreases |es|
  {
    es != [] ==>
      var (m1, tr1) := Next(hmac, m, tr, es[0]);
      && !es[0].event.Commissioned? && !es[0].event.WasReset? && ReadsCell(es[0].event, Cell(first, m.store))
      && Quiet(hmac, first, m1, tr1, es[1..])
  }

  /** Flash holds the claimed flag `claimed` and no lockout, and nothing is about to save. */
  predicate Holding(first: Persistent, m: Machine, claimed: bool) {
    Cell(first, m.store) == Persistent(0, 0, 0, claimed) && m.persistent.lockoutMs == 0
  }

  lemma LockIsQuiet(m: Machine, now: nat, saved: Status)
    requires m.persistent.lockoutMs == 0
    ensures Lock(m, now, saved) == (false, m)
  {}

  lemma NextHolds(hmac: (Block32, Bytes) -> Block32, first: Persistent, m: Machine, tr: Trail, e: Timed, claimed: bool)
    requires Holding(first, m, claimed) && !e.event.Commissioned? && !e.event.WasReset?
    requires ReadsCell(e.event, Cell(first, m.store))
    ensures Holding(first, Next(hmac, m, tr, e).0, claimed)
  {
    hide Cell, Stamp, Before32, AfterOpen, AfterCheck, AfterRespond;
    match e.event {
      case Initialized(_, _, _, _, _) =>
      case Opened(duration, random, saved) => LockIsQuiet(m, Stamp(e.at), saved);
      case Checked(saved) => CheckIsQuiet(m, Stamp(e.at), saved);
      case Challenged(challenge, c, saved) =>
        CheckIsQuiet(m, Stamp(e.at), saved);
        LockIsQuiet(ActiveStep(m, Stamp(e.at), saved).1, Stamp(e.at), saved);
        AnswerIsQuiet(hmac, ActiveStep(m, Stamp(e.at), saved).1, challenge, Stamp(e.at), c);
        hide ActiveStep, Lock, AnswerStep;
      case Cancelled =>
    }
  }

  lemma CheckIsQuiet(m: Machine, now: nat, saved: Status)
    requires m.persistent.lockoutMs == 0
    ensures var m1 := ActiveStep(m, now, saved).1; m1.store == m.store && m1.persistent == m.persistent
  {
    hide Before32;
  }

  lemma AnswerIsQuiet(hmac: (Block32, Bytes) -> Block32, m: Machine, challenge: Block32, now: nat, c: Crypto)
    ensures var m1 := AnswerStep(hmac, m, challenge, now, c).2; m1.store == m.store && m1.persistent == m.persistent
  {
    hide Before32, ProofInput, ChallengeSeen;
  }

  lemma {:induction false} QuietHolds(hmac: (Block32, Bytes) -> Block32, first: Persistent, m: Machine, tr: Trail,
                                      es: seq<Timed>, claimed: bool)
    requires Holding(first, m, claimed) && Quiet(hmac, first, m, tr, es)
    ensures Holding(first, Run(hmac, m, tr, es).0, claimed)
    decreases |es|
  {
    hide Next, Holding, ReadsCell;
    if es != [] {
      var (m1, tr1) := Next(hmac, m, tr, es[0]);
      NextHolds(hmac, first, m, tr, es[0], claimed);
      QuietHolds(hmac, first, m1, tr1, es[1..], claimed);
    }
  }

  /** The protocol object after a power-up: nothing is left but what the store was told. */
  function PowerUp(store: seq<StoreCall>): Machine { Start().(store := store) }

  /** The calls to the store after some lives, each from one power-up to the next. */
  function Lives(hmac: (Block32, Bytes) -> Block32, store: seq<StoreCall>, lives: seq<seq<Timed>>): seq<StoreCall>
    decreases |lives|
  {
    if lives == [] then store
    else Lives(hmac, Run(hmac, PowerUp(store), NO_TRAIL, lives[0]).0.store, lives[1..])
  }

  ghost predicate QuietLives(hmac: (Block32, Bytes) -> Block32, first: Persistent, store: seq<StoreCall>,
                             lives: seq<seq<Timed>>)
    decreases |lives|
  {
    lives != [] ==>
      && Quiet(hmac, first, PowerUp(store), NO_TRAIL, lives[0])
      && QuietLives(hmac, first, Run(hmac, PowerUp(store), NO_TRAIL, lives[0]).0.store, lives[1..])
  }

  lemma {:induction false} LivesHold(hmac: (Block32, Bytes) -> Block32, first: Persistent, store: seq<StoreCall>,
                                     lives: seq<seq<Timed>>, claimed: bool)
    requires Cell(first, store) == Persistent(0, 0, 0, claimed) && QuietLives(hmac, first, store, lives)
    ensures Cell(first, Lives(hmac, store, lives)) == Persistent(0, 0, 0, claimed)
    decreases |lives|
  {
    hide Run, Cell, Quiet;
    if lives != [] {
      QuietHolds(hmac, first, PowerUp(store), NO_TRAIL, lives[0], claimed);
      LivesHold(hmac, first, Run(hmac, PowerUp(store), NO_TRAIL, lives[0]).0.store, lives[1..], claimed);
    }
  }

  /** A commissioning that succeeded is found by the next initialization, and so is a reset
      that did: in the same life or after any later ones, as long as nobody commissions or
      resets in between, the device comes up claimed, or factory-new, without saving. */
  lemma ClaimIsFound(hmac: (Block32, Bytes) -> Block32, first: Persistent, m: Machine, tr: Trail, e: Timed,
                     rest: seq<Timed>, lives: seq<seq<Timed>>, material: Material, saved: Status)
    requires (m.initialized && e.event == Commissioned(Ok)) || e.event == WasReset(Ok)
    requires var (m1, tr1) := Next(hmac, m, tr, e);
             && Quiet(hmac, first, m1, tr1, rest)
             && QuietLives(hmac, first, Run(hmac, m1, tr1, rest).0.store, lives)
    ensures var (m1, tr1) := Next(hmac, m, tr, e);
            var store := Lives(hmac, Run(hmac, m1, tr1, rest).0.store, lives);
            var (status, m2) := InitializeStep(PowerUp(store), Ok, material, Ok, Cell(first, store), saved);
            && status == Ok && m2.store == store
            && m2.persistent.claimed == e.event.Commissioned?
            && m2.identity.flags.claimed == e.event.Commissioned? && m2.identity.flags.factoryNew == e.event.WasReset?
  {
    var (m1, tr1) := Next(hmac, m, tr, e);
    var claimed := e.event.Commissioned?;
    StoreIsAsked(m, first, Ok);
    hide Cell, CommissionStep, ResetStep, Run, Quiet, QuietLives, Lives, InitializeStep, Stamp;
    assert Holding(first, m1, claimed);
    QuietHolds(hmac, first, m1, tr1, rest, claimed);
    var store1 := Run(hmac, m1, tr1, rest).0.store;
    LivesHold(hmac, first, store1, lives, claimed);
    var store := Lives(hmac, store1, lives);
    InitializeIsExact(PowerUp(store), Ok, material, Ok, Cell(first, store), saved);
    NoLegacy(PowerUp(store), material, claimed, saved);
  }

  lemma NoLegacy(m: Machine, material: Material, claimed: bool, saved: Status)
    ensures InitializeStep(m, Ok, material, Ok, Persistent(0, 0, 0, claimed), saved).1.store == m.store
  {}

  // ---- the protocol object -----------------------------------------------------------------------

  class RhophiClaimProtocol {
    const hmac: (Block32, Bytes) -> Block32
    const replayCache: array<Block32>
    var material: Material
    var identity: Identity
    var persistent: Persistent
    var expires: nat
    var lockoutUntil: nat
    var replayCount: nat
    var replayNext: nat
    var initialized: bool
    var active: bool
    var store: seq<StoreCall>
    ghost var trail: Trail

    ghost predicate Valid()
      reads this, replayCache
    {
      Inv(Model(), trail) && replayCache.Length == RECENT
    }

    ghost function Model(): Machine
      reads this, replayCache
    {
      Machine(material, identity, persistent, expires, lockoutUntil, replayCache[..], replayCount, replayNext,
              initialized, active, store)
    }

    constructor (hmac: (Block32, Bytes) -> Block32)
      ensures Valid() && fresh(replayCache) && this.hmac == hmac
      ensures Model() == Start() && trail == NO_TRAIL
    {
      this.hmac := hmac;
      replayCache := new Block32[RECENT](_ => Zero32());
      var m := Start();
      material, identity, persistent, expires, lockoutUntil := m.material, m.identity, m.persistent, 0, 0;
      replayCount, replayNext, initialized, active, store := 0, 0, false, false, [];
      trail := NO_TRAIL;
      new;
      assert replayCache[..] == Start().cache;
      StartIsSound();
    }

    method RefreshFlags(now: nat)
      modifies this`identity
      ensures Model() == Refreshed(old(Model()), now)
    {
      identity := identity.(flags := Flags(active, !persistent.claimed, persistent.claimed,
                                           persistent.lockoutMs != 0 && Before32(now, lockoutUntil)));
    }

    method ClearReplay()
      requires replayCache.Length == RECENT
      modifies this`replayCount, this`replayNext, replayCache
      ensures Model() == old(Model()).(cache := seq(RECENT, _ => Zero32()), count := 0, next := 0)
    {
      forall k | 0 <= k < replayCache.Length { replayCache[k] := Zero32(); }
      replayCount, replayNext := 0, 0;
      assert replayCache[..] == seq(RECENT, _ => Zero32());
    }

    method Close()
      requires replayCache.Length == RECENT
      modifies this`identity, this`replayCount, this`replayNext, this`active, this`expires, replayCache
      ensures Model() == Closed(old(Model()))
    {
      active, expires := false, 0;
      identity := identity.(nonce := Zero16());
      ClearReplay();
      hide Refreshed;
      RefreshFlags(0);
    }

    method PersistState(answer: Status) returns (status: Status)
      modifies this`store
      ensures status == answer && store == old(store) + [Save(persistent, answer)]
    {
      store := store + [Save(persistent, answer)];
      status := answer;
    }

    method IsLocked(now: nat, saved: Status) returns (locked: bool)
      modifies this`persistent, this`lockoutUntil, this`store
      ensures (locked, Model()) == Lock(old(Model()), now, saved)
    {
      if persistent.lockoutMs == 0 { return false; }
      if Before32(now, lockoutUntil) { return true; }
      persistent := persistent.(attempts := 0, lockoutMs := 0);
      lockoutUntil := 0;
      var ignored := PersistState(saved);
      return false;
    }

    method RotateNonce(random: Drawn) returns (status: Status)
      modifies this`identity
      ensures status == random.status && Model() == Rotated(old(Model()), random)
    {
      identity := identity.(nonce := random.bytes);
      status := random.status;
    }

    method Initialize(provided: Status, m: Material, loaded: Status, state: Persistent, saved: Status)
      returns (status: Status)
      requires Valid()
      modifies this`material, this`identity, this`persistent, this`lockoutUntil, this`initialized, this`store
      modifies this`trail
      ensures Valid()
      ensures (status, Model()) == InitializeStep(old(Model()), provided, m, loaded, state, saved)
      ensures trail == old(trail).(clean := status.Ok?)
    {
      InitializeKeeps(Model(), trail, provided, m, loaded, state, saved);
      hide Inv, Refreshed;
      status := LoadState(provided, m, loaded, state, saved);
      trail := trail.(clean := status.Ok?);
    }

    method LoadState(provided: Status, m: Material, loaded: Status, state: Persistent, saved: Status)
      returns (status: Status)
      modifies this`material, this`identity, this`persistent, this`lockoutUntil, this`initialized, this`store
      ensures (status, Model()) == InitializeStep(old(Model()), provided, m, loaded, state, saved)
    {
      hide Refreshed;
      material := m;
      if !provided.Ok? { return provided; }
      persistent := state;
      if !loaded.Ok? {
        material := material.(secret := Zero32());
        return loaded;
      }
      identity := identity.(productId := material.productId, claimId := material.claimId);
      hide ForgetStep;
      status := ForgetLockout(saved);
    }

    method ForgetLockout(saved: Status) returns (status: Status)
      modifies this`material, this`identity, this`persistent, this`lockoutUntil, this`initialized, this`store
      ensures (status, Model()) == ForgetStep(old(Model()), saved)
    {
      hide Refreshed, Dropped, Legacy;
      status := DropLockout(saved);
      if !status.Ok? {
        material := material.(secret := Zero32());
        return IoError;
      }
      initialized := true;
      RefreshFlags(0);
    }

    method DropLockout(saved: Status) returns (status: Status)
      modifies this`persistent, this`lockoutUntil, this`store
      ensures Model() == Dropped(old(Model()), saved)
      ensures status == if Legacy(old(persistent)) then saved else Ok
    {
      var legacy := persistent.attempts != 0 || persistent.lockoutLevel != 0 || persistent.lockoutMs != 0;
      persistent := persistent.(attempts := 0, lockoutLevel := 0, lockoutMs := 0);
      lockoutUntil := 0;
      status := Ok;
      if legacy { status := PersistState(saved); }
    }

    method OpenWindow(ghost t: nat, now: nat, duration: nat, random: Drawn, saved: Status) returns (status: Status)
      requires Valid() && now == Stamp(t) && duration < WRAP32
      modifies this, replayCache
      ensures Valid()
      ensures (status, Model()) == OpenStep(old(Model()), now, duration, random, saved)
      ensures trail == AfterOpen(old(Model()), old(trail), t, duration, random, saved)
    {
      OpenKeeps(Model(), trail, t, duration, random, saved);
      hide Inv, Refreshed, Lock, Stamp, AfterOpen;
      ghost var after := AfterOpen(Model(), trail, t, duration, random, saved);
      status := Open(now, duration, random, saved);
      trail := after;
    }

    method Open(now: nat, duration: nat, random: Drawn, saved: Status) returns (status: Status)
      requires replayCache.Length == RECENT
      modifies this, replayCache
      ensures (status, Model()) == OpenStep(old(Model()), now, duration, random, saved) && trail == old(trail)
    {
      hide Refreshed, Lock;
      if !initialized { return NotReady; }
      if duration == 0 { return InvalidArgument; }
      var locked := IsLocked(now, saved);
      if locked {
        RefreshFlags(now);
        return Busy;
      }
      status := RotateNonce(random);
      if !status.Ok? { return; }
      expires := (now + duration) % WRAP32;
      ClearReplay();
      active := true;
      RefreshFlags(now);
    }

    method Cancel()
      requires Valid()
      modifies this, replayCache
      ensures Valid() && Model() == Closed(old(Model())) && trail == old(trail).(answered := [])
    {
      ClosedKeeps(Model(), trail);
      hide Inv, Closed;
      Close();
      trail := trail.(answered := []);
    }

    method IsActive(ghost t: nat, now: nat, saved: Status) returns (open: bool)
      requires Valid() && now == Stamp(t) && trail.seen <= t
      modifies this, replayCache
      ensures Valid()
      ensures (open, Model()) == ActiveStep(old(Model()), now, saved)
      ensures trail == AfterCheck(old(Model()), old(trail), t)
    {
      CheckKeeps(Model(), trail, t, saved);
      hide Inv, ActiveStep, AfterCheck;
      ghost var after := AfterCheck(Model(), trail, t);
      open := Check(now, saved);
      trail := after;
    }

    method CloseIfExpired(now: nat)
      requires replayCache.Length == RECENT
      modifies this`identity, this`replayCount, this`replayNext, this`active, this`expires, replayCache
      ensures Model() == if Expired(old(Model()), now) then Closed(old(Model())) else old(Model())
    {
      hide Closed;
      if active && !Before32(now, expires) { Close(); }
    }

    method Check(now: nat, saved: Status) returns (open: bool)
      requires replayCache.Length == RECENT
      modifies this, replayCache
      ensures (open, Model()) == ActiveStep(old(Model()), now, saved) && trail == old(trail)
    {
      hide Closed, Lock, Refreshed, Expired;
      CloseIfExpired(now);
      ghost var m1 := Model();
      var locked := IsLocked(now, saved);
      ghost var m2 := Model();
      if locked { active := false; }
      assert Model() == if locked then m2.(active := false) else m2;
      hide Before32;
      RefreshFlags(now);
      open := active;
    }

    /** The identity as read by a phone. */
    method IdentityAt(ghost t: nat, now: nat, saved: Status) returns (seen: Identity)
      requires Valid() && now == Stamp(t) && trail.seen <= t
      modifies this, replayCache
      ensures Valid() && seen == identity
      ensures Model() == ActiveStep(old(Model()), now, saved).1
      ensures trail == AfterCheck(old(Model()), old(trail), t)
    {
      var open := IsActive(t, now, saved);
      seen := identity;
    }

    method ChallengeKnown(challenge: Block32) returns (known: bool)
      requires replayCount <= replayCache.Length
      ensures known <==> challenge in replayCache[..replayCount]
    {
      for index := 0 to replayCount
        invariant challenge !in replayCache[..index]
      {
        if replayCache[index] == challenge { return true; }
      }
      return false;
    }

    method RememberChallenge(challenge: Block32)
      requires replayNext < replayCache.Length
      modifies this`replayNext, this`replayCount, replayCache
      ensures Model() == Remembered(old(Model()), challenge)
    {
      replayCache[replayNext] := challenge;
      replayNext := (replayNext + 1) % RECENT;
      replayCount := if replayCount + 1 < RECENT then replayCount + 1 else RECENT;
    }

    method Respond(challenge: Block32, ghost t: nat, now: nat, c: Crypto, saved: Status)
      returns (status: Status, proof: Block32)
      requires Valid() && now == Stamp(t) && trail.seen <= t
      modifies this, replayCache
      ensures Valid()
      ensures (status, proof, Model()) == RespondStep(hmac, old(Model()), challenge, now, c, saved)
      ensures trail == AfterRespond(hmac, old(Model()), old(trail), challenge, t, c, saved)
    {
      RespondKeeps(hmac, Model(), trail, challenge, t, c, saved);
      CheckKeeps(Model(), trail, t, saved);
      ghost var after := AfterRespond(hmac, Model(), trail, challenge, t, c, saved);
      ghost var m1 := ActiveStep(Model(), now, saved).1;
      LockKeeps(m1, AfterCheck(Model(), trail, t), now, saved);
      RingBounds(Lock(m1, now, saved).1, AfterCheck(Model(), trail, t));
      hide Inv, ActiveStep, Lock, AnswerStep, AfterRespond, AfterCheck, Stamp;
      var open := Check(now, saved);
      if !open {
        trail := after;
        return Denied, Zero32();
      }
      var locked := IsLocked(now, saved);
      if locked {
        trail := after;
        return Busy, Zero32();
      }
      status, proof := Answer(challenge, now, c);
      trail := after;
    }

    /** The part of `Respond` behind the checks. */
    method Answer(challenge: Block32, now: nat, c: Crypto) returns (status: Status, proof: Block32)
      requires replayCount <= replayCache.Length == RECENT && replayNext < RECENT
      modifies this, replayCache
      ensures (status, proof, Model()) == AnswerStep(hmac, old(Model()), challenge, now, c) && trail == old(trail)
    {
      hide Refreshed, Remembered, ProofInput;
      assert replayCache[..replayCount] == Model().cache[..replayCount];
      var known := ChallengeKnown(challenge);
      if known { return Denied, Zero32(); }
      if !c.hmac.Ok? { return c.hmac, c.left; }
      proof := hmac(material.secret, ProofInput(identity.nonce, challenge, identity.claimId));
      status := RotateNonce(c.random);
      if !status.Ok? { return status, Zero32(); }
      RememberChallenge(challenge);
      RefreshFlags(now);
    }

    method MarkCommissioned(saved: Status) returns (status: Status)
      requires Valid()
      modifies this, replayCache
      ensures Valid()
      ensures (status, Model()) == CommissionStep(old(Model()), saved)
      ensures trail == if old(initialized) then old(trail).(answered := []) else old(trail)
    {
      CommissionKeeps(Model(), trail, saved);
      hide Inv, Closed;
      if !initialized { return NotReady; }
      persistent := Persistent(0, 0, 0, true);
      lockoutUntil := 0;
      ClosedKeepsRest(Model());
      Close();
      status := PersistState(saved);
      trail := trail.(answered := []);
    }

    method FactoryReset(cleared: Status) returns (status: Status)
      requires Valid()
      modifies this, replayCache
      ensures Valid()
      ensures (status, Model()) == ResetStep(old(Model()), cleared) && trail == old(trail).(answered := [])
    {
      ResetKeeps(Model(), trail, cleared);
      ClosedKeepsRest(Model());
      hide Inv, Closed, Refreshed;
      Close();
      persistent := BLANK;
      lockoutUntil := 0;
      RefreshFlags(0);
      RefreshedKeepsRest(Closed(old(Model())).(persistent := BLANK, lockoutUntil := 0), 0);
      store := store + [Clear(cleared)];
      trail := trail.(answered := []);
      return cleared;
    }
  }

  lemma RingBounds(m: Machine, tr: Trail)
    requires Inv(m, tr)
    ensures m.count <= |m.cache| == RECENT && m.next < RECENT
  {}

  lemma ClosedKeepsRest(m: Machine)
    ensures Closed(m).persistent == m.persistent && Closed(m).store == m.store
    ensures Closed(m).lockoutUntil == m.lockoutUntil
  {}

  lemma RefreshedKeepsRest(m: Machine, now: nat)
    ensures Refreshed(m, now).store == m.store
  {}
}
