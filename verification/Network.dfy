/** Retry delays, and the manager that starts network links. */
module Network {
  import opened Uhal

  const MAX_ATTEMPTS := 10
  const LINKS := 2

  /** The delay drawn by the k-th attempt. */
  function Delay(k: nat): (d: nat)
    ensures 30000 <= d <= 300000
  {
    if k == 0 then 30000 else if k == 1 then 60000 else if k == 2 then 120000 else if k == 3 then 240000 else 300000
  }

  /** The delays start at half a minute and double up to four minutes, then stay at five. */
  lemma DelaysDouble(k: nat)
    ensures Delay(0) == 30000
    ensures k < 3 ==> Delay(k + 1) == 2 * Delay(k)
    ensures k >= 4 ==> Delay(k) == 300000
  {}

  class BackoffPolicy {
    const maxAttempts: nat
    var attempt: nat

    constructor (maxAttempts: nat := MAX_ATTEMPTS)
      ensures attempt == 0 && this.maxAttempts == maxAttempts
    {
      this.maxAttempts, attempt := maxAttempts, 0;
    }

    method NextDelay() returns (delay: nat)
      modifies this
      ensures delay == Delay(old(attempt))
      ensures attempt == if old(attempt) < maxAttempts then old(attempt) + 1 else old(attempt)
    {
      var delays := [30000, 60000, 120000, 240000, 300000];
      var index := if attempt < |delays| then attempt else |delays| - 1;
      if attempt < maxAttempts { attempt := attempt + 1; }
      delay := delays[index];
    }

    method Reset()
      modifies this
      ensures attempt == 0
    {
      attempt := 0;
    }

    predicate Exhausted()
      reads this
    {
      attempt >= maxAttempts
    }
  }

  // ---- one link ---------------------------------------------------------------------------

  /** The retry state of a link. */
  datatype Link = Link(attempt: nat, retryAt: nat)

  /** A start, in true time, and the delay drawn with it. */
  datatype Start = Start(at: nat, delay: nat)

  /** Every start of a link, and how many since it was last selected as up. */
  datatype Trail = Trail(starts: seq<Start>, run: nat)

  predicate Startable(link: Link, now: nat) { link.attempt < MAX_ATTEMPTS && !Before32(now, link.retryAt) }

  function Started(link: Link, now: nat): Link {
    Link(if link.attempt < MAX_ATTEMPTS then link.attempt + 1 else link.attempt,
         (now + Delay(link.attempt)) % WRAP32)
  }

  function AfterStart(link: Link, tr: Trail, t: nat): Trail {
    Trail(tr.starts + [Start(t, Delay(link.attempt))], tr.run + 1)
  }

  /** The k-th start since the link was last up. */
  function InRun(tr: Trail, k: nat): Start
    requires k < tr.run <= |tr.starts|
  {
    tr.starts[|tr.starts| - tr.run + k]
  }

  predicate Spaced(starts: seq<Start>) {
    forall k :: 0 < k < |starts| ==> starts[k - 1].at + starts[k - 1].delay <= starts[k].at
  }

  /** Starts keep the drawn distances, across resets too; no run has more than ten. */
  predicate Inv(link: Link, tr: Trail) {
    && link.attempt == tr.run <= MAX_ATTEMPTS && tr.run <= |tr.starts|
    && Spaced(tr.starts)
    && (forall s :: s in tr.starts ==> s.delay <= 300000)
    && (forall k :: 0 <= k < tr.run ==> InRun(tr, k).delay == Delay(k))
    && (tr.starts != [] ==> var s := tr.starts[|tr.starts| - 1]; link.retryAt == Stamp(s.at + s.delay))
  }

  /** The earliest time of the next start. */
  function Due(tr: Trail): nat {
    if tr.starts == [] then 0 else var s := tr.starts[|tr.starts| - 1]; s.at + s.delay
  }

  predicate NotBefore(tr: Trail, t: nat) { tr.starts != [] ==> tr.starts[|tr.starts| - 1].at <= t }

  /** However far apart the polls are and however often the counter wraps, a link is never
      started before its delay is over. */
  lemma StartKeepsDistance(link: Link, tr: Trail, t: nat)
    requires Inv(link, tr) && NotBefore(tr, t) && Startable(link, Stamp(t))
    ensures Due(tr) <= t
    ensures Inv(Started(link, Stamp(t)), AfterStart(link, tr, t))
  {
    StartIsDue(link, tr, t);
    StampAdds(t, Delay(link.attempt));
    var tr1 := AfterStart(link, tr, t);
    hide Stamp, Before32, Delay;
    assert Spaced(tr1.starts);
    hide Spaced;
    forall k | 0 <= k < tr1.run ensures InRun(tr1, k).delay == Delay(k) {
      if k < tr.run { assert InRun(tr1, k) == InRun(tr, k); }
    }
  }

  lemma StartIsDue(link: Link, tr: Trail, t: nat)
    requires Inv(link, tr) && NotBefore(tr, t) && Startable(link, Stamp(t))
    ensures Due(tr) <= t
  {
    if tr.starts != [] && t < Due(tr) {
      assert tr.starts[|tr.starts| - 1] in tr.starts;
      StampsAgree(t, Due(tr));
    }
    hide Stamp, Before32, Delay, Spaced, InRun;
  }

  /** Once due, and not left alone for half a turn, a link that is not exhausted may start. */
  lemma DueLinkIsStartable(link: Link, tr: Trail, t: nat)
    requires Inv(link, tr) && tr.starts != [] && NotBefore(tr, t) && t < Due(tr) + HALF32
    ensures Startable(link, Stamp(t)) <==> tr.run < MAX_ATTEMPTS && Due(tr) <= t
  {
    assert tr.starts[|tr.starts| - 1] in tr.starts;
    StampsAgree(t, Due(tr));
    hide Stamp, Before32, Delay, Spaced, InRun;
  }

  /** The sum of the first `k` delays. */
  function TotalDelay(k: nat): nat { if k == 0 then 0 else TotalDelay(k - 1) + Delay(k - 1) }

  lemma {:induction false} RunTakes(link: Link, tr: Trail, k: nat)
    requires Inv(link, tr) && k < tr.run
    ensures InRun(tr, 0).at + TotalDelay(k) <= InRun(tr, k).at
  {
    if k > 0 {
      RunTakes(link, tr, k - 1);
      assert InRun(tr, k - 1).delay == Delay(k - 1);
    }
  }

  /** Ten starts without the link being up take at least 1950 seconds. */
  lemma TenStartsTakeLong(link: Link, tr: Trail)
    requires Inv(link, tr) && tr.run == MAX_ATTEMPTS
    ensures InRun(tr, 0).at + 1950000 <= InRun(tr, 9).at
  {
    RunTakes(link, tr, 9);
    NineDelays();
    hide *;
  }

  lemma NineDelays()
    ensures TotalDelay(9) == 1950000
  {
    assert TotalDelay(3) == 210000;
    assert TotalDelay(5) == 750000;
    assert TotalDelay(7) == 1350000;
  }

  lemma ResetKeeps(link: Link, tr: Trail)
    requires Inv(link, tr)
    ensures Inv(link.(attempt := 0), tr.(run := 0))
  {}

  // ---- all links ----------------------------------------------------------------------------

  datatype ConnectivityState = Offline | Connecting | OnlinePrimary | OnlineBackup | ProvisioningRequired

  /** A call of the observer, with the link it is about. */
  datatype Notice = Notice(state: ConnectivityState, link: nat)

  datatype Tracked = Tracked(link: Link, trail: Trail)

  ghost predicate AllInv(ts: seq<Tracked>, clock: nat) {
    forall i :: 0 <= i < |ts| ==> Inv(ts[i].link, ts[i].trail) && NotBefore(ts[i].trail, clock)
  }

  function StartedAt(x: Tracked, t: nat): Tracked {
    Tracked(Started(x.link, Stamp(t)), AfterStart(x.link, x.trail, t))
  }

  /** Tries the links from the i-th on, up to the first one that takes the start: the links
      afterwards, and which were started. */
  function StartFrom(ts: seq<Tracked>, i: nat, t: nat, answers: seq<Status>): (seq<Tracked>, seq<nat>)
    requires i <= |ts| <= |answers|
    decreases |ts| - i
  {
    if i == |ts| then (ts, [])
    else if !Startable(ts[i].link, Stamp(t)) then StartFrom(ts, i + 1, t, answers)
    else
      var ts1 := ts[i := StartedAt(ts[i], t)];
      if answers[i].Ok? || answers[i].Busy? then (ts1, [i])
      else
        var (ts2, started) := StartFrom(ts1, i + 1, t, answers);
        (ts2, [i] + started)
  }

  predicate TakesStart(status: Status) { status.Ok? || status.Busy? }

  /** A link that may start, with none before it from `i` on that took a start. */
  ghost predicate ToStart(ts: seq<Tracked>, i: nat, k: int, t: nat, answers: seq<Status>) {
    && i <= k < |ts| <= |answers| && Startable(ts[k].link, Stamp(t))
    && forall j :: i <= j < k && Startable(ts[j].link, Stamp(t)) ==> !TakesStart(answers[j])
  }

  /** Exactly the startable links are started, in order, up to the first one that takes the
      start; all others stay as they are. */
  lemma {:induction false} StartsAreFirst(ts: seq<Tracked>, i: nat, t: nat, answers: seq<Status>)
    requires i <= |ts| <= |answers|
    ensures var (ts1, started) := StartFrom(ts, i, t, answers);
            && |ts1| == |ts|
            && (forall k :: 0 <= k < |ts| ==>
                  ts1[k] == if ToStart(ts, i, k, t, answers) then StartedAt(ts[k], t) else ts[k])
            && (forall k: nat :: k in started <==> ToStart(ts, i, k, t, answers))
            && Rising(started)
            && (started == [] <==> forall k :: i <= k < |ts| ==> !Startable(ts[k].link, Stamp(t)))
    decreases |ts| - i
  {
    hide Startable, StartedAt, Stamp;
    if i < |ts| {
      if !Startable(ts[i].link, Stamp(t)) {
        StartsAreFirst(ts, i + 1, t, answers);
        SkipsOne(ts, i, t, answers);
      } else if TakesStart(answers[i]) {
        TakesOne(ts, i, t, answers);
      } else {
        var ts1 := ts[i := StartedAt(ts[i], t)];
        StartsAreFirst(ts1, i + 1, t, answers);
        GoesOn(ts, ts1, i, t, answers);
        RisingFront(i, StartFrom(ts1, i + 1, t, answers).1);
      }
    }
  }

  predicate Rising(ks: seq<nat>) { forall a, b :: 0 <= a < b < |ks| ==> ks[a] < ks[b] }

  lemma RisingFront(i: nat, ks: seq<nat>)
    requires Rising(ks) && forall k :: k in ks ==> i < k
    ensures Rising([i] + ks)
  {
    var all := [i] + ks;
    forall a, b | 0 <= a < b < |all| ensures all[a] < all[b] {
      assert all[b] == ks[b - 1] && ks[b - 1] in ks;
      if a > 0 { assert all[a] == ks[a - 1]; }
    }
  }

  lemma SkipsOne(ts: seq<Tracked>, i: nat, t: nat, answers: seq<Status>)
    requires i < |ts| <= |answers| && !Startable(ts[i].link, Stamp(t))
    ensures forall k: nat :: ToStart(ts, i, k, t, answers) <==> ToStart(ts, i + 1, k, t, answers)
  {
    hide Startable, Stamp;
  }

  lemma TakesOne(ts: seq<Tracked>, i: nat, t: nat, answers: seq<Status>)
    requires i < |ts| <= |answers| && Startable(ts[i].link, Stamp(t)) && TakesStart(answers[i])
    ensures forall k: nat :: ToStart(ts, i, k, t, answers) <==> k == i
  {
    hide Startable, Stamp;
  }

  lemma GoesOn(ts: seq<Tracked>, ts1: seq<Tracked>, i: nat, t: nat, answers: seq<Status>)
    requires i < |ts| == |ts1| <= |answers| && Startable(ts[i].link, Stamp(t)) && !TakesStart(answers[i])
    requires forall k :: i < k < |ts| ==> ts1[k] == ts[k]
    ensures forall k: nat :: ToStart(ts, i, k, t, answers) <==> k == i || ToStart(ts1, i + 1, k, t, answers)
  {
    hide Startable, Stamp;
  }

  /** One poll, link by link: the first one that is up is selected, and starts over with its
      retries; with none up, the links are started in order until one takes it, and the node
      is connecting if and only if one was started. */
  lemma PollIsExact(ts: seq<Tracked>, t: nat, up: seq<bool>, answers: seq<Status>)
    requires |up| == |ts| <= |answers|
    ensures var (ts1, state) := PollStep(ts, t, up, answers);
            && |ts1| == |ts|
            && (forall k :: 0 <= k < |ts| && up[k] && (forall j :: 0 <= j < k ==> !up[j]) ==>
                  && state == (if k == 0 then OnlinePrimary else OnlineBackup)
                  && ts1[k].link == ts[k].link.(attempt := 0)
                  && forall j :: 0 <= j < |ts| && j != k ==> ts1[j] == ts[j])
            && ((forall k :: 0 <= k < |ts| ==> !up[k]) ==>
                  && (forall k :: 0 <= k < |ts| ==>
                        ts1[k] == if ToStart(ts, 0, k, t, answers) then StartedAt(ts[k], t) else ts[k])
                  && (state == Connecting <==> exists k :: 0 <= k < |ts| && Startable(ts[k].link, Stamp(t)))
                  && (state == Connecting || state == Offline))
  {
    hide Startable, StartedAt, Stamp, ToStart, StartFrom;
    StartsAreFirst(ts, 0, t, answers);
  }

  lemma {:induction false} StartFromKeeps(ts: seq<Tracked>, i: nat, clock: nat, t: nat, answers: seq<Status>)
    requires i <= |ts| <= |answers| && clock <= t
    requires forall k :: 0 <= k < i ==> Inv(ts[k].link, ts[k].trail) && NotBefore(ts[k].trail, t)
    requires forall k :: i <= k < |ts| ==> Inv(ts[k].link, ts[k].trail) && NotBefore(ts[k].trail, clock)
    ensures |StartFrom(ts, i, t, answers).0| == |ts|
    ensures AllInv(StartFrom(ts, i, t, answers).0, t)
    decreases |ts| - i
  {
    hide Inv, Startable, StartedAt;
    if i < |ts| {
      assert NotBefore(ts[i].trail, t);
      if !Startable(ts[i].link, Stamp(t)) {
        StartFromKeeps(ts, i + 1, clock, t, answers);
      } else {
        StartedKeeps(ts[i], t);
        StartFromKeeps(ts[i := StartedAt(ts[i], t)], i + 1, clock, t, answers);
      }
    }
  }

  lemma StartedKeeps(x: Tracked, t: nat)
    requires Inv(x.link, x.trail) && NotBefore(x.trail, t) && Startable(x.link, Stamp(t))
    ensures Inv(StartedAt(x, t).link, StartedAt(x, t).trail) && NotBefore(StartedAt(x, t).trail, t)
  {
    StartKeepsDistance(x.link, x.trail, t);
    hide Inv;
  }

  function FirstUp(up: seq<bool>): (r: Option<nat>)
    ensures r.Some? ==> r.value < |up| && up[r.value] && forall k :: 0 <= k < r.value ==> !up[k]
    ensures r.None? ==> forall k :: 0 <= k < |up| ==> !up[k]
  {
    if up == [] then None
    else if up[0] then Some(0)
    else match FirstUp(up[1..]) case None => None case Some(k) => Some(k + 1)
  }

  /** The links and the connectivity after one poll: the first link that is up is selected
      and starts over with its retries; otherwise links are started. */
  function PollStep(ts: seq<Tracked>, t: nat, up: seq<bool>, answers: seq<Status>): (seq<Tracked>, ConnectivityState)
    requires |up| == |ts| <= |answers|
  {
    match FirstUp(up)
    case Some(i) => (ts[i := Restarted(ts[i])], if i == 0 then OnlinePrimary else OnlineBackup)
    case None =>
      var (ts1, started) := StartFrom(ts, 0, t, answers);
      (ts1, if started != [] then Connecting else Offline)
  }

  function Restarted(x: Tracked): Tracked { Tracked(x.link.(attempt := 0), x.trail.(run := 0)) }

  lemma PollKeeps(ts: seq<Tracked>, clock: nat, t: nat, up: seq<bool>, answers: seq<Status>)
    requires |up| == |ts| <= |answers| && AllInv(ts, clock) && clock <= t
    ensures |PollStep(ts, t, up, answers).0| == |ts| && AllInv(PollStep(ts, t, up, answers).0, t)
  {
    match FirstUp(up) {
      case Some(i) => ResetKeeps(ts[i].link, ts[i].trail);
      case None => StartFromKeeps(ts, 0, clock, t, answers);
    }
    hide Inv, StartFrom;
  }

  const UNUSED := Trail([], 0)

  lemma UnusedIsFine(retryAt: nat, clock: nat)
    ensures Inv(Link(0, retryAt), UNUSED) && NotBefore(UNUSED, clock)
  {}

  class NetworkManager {
    const first: BackoffPolicy
    const second: BackoffPolicy
    const retryAt: array<nat>
    var count: nat
    var active: nat
    var state: ConnectivityState
    /** The links whose `start` was called. */
    var starts: seq<nat>
    /** Whether there is an observer, and what it was told. */
    var observed: bool
    var published: seq<Notice>
    ghost var trails: seq<Trail>
    ghost var clock: nat

    ghost predicate Shape()
      reads this
    {
      first != second && first.maxAttempts == second.maxAttempts == MAX_ATTEMPTS && retryAt.Length == LINKS && count <= LINKS && |trails| == LINKS
    }

    ghost predicate Valid()
      reads this, first, second, retryAt
    {
      && Shape() && AllInv(Model(), clock)
      && (count < 1 ==> trails[0] == UNUSED && first.attempt == 0)
      && (count < 2 ==> trails[1] == UNUSED && second.attempt == 0)
      && (active < count || active == LINKS)
    }

    function Policy(i: nat): BackoffPolicy
      reads this
      requires i < LINKS
    {
      if i == 0 then first else second
    }

    ghost function Model(): (ts: seq<Tracked>)
      reads this, first, second, retryAt
      requires Shape()
      ensures |ts| == count
    {
      [Tracked(Link(first.attempt, retryAt[0]), trails[0]), Tracked(Link(second.attempt, retryAt[1]), trails[1])][..count]
    }

    constructor ()
      ensures Valid() && fresh(first) && fresh(second) && fresh(retryAt)
      ensures count == 0 && state == ProvisioningRequired && clock == 0 && !observed && published == [] && starts == []
    {
      first := new BackoffPolicy();
      second := new BackoffPolicy();
      retryAt := new nat[LINKS](_ => 0);
      count, active, state, observed, published := 0, LINKS, ProvisioningRequired, false, [];
      trails, clock, starts := [UNUSED, UNUSED], 0, [];
    }

    method SetObserver(present: bool)
      requires Valid()
      modifies this`observed
      ensures Valid() && observed == present
    {
      observed := present;
    }

    method AddLink() returns (status: Status)
      requires Valid()
      modifies this`count, this`state
      ensures Valid()
      ensures status == if old(count) < LINKS then Ok else NoResources
      ensures count == old(count) + if status.Ok? then 1 else 0
      ensures state == if status.Ok? && old(state).ProvisioningRequired? then Offline else old(state)
    {
      if count >= LINKS { return NoResources; }
      UnusedIsFine(retryAt[count], clock);
      hide Inv, NotBefore;
      ghost var before := Model();
      count := count + 1;
      assert Model() == before + [Tracked(Link(0, retryAt[count - 1]), UNUSED)];
      if state.ProvisioningRequired? { state := Offline; }
      return Ok;
    }

    /** The observer hears of changes only, and of none while no link is registered. */
    method Publish(next: ConnectivityState, index: nat)
      modifies this`state, this`published
      ensures state == next
      ensures published == old(published) +
                if old(state) == next || !observed || index >= count then [] else [Notice(next, index)]
    {
      if state == next { return; }
      state := next;
      if observed && index < count { published := published + [Notice(next, index)]; }
    }

    method Poll(ghost t: nat, now: nat, up: seq<bool>, answers: seq<Status>)
      requires Valid() && now == Stamp(t) && clock <= t && |up| == count <= |answers|
      modifies this`active, this`state, this`published, this`starts, this`trails, this`clock, first, second, retryAt
      ensures Valid() && clock == t
      ensures (Model(), state) == PollStep(old(Model()), t, up, answers)
      ensures active == match FirstUp(up) case Some(i) => i case None => LINKS
      ensures starts == old(starts) + if FirstUp(up).Some? then [] else StartFrom(old(Model()), 0, t, answers).1
      ensures published == old(published) +
                if old(state) == state || !observed || count == 0 then []
                else [Notice(state, if FirstUp(up).Some? then FirstUp(up).value else 0)]
    {
      PollKeeps(Model(), clock, t, up, answers);
      hide AllInv, StartFrom, Stamp;
      clock := t;
      for i := 0 to count
        invariant forall k :: 0 <= k < i ==> !up[k]
      {
        if up[i] {
          FirstUpIs(up, i);
          Select(i);
          return;
        }
      }
      active := LINKS;
      NoneUp(up);
      var attempted := StartLinks(t, now, answers);
      Publish(if attempted then Connecting else Offline, 0);
    }

    /** A link that is up: its retries start over. */
    method Select(i: nat)
      requires Shape() && i < count
      modifies this`active, this`state, this`published, this`trails, first, second
      ensures Shape() && Model() == old(Model())[i := Restarted(old(Model())[i])] && active == i
      ensures state == (if i == 0 then OnlinePrimary else OnlineBackup)
      ensures published == old(published) + if old(state) == state || !observed then [] else [Notice(state, i)]
      ensures forall k :: count <= k < LINKS ==>
                trails[k] == old(trails[k]) && Policy(k).attempt == old(Policy(k).attempt)
    {
      active := i;
      Policy(i).Reset();
      trails := trails[i := trails[i].(run := 0)];
      assert Model()[i] == Restarted(old(Model())[i]);
      assert forall k :: 0 <= k < count && k != i ==> Model()[k] == old(Model())[k];
      Publish(if i == 0 then OnlinePrimary else OnlineBackup, i);
    }

    /** The part of `Poll` for no link being up. */
    method StartLinks(ghost t: nat, now: nat, answers: seq<Status>) returns (attempted: bool)
      requires Shape() && now == Stamp(t) && count <= |answers|
      modifies this`trails, this`starts, first, second, retryAt
      ensures Shape() && Model() == StartFrom(old(Model()), 0, t, answers).0
      ensures starts == old(starts) + StartFrom(old(Model()), 0, t, answers).1
      ensures attempted <==> StartFrom(old(Model()), 0, t, answers).1 != []
      ensures forall k :: count <= k < LINKS ==>
                trails[k] == old(trails[k]) && Policy(k).attempt == old(Policy(k).attempt)
    {
      attempted := false;
      ghost var (whole, started) := StartFrom(Model(), 0, t, answers);
      for i := 0 to count
        invariant Shape()
        invariant whole == StartFrom(Model(), i, t, answers).0
        invariant old(starts) + started == starts + StartFrom(Model(), i, t, answers).1
        invariant started != [] <==> attempted || StartFrom(Model(), i, t, answers).1 != []
        invariant forall k :: count <= k < LINKS ==>
                    trails[k] == old(trails[k]) && Policy(k).attempt == old(Policy(k).attempt)
      {
        if !Policy(i).Exhausted() && !Before32(now, retryAt[i]) {
          StartLink(i, t, now);
          attempted := true;
          if answers[i].Ok? || answers[i].Busy? { return; }
        }
      }
    }

    method StartLink(i: nat, ghost t: nat, now: nat)
      requires Shape() && i < count && now == Stamp(t)
      modifies this`trails, this`starts, first, second, retryAt
      ensures Shape() && Model() == old(Model())[i := StartedAt(old(Model())[i], t)] && starts == old(starts) + [i]
      ensures forall k :: count <= k < LINKS ==>
                trails[k] == old(trails[k]) && Policy(k).attempt == old(Policy(k).attempt)
    {
      trails := trails[i := AfterStart(Model()[i].link, trails[i], t)];
      starts := starts + [i];
      var delay := Policy(i).NextDelay();
      retryAt[i] := (now + delay) % WRAP32;
    }
  }

  lemma {:induction false} FirstUpIs(up: seq<bool>, i: nat)
    requires i < |up| && up[i] && forall k :: 0 <= k < i ==> !up[k]
    ensures FirstUp(up) == Some(i)
  {}

  lemma NoneUp(up: seq<bool>)
    requires forall k :: 0 <= k < |up| ==> !up[k]
    ensures FirstUp(up) == None
  {}
}
