/** The claim service over Bluetooth: which connection may read which proof. */
module Gatt {
  import opened Uhal
  import opened Bytes8
  import opened Claim

  const NO_CONNECTION := 0xFFFF

  /** Attribute protocol results. */
  datatype Att = AttOk | InvalidLength | Unlikely | InsufficientAuthor | InsufficientRes

  // ---- sessions as a history ---------------------------------------------------------------

  /** The session is cleared by opening, cancelling, releasing, commissioning or resetting;
      a challenge is refused before it reaches the protocol, or it is put to it. */
  datatype SessionEvent =
    | Ended
    | Refused(connection: nat)
    | Wrote(connection: nat, status: Status, proof: Block32)

  /** The connection that made the last challenge of this session. */
  function Writer(h: seq<SessionEvent>): Option<nat> {
    if h == [] then None
    else
      match h[|h| - 1]
      case Ended => None
      case Refused(_) => Writer(h[..|h| - 1])
      case Wrote(c, _, _) => Some(c)
  }

  /** Who may read which proof. */
  function Holder(h: seq<SessionEvent>): Option<(nat, Block32)> {
    if h == [] then None
    else
      match h[|h| - 1]
      case Ended => None
      case Refused(_) => Holder(h[..|h| - 1])
      case Wrote(c, status, proof) => if status.Ok? then Some((c, proof)) else None
  }

  /** A proof is readable exactly while nothing but refusals followed the successful
      challenge that it answers. */
  lemma {:induction false} HolderIsLastWrite(h: seq<SessionEvent>, c: nat, proof: Block32)
    ensures Holder(h) == Some((c, proof)) <==>
            exists i :: 0 <= i < |h| && h[i] == Wrote(c, Ok, proof) && forall j :: i < j < |h| ==> h[j].Refused?
  {
    if h != [] {
      var (n, rest) := (|h| - 1, h[..|h| - 1]);
      HolderIsLastWrite(rest, c, proof);
      if h[n].Refused? {
        if Holder(rest) == Some((c, proof)) {
          var i :| 0 <= i < n && rest[i] == Wrote(c, Ok, proof) && forall j :: i < j < n ==> rest[j].Refused?;
          assert h[i] == Wrote(c, Ok, proof) && forall j :: i < j < |h| ==> h[j].Refused?;
        }
        if i :| 0 <= i < |h| && h[i] == Wrote(c, Ok, proof) && forall j :: i < j < |h| ==> h[j].Refused? {
          assert rest[i] == Wrote(c, Ok, proof) && forall j :: i < j < n ==> rest[j].Refused?;
        }
      }
    }
  }

  /** A failed challenge of the holder revokes its proof if and only if it got as far as
      the protocol: a malformed one leaves the old proof readable. */
  lemma FailureRevokesIffPut(h: seq<SessionEvent>, c: nat, e: SessionEvent)
    requires Holder(h).Some? && Holder(h).value.0 == c
    requires e == Refused(c) || (e.Wrote? && e.connection == c && !e.status.Ok?)
    ensures Holder(h + [e]) == None <==> e.Wrote?
    ensures e.Refused? ==> Holder(h + [e]) == Holder(h)
  {}

  /** Within a session only one connection gets challenges through. */
  ghost predicate OneWriter(h: seq<SessionEvent>) {
    forall i, j :: 0 <= i < j < |h| && h[i].Wrote? && h[j].Wrote? && h[i].connection != NO_CONNECTION
                   && (forall k :: i < k < j ==> !h[k].Ended?)
                   ==> h[i].connection == h[j].connection
  }

  lemma {:induction false} WriterIsLast(h: seq<SessionEvent>, i: nat)
    requires i < |h| && h[i].Wrote? && forall k :: i < k < |h| ==> !h[k].Ended?
    requires OneWriter(h) && h[i].connection != NO_CONNECTION
    ensures Writer(h) == Some(h[i].connection)
  {
    var n := |h| - 1;
    if h[n].Refused? {
      assert OneWriter(h[..n]);
      WriterIsLast(h[..n], i);
    }
  }

  lemma OneWriterGrows(h: seq<SessionEvent>, e: SessionEvent)
    requires OneWriter(h)
    requires e.Wrote? ==> Writer(h) in {None, Some(NO_CONNECTION), Some(e.connection)}
    ensures OneWriter(h + [e])
  {
    var g := h + [e];
    forall i, j | 0 <= i < j < |g| && g[i].Wrote? && g[j].Wrote? && g[i].connection != NO_CONNECTION
                  && (forall k :: i < k < j ==> !g[k].Ended?)
      ensures g[i].connection == g[j].connection
    {
      if j == |h| {
        assert forall k :: i < k < |h| ==> h[k] == g[k];
        WriterIsLast(h, i);
      } else {
        assert forall k :: i < k < j ==> h[k] == g[k];
      }
    }
  }

  /** The one registered object. */
  class Registry {
    var holder: RhophiClaimGatt?

    constructor ()
      ensures holder == null
    {
      holder := null;
    }
  }

  class RhophiClaimGatt {
    const protocol: RhophiClaimProtocol
    var response: Block32
    var ready: bool
    var claimConnection: nat
    var responseValid: bool
    ghost var history: seq<SessionEvent>

    ghost predicate Valid()
      reads this, protocol, protocol.replayCache
    {
      && protocol.Valid()
      && OneWriter(history)
      && Matches(history, claimConnection, responseValid, response)
      && (!ready ==> claimConnection == NO_CONNECTION && !responseValid)
    }

    constructor (protocol: RhophiClaimProtocol)
      requires protocol.Valid()
      ensures Valid() && this.protocol == protocol && history == [] && !ready
    {
      this.protocol := protocol;
      response, ready, claimConnection, responseValid, history := Zero32(), false, NO_CONNECTION, false, [];
    }

    /** Creates the lock and registers the characteristics: before that no call gets
        anywhere. Only one object is ever registered. */
    method Initialize(registry: Registry, created: bool, configured: bool) returns (status: Status)
      requires Valid() && (ready ==> registry.holder == this)
      modifies this`ready, registry
      ensures Valid() && ready == (old(ready) || status.Ok?) && (ready ==> registry.holder == this)
      ensures status == if old(registry.holder) != null then Busy else if !created then NoResources
                        else if !configured then IoError else Ok
      ensures registry.holder == if status.Ok? then this else old(registry.holder)
    {
      if registry.holder != null { return Busy; }
      if !created { return NoResources; }
      if !configured { return IoError; }
      ready := true;
      registry.holder := this;
      return Ok;
    }

    method ClearSession()
      requires OneWriter(history)
      modifies this`response, this`claimConnection, this`responseValid, this`history
      ensures history == old(history) + [Ended] && claimConnection == NO_CONNECTION && !responseValid
      ensures OneWriter(history) && Matches(history, claimConnection, responseValid, response)
    {
      OneWriterGrows(history, Ended);
      claimConnection, responseValid, response := NO_CONNECTION, false, Zero32();
      history := history + [Ended];
    }

    method OpenWindow(ghost t: nat, now: nat, duration: nat, random: Drawn, saved: Status) returns (status: Status)
      requires Valid() && now == Stamp(t) && duration < WRAP32
      modifies this, protocol, protocol.replayCache
      ensures Valid() && history == old(history) + if ready then [Ended] else []
      ensures !ready ==> status == NotReady && protocol.Model() == old(protocol.Model())
      ensures ready ==> (status, protocol.Model()) == OpenStep(old(protocol.Model()), now, duration, random, saved)
    {
      hide OneWriter, Matches, Inv, OpenStep, AfterOpen;
      if !ready { return NotReady; }
      ClearSession();
      status := protocol.OpenWindow(t, now, duration, random, saved);
    }

    method Cancel()
      requires Valid()
      modifies this, protocol, protocol.replayCache
      ensures Valid() && history == old(history) + if ready then [Ended] else []
      ensures protocol.Model() == if ready then Closed(old(protocol.Model())) else old(protocol.Model())
    {
      hide OneWriter, Matches, Inv, Closed;
      if !ready { return; }
      protocol.Cancel();
      ClearSession();
    }

    method ReleaseSession()
      requires Valid()
      modifies this
      ensures Valid() && history == old(history) + if ready then [Ended] else []
    {
      hide OneWriter, Matches, Inv;
      if !ready { return; }
      ClearSession();
    }

    method MarkCommissioned(saved: Status) returns (status: Status)
      requires Valid()
      modifies this, protocol, protocol.replayCache
      ensures Valid() && history == old(history) + if ready then [Ended] else []
      ensures !ready ==> status == NotReady && protocol.Model() == old(protocol.Model())
      ensures ready ==> (status, protocol.Model()) == CommissionStep(old(protocol.Model()), saved)
    {
      hide OneWriter, Matches, Inv, CommissionStep;
      if !ready { return NotReady; }
      status := protocol.MarkCommissioned(saved);
      ClearSession();
    }

    method FactoryReset(cleared: Status) returns (status: Status)
      requires Valid()
      modifies this, protocol, protocol.replayCache
      ensures Valid() && history == old(history) + if ready then [Ended] else []
      ensures !ready ==> status == NotReady && protocol.Model() == old(protocol.Model())
      ensures ready ==> (status, protocol.Model()) == ResetStep(old(protocol.Model()), cleared)
    {
      hide OneWriter, Matches, Inv, ResetStep;
      if !ready { return NotReady; }
      ClearSession();
      status := protocol.FactoryReset(cleared);
    }

    /** A challenge is put to the protocol only for the connection that has the session,
        or for any if none has; only then does it replace or revoke the readable proof. */
    method WriteChallenge(connection: nat, data: Bytes, copied: bool, ghost t: nat, now: nat, c: Crypto, saved: Status,
                          notified: bool) returns (result: Att)
      requires Valid() && now == Stamp(t) && protocol.trail.seen <= t
      modifies this, protocol, protocol.replayCache
      ensures Valid()
      ensures var through := |data| == 32 && copied && ready
                             && old(claimConnection) in {NO_CONNECTION, connection};
              if !through then
                history == old(history) + [Refused(connection)] && protocol.Model() == old(protocol.Model())
                && result != AttOk
              else
                var (status, proof, m) := RespondStep(protocol.hmac, old(protocol.Model()), data, now, c, saved);
                history == old(history) + [Wrote(connection, status, proof)] && protocol.Model() == m
                && (result.AttOk? <==> status.Ok? && notified)
    {
      hide Inv, RespondStep, AfterRespond;
      OneWriterGrows(history, Refused(connection));
      assert (history + [Refused(connection)])[..|history|] == history;
      ghost var refused := history + [Refused(connection)];
      hide OneWriter;
      if |data| != 32 || !copied || !ready {
        history := refused;
        return if |data| != 32 then InvalidLength else Unlikely;
      }
      if claimConnection != NO_CONNECTION && claimConnection != connection {
        history := refused;
        return InsufficientAuthor;
      }
      result := Put(connection, data, t, now, c, saved, notified);
    }

    /** The part of `WriteChallenge` that reaches the protocol. */
    method Put(connection: nat, data: Block32, ghost t: nat, now: nat, c: Crypto, saved: Status, notified: bool)
      returns (result: Att)
      requires Valid() && now == Stamp(t) && protocol.trail.seen <= t && ready
      requires claimConnection in {NO_CONNECTION, connection}
      modifies this, protocol, protocol.replayCache
      ensures Valid() && ready
      ensures var (status, proof, m) := RespondStep(protocol.hmac, old(protocol.Model()), data, now, c, saved);
              history == old(history) + [Wrote(connection, status, proof)] && protocol.Model() == m
              && (result.AttOk? <==> status.Ok? && notified)
    {
      hide Inv, RespondStep, AfterRespond;
      claimConnection := connection;
      var status;
      status, response := protocol.Respond(data, t, now, c, saved);
      responseValid := status.Ok?;
      OneWriterGrows(history, Wrote(connection, status, response));
      hide OneWriter;
      history := history + [Wrote(connection, status, response)];
      if status.Denied? { return InsufficientAuthor; }
      if status.Busy? { return InsufficientRes; }
      if !status.Ok? { return Unlikely; }
      return if notified then AttOk else Unlikely;
    }

    /** Succeeds exactly for the connection that may read, with exactly its proof. */
    method ReadResponse(connection: nat, room: bool) returns (result: Att, data: Block32)
      requires Valid()
      ensures result.AttOk? <==> room && Holder(history).Some? && Holder(history).value.0 == connection
      ensures result.AttOk? ==> data == Holder(history).value.1
    {
      if !ready { return Unlikely, Zero32(); }
      if claimConnection != connection || !responseValid { return InsufficientAuthor, Zero32(); }
      if !room { return InsufficientRes, Zero32(); }
      return AttOk, response;
    }

    /** Looks at the window, and leaves the session alone even if the window is over. */
    method ReadState(ghost t: nat, now: nat, saved: Status, room: bool) returns (result: Att, state: nat)
      requires Valid() && now == Stamp(t) && protocol.trail.seen <= t
      modifies protocol, protocol.replayCache
      ensures Valid()
      ensures result == if !ready then Unlikely else if room then AttOk else InsufficientRes
      ensures result.AttOk? ==> state == if ActiveStep(old(protocol.Model()), now, saved).0 then 1 else 0
    {
      hide OneWriter, Matches, Inv, ActiveStep, AfterCheck;
      if !ready { return Unlikely, 0; }
      var active := protocol.IsActive(t, now, saved);
      return if room then AttOk else InsufficientRes, if active then 1 else 0;
    }

    /** Ends the session, for the connection that has it. */
    method WriteCancel(connection: nat, size: nat) returns (result: Att)
      requires Valid()
      modifies this, protocol, protocol.replayCache
      ensures Valid()
      ensures result == if size != 0 then InvalidLength else if !ready then Unlikely
                        else if old(claimConnection) != connection then InsufficientAuthor else AttOk
      ensures history == old(history) + if result.AttOk? then [Ended] else []
      ensures protocol.Model() == if result.AttOk? then Closed(old(protocol.Model())) else old(protocol.Model())
    {
      hide OneWriter, Matches, Inv, Closed;
      if size != 0 { return InvalidLength; }
      if !ready { return Unlikely; }
      if claimConnection != connection { return InsufficientAuthor; }
      protocol.Cancel();
      ClearSession();
      return AttOk;
    }
  }

  /** The session fields say what the history says. */
  ghost predicate Matches(h: seq<SessionEvent>, connection: nat, valid: bool, response: Block32) {
    && connection == (if Writer(h).None? then NO_CONNECTION else Writer(h).value)
    && Holder(h) == if valid then Some((connection, response)) else None
  }
}
