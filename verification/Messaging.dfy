/** Messages, the transport port, and the store-and-forward queue. */
module Messaging {
  import opened Uhal
  import opened Topics
  import opened RingBuffer

  const PAYLOAD_CAPACITY := 256
  const QUEUE_DEPTH := 32

  datatype Qos = AtMostOnce | AtLeastOnce

  /** A message by value: what reaches the transport and what a queue record holds. */
  datatype Message = Message(topic: CString, payload: string, qos: Qos, retain: bool, correlationId: nat)

  /** A message as passed around: a topic buffer, and a view of somebody else's payload. */
  datatype Envelope =
    Envelope(topic: array<char>, payload: array<char>, payloadSize: nat, qos: Qos, retain: bool, correlationId: nat)

  ghost predicate WellFormed(e: Envelope) {
    e.topic.Length == TOPIC_CAPACITY && e.payloadSize <= e.payload.Length
  }

  ghost function Seen(e: Envelope): Message
    reads e.topic, e.payload
    requires WellFormed(e)
  {
    Message(CText(e.topic[..]), e.payload[..e.payloadSize], e.qos, e.retain, e.correlationId)
  }

  /** What a queue record can hold: a terminated topic and a bounded payload. */
  predicate Storable(m: Message) {
    |m.topic| < TOPIC_CAPACITY && |m.payload| <= PAYLOAD_CAPACITY
  }

  /** One attempt to publish, and how the transport answered. */
  datatype Attempt = Attempt(message: Message, answer: Status)

  class Transport {
    ghost var log: seq<Attempt>

    constructor ()
      ensures log == []
    {
      log := [];
    }

    method Publish(e: Envelope, answer: Status) returns (status: Status)
      requires WellFormed(e)
      modifies this
      ensures status == answer && log == old(log) + [Attempt(Seen(e), answer)]
    {
      log := log + [Attempt(Seen(e), answer)];
      status := answer;
    }
  }

  // ---- the queue as a function of its contents ------------------------------------------

  /** What a queue of `depth` records makes of a message. */
  function Offered(q: seq<Message>, m: Message, allowDrop: bool, depth: nat): (r: (Status, seq<Message>))
    requires |q| <= depth && depth > 0
    ensures |r.1| <= depth
  {
    if !Storable(m) then (NoResources, q)
    else if |q| < depth then (Ok, q + [m])
    else if allowDrop then (Ok, q[1..] + [m])
    else (NoResources, q)
  }

  /** The last `n` of a sequence. */
  function Last<T>(s: seq<T>, n: nat): (t: seq<T>)
    requires n <= |s|
    ensures |t| == n
  {
    s[|s| - n..]
  }

  /** Nothing is lost but what was committed or evicted, and what is left is in order. */
  ghost predicate Conserved(accepted: seq<Message>, committed: nat, evicted: nat, contents: seq<Message>) {
    && |accepted| == committed + evicted + |contents|
    && contents == Last(accepted, |contents|)
    && forall i :: 0 <= i < |accepted| ==> Storable(accepted[i])
  }

  method DropAndPush(queue: FixedRingBuffer<Message>, queued: Message) returns (status: Status)
    requires queue.Valid() && |queue.Contents()| == queue.entries.Length
    modifies queue, queue.entries
    ensures queue.Valid() && status == Ok && queue.Contents() == old(queue.Contents())[1..] + [queued]
  {
    var ok := queue.DropOldest();
    assert ok && |queue.Contents()| < queue.entries.Length;
    ok := queue.TryPush(queued);
    return if ok then Ok else NoResources;
  }

  class OfflineQueue {
    const queue: FixedRingBuffer<Message>
    var dropped: nat
    /** Every accepted message, the number committed and the number evicted, from the start. */
    ghost var accepted: seq<Message>
    ghost var committed: nat
    ghost var evicted: nat

    ghost predicate Valid()
      reads this, queue, queue.entries
    {
      && queue.Valid()
      && dropped == Stamp(evicted)
      && Conserved(accepted, committed, evicted, Contents())
    }

    ghost function Contents(): seq<Message>
      reads this, queue, queue.entries
      requires queue.Valid()
    {
      queue.Contents()
    }

    constructor (depth: nat)
      requires depth > 0
      ensures Valid() && accepted == [] && committed == 0 && evicted == 0
      ensures queue.entries.Length == depth && fresh(queue) && fresh(queue.entries)
    {
      queue := new FixedRingBuffer<Message>(depth);
      dropped, accepted, committed, evicted := 0, [], 0, 0;
    }

    /** Copies the message: the caller may reuse its buffers afterwards. */
    method Enqueue(e: Envelope, allowDrop: bool) returns (status: Status)
      requires Valid() && WellFormed(e)
      modifies this, queue, queue.entries
      ensures Valid() && committed == old(committed)
      ensures var (expected, contents) := Offered(old(Contents()), Seen(e), allowDrop, queue.entries.Length);
              status == expected && Contents() == contents
      ensures accepted == if status.Ok? then old(accepted) + [Seen(e)] else old(accepted)
      ensures evicted == old(evicted) +
                if status.Ok? && |old(Contents())| == queue.entries.Length then 1 else 0
    {
      if e.payloadSize > PAYLOAD_CAPACITY { return NoResources; }
      var topicSize := TopicSize(e.topic);
      if topicSize >= TOPIC_CAPACITY { return NoResources; }
      var queued := Message(e.topic[..topicSize], e.payload[..e.payloadSize], e.qos, e.retain, e.correlationId);
      assert queued == Seen(e);
      status := Add(queued, allowDrop);
    }

    /** The part of `Enqueue` behind the copy. */
    method Add(queued: Message, allowDrop: bool) returns (status: Status)
      requires Valid() && Storable(queued)
      modifies this, queue, queue.entries
      ensures Valid() && committed == old(committed)
      ensures var (expected, contents) := Offered(old(Contents()), queued, allowDrop, queue.entries.Length);
              status == expected && Contents() == contents
      ensures accepted == if status.Ok? then old(accepted) + [queued] else old(accepted)
      ensures evicted == old(evicted) +
                if status.Ok? && |old(Contents())| == queue.entries.Length then 1 else 0
    {
      ConservedAfterOffer(accepted, committed, evicted, Contents(), queued);
      hide Storable, Conserved, Window, Wrapped;
      var ok := queue.TryPush(queued);
      if ok {
        accepted := accepted + [queued];
        return Ok;
      }
      if !allowDrop { return NoResources; }
      status := Displace(queued);
    }

    /** The part of `Add` for a full queue that may drop its oldest record. */
    method Displace(queued: Message) returns (status: Status)
      requires Valid() && Storable(queued) && |Contents()| == queue.entries.Length
      modifies this, queue, queue.entries
      ensures Valid() && committed == old(committed) && evicted == old(evicted) + 1 && status == Ok
      ensures Contents() == old(Contents())[1..] + [queued] && accepted == old(accepted) + [queued]
    {
      ConservedAfterOffer(accepted, committed, evicted, Contents(), queued);
      TickOfStamp(evicted);
      hide Storable, Conserved, Window, Wrapped, Stamp, Tick;
      status := DropAndPush(queue, queued);
      dropped := Tick(dropped);
      evicted := evicted + 1;
      accepted := accepted + [queued];
    }

    method TopicSize(topic: array<char>) returns (size: nat)
      requires topic.Length == TOPIC_CAPACITY
      ensures size <= TOPIC_CAPACITY && topic[..size] == CText(topic[..])
    {
      size := 0;
      while size < TOPIC_CAPACITY && topic[size] != '\0'
        invariant size <= TOPIC_CAPACITY && '\0' !in topic[..size]
      {
        assert topic[..size + 1] == topic[..size] + [topic[size]];
        size := size + 1;
      }
      if size == TOPIC_CAPACITY {
        assert topic[..] == topic[..size];
        CTextWhole(topic[..]);
      } else {
        CTextOf(topic[..], topic[..size]);
      }
    }

    method Peek() returns (message: Option<Message>)
      requires Valid()
      ensures message == if Contents() == [] then None else Some(Contents()[0])
    {
      message := queue.Peek();
    }

    method CommitFront()
      requires Valid()
      modifies this`committed, queue
      ensures Valid()
      ensures Contents() == if old(Contents()) == [] then [] else old(Contents())[1..]
      ensures committed == old(committed) + if old(Contents()) == [] then 0 else 1
    {
      ConservedAfterCommit(accepted, committed, evicted, Contents());
      var ok := queue.DropOldest();
      if ok { committed := committed + 1; }
    }
  }

  lemma ConservedAfterOffer(accepted: seq<Message>, committed: nat, evicted: nat, q: seq<Message>, m: Message)
    requires Conserved(accepted, committed, evicted, q) && Storable(m)
    ensures Conserved(accepted + [m], committed, evicted, q + [m])
    ensures q != [] ==> Conserved(accepted + [m], committed, evicted + 1, q[1..] + [m])
  {}

  lemma ConservedAfterCommit(accepted: seq<Message>, committed: nat, evicted: nat, q: seq<Message>)
    requires Conserved(accepted, committed, evicted, q)
    ensures q != [] ==> Conserved(accepted, committed + 1, evicted, q[1..])
  {}

  /** A message is accepted if and only if it can be stored and there is room, or the oldest
      record may be dropped for it; then it is the newest record, and the others keep their
      order. */
  lemma OfferIsExact(q: seq<Message>, m: Message, allowDrop: bool, depth: nat)
    requires |q| <= depth && depth > 0
    ensures var (status, q1) := Offered(q, m, allowDrop, depth);
            && (status.Ok? <==> Storable(m) && (|q| < depth || allowDrop))
            && (status.Ok? ==> q1 == Last(q + [m], if |q| < depth then |q| + 1 else depth))
            && (!status.Ok? ==> status == NoResources && q1 == q)
  {}

  /** The queue after offers that may all drop, or that may none. */
  function OfferedAll(q: seq<Message>, ms: seq<Message>, allowDrop: bool, depth: nat): (r: seq<Message>)
    requires |q| <= depth && depth > 0
    ensures |r| <= depth
  {
    if ms == [] then q
    else Offered(OfferedAll(q, ms[..|ms| - 1], allowDrop, depth), ms[|ms| - 1], allowDrop, depth).1
  }

  /** Readings keep the newest that fit, answers the oldest; with room for all of them both
      keep everything, in order. */
  lemma {:induction false} OffersKeep(q: seq<Message>, ms: seq<Message>, allowDrop: bool, depth: nat)
    requires |q| <= depth && depth > 0 && forall m :: m in ms ==> Storable(m)
    ensures var n := if |q| + |ms| < depth then |q| + |ms| else depth;
            OfferedAll(q, ms, allowDrop, depth) == if allowDrop then Last(q + ms, n) else (q + ms)[..n]
  {
    hide Storable, Offered;
    if ms == [] {
      assert q + ms == q;
    } else {
      var (front, m) := (ms[..|ms| - 1], ms[|ms| - 1]);
      OffersKeep(q, front, allowDrop, depth);
      OfferIsExact(OfferedAll(q, front, allowDrop, depth), m, allowDrop, depth);
      assert q + ms == q + front + [m];
      KeepsEnds(q + front, m, depth);
    }
  }

  lemma KeepsEnds(s: seq<Message>, m: Message, depth: nat)
    requires depth > 0
    ensures var n := if |s| < depth then |s| else depth;
            && (|s| < depth ==> Last(s, n) == s && s[..n] == s)
            && (|s| >= depth ==>
                  Last(Last(s, n) + [m], depth) == Last(s + [m], depth) && (s + [m])[..depth] == s[..depth])
  {}

  /** A droppable reading that meets a full queue loses its oldest record for good,
      even if that is a command response; a response never displaces anything. */
  lemma ReadingEvictsOldest(q: seq<Message>, reading: Message, depth: nat)
    requires 0 < depth == |q| && Storable(reading)
    requires q[0] !in q[1..] && q[0] != reading
    ensures q[0] !in Offered(q, reading, true, depth).1
    ensures Offered(q, reading, false, depth) == (NoResources, q)
  {}
}
