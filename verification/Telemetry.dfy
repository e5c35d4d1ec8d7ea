/** Readings published live or queued, and the replay of queued messages. */
module Telemetry {
  import opened Uhal
  import opened JsonText
  import opened Json
  import opened Topics
  import opened RingBuffer
  import opened Messaging

  function ReadingFields(utc: nat, sequence: nat, value: bool): seq<Field> {
    [Field("ts", Num(utc)), Field("seq", Num(sequence)), Field("value", Flag(value))]
  }

  lemma ReadingIsGood(utc: nat, sequence: nat, value: bool)
    requires utc <= MAX_U32 && sequence <= MAX_U32
    ensures GoodFields(ReadingFields(utc, sequence, value))
    ensures |Printed(ReadingFields(utc, sequence, value))| < PAYLOAD_CAPACITY
  {
    hide GoodFields, Printed, Decimal;
    DecimalIsShort(utc);
    DecimalIsShort(sequence);
    ThreeFields(Field("ts", Num(utc)), Field("seq", Num(sequence)), Field("value", Flag(value)));
  }

  /** A 32-bit number has at most ten digits. */
  lemma DecimalIsShort(n: nat)
    requires n <= MAX_U32
    ensures |Decimal(n)| <= 10
  {
    DigitsWithin(n, 10);
  }

  lemma {:induction false} DigitsWithin(n: nat, k: nat)
    requires 1 <= k <= 10 && n <= Limit(10 - k)
    ensures |Decimal(n)| <= k
  {
    if n >= 10 {
      if k == 1 { TenDigits(); }
      LimitStep(n, 10 - k);
      DigitsWithin(n / 10, k - 1);
    }
  }

  /** A reading scans back to what was measured. */
  lemma ReadingScansBack(utc: nat, sequence: nat, value: bool)
    requires utc <= MAX_U32 && sequence <= MAX_U32
    ensures var t := Printed(ReadingFields(utc, sequence, value));
            ReadsAs(t, "ts", Num(utc)) && ReadsAs(t, "seq", Num(sequence)) && ReadsAs(t, "value", Flag(value))
  {
    hide *;
    ReadingIsGood(utc, sequence, value);
    PrintedIsScanned(ReadingFields(utc, sequence, value), "");
    ReadingFieldsAre(utc, sequence, value);
  }

  lemma ReadingFieldsAre(utc: nat, sequence: nat, value: bool)
    ensures var fs := ReadingFields(utc, sequence, value);
            |fs| == 3 && fs[0] == Field("ts", Num(utc)) && fs[1] == Field("seq", Num(sequence))
            && fs[2] == Field("value", Flag(value))
  {}

  class TelemetryService {
    const transport: Transport
    const queue: OfflineQueue
    const topics: MqttTopics
    var sequence: nat

    constructor (transport: Transport, queue: OfflineQueue, topics: MqttTopics)
      ensures this.transport == transport && this.queue == queue && this.topics == topics && sequence == 0
    {
      this.transport, this.queue, this.topics, sequence := transport, queue, topics, 0;
    }

    ghost predicate Valid()
      reads this, queue, queue.queue, queue.queue.entries
    {
      queue.Valid() && sequence <= MAX_U32
    }

    /** The message of a reading. */
    function Reading(channel: CString, value: bool, utc: nat): Message
      reads this
    {
      Message(TopicText(topics.site, topics.device, TelemetryTopic, Some(channel)),
              Printed(ReadingFields(utc, sequence, value)), AtMostOnce, false, 0)
    }

    /** A reading goes to the telemetry topic of its channel, at most once and not retained,
        and says when it was taken, its number and its value. */
    lemma ReadingIsTold(channel: CString, value: bool, utc: nat)
      requires utc <= MAX_U32 && sequence <= MAX_U32
      ensures var m := Reading(channel, value, utc);
              && m.topic == "asd/v1/" + topics.site + "/" + topics.device + "/telemetry/" + channel
              && m.qos == AtMostOnce && !m.retain && m.correlationId == 0
              && ReadsAs(m.payload, "ts", Num(utc)) && ReadsAs(m.payload, "seq", Num(sequence))
              && ReadsAs(m.payload, "value", Flag(value))
    {
      ReadingScansBack(utc, sequence, value);
      TelemetryText(topics.site, topics.device, channel);
      hide ReadsAs, Printed, TopicText;
    }

    /** Every reading whose topic fits is either published or offered to the queue as
        droppable, and takes one sequence number; nothing else can go wrong. */
    method PublishBool(channel: CString, value: bool, utc: nat, connected: bool, answer: Status) returns (status: Status)
      requires Valid() && utc <= MAX_U32
      modifies this, transport, queue, queue.queue, queue.queue.entries
      ensures Valid()
      ensures var m := old(Reading(channel, value, utc));
              if |m.topic| >= TOPIC_CAPACITY then
                status == NoResources && sequence == old(sequence) && transport.log == old(transport.log)
                && queue.Contents() == old(queue.Contents())
              else
                && status == Ok && sequence == Tick(old(sequence))
                && transport.log == old(transport.log) + (if connected then [Attempt(m, answer)] else [])
                && queue.Contents() ==
                     if connected && answer.Ok? then old(queue.Contents())
                     else Offered(old(queue.Contents()), m, true, queue.queue.entries.Length).1
    {
      var e;
      status, e := Compose(channel, value, utc);
      if !status.Ok? { return; }
      sequence := Tick(sequence);
      if connected {
        status := transport.Publish(e, answer);
        if status.Ok? { return; }
      }
      status := queue.Enqueue(e, true);
    }

    /** The envelope of a reading. */
    method Compose(channel: CString, value: bool, utc: nat) returns (status: Status, e: Envelope)
      requires Valid() && utc <= MAX_U32
      ensures WellFormed(e) && fresh(e.topic) && fresh(e.payload)
      ensures var m := Reading(channel, value, utc);
              status == (if |m.topic| < TOPIC_CAPACITY then Ok else NoResources)
              && (status.Ok? ==> Seen(e) == m && Storable(m))
    {
      var payload := new char[PAYLOAD_CAPACITY](_ => '\0');
      var topic := new char[TOPIC_CAPACITY](_ => '\0');
      e := Envelope(topic, payload, 0, AtMostOnce, false, 0);
      var writer := new JsonWriter(payload, PAYLOAD_CAPACITY);
      ReadingIsGood(utc, sequence, value);
      var ok := PrintObject(writer, ReadingFields(utc, sequence, value));
      if !ok { return NoResources, e; }
      hide *;
      status := topics.Build(topic, TelemetryTopic, Some(channel));
      if !status.Ok? { return; }
      CTextOf(topic[..], TopicText(topics.site, topics.device, TelemetryTopic, Some(channel)));
      e := e.(payloadSize := writer.position);
    }

    /** Publishes the oldest queued message as it was enqueued; it leaves the queue only
        when the transport took it. */
    method ReplayOne(connected: bool, answer: Status) returns (status: Status)
      requires Valid()
      modifies transport, queue, queue.queue
      ensures Valid()
      ensures var q := old(queue.Contents());
              if !connected || q == [] then
                status == (if connected then NotFound else NotReady)
                && transport.log == old(transport.log) && queue.Contents() == q
              else
                && status == answer && transport.log == old(transport.log) + [Attempt(q[0], answer)]
                && queue.Contents() == (if answer.Ok? then q[1..] else q)
                && queue.committed == old(queue.committed) + if answer.Ok? then 1 else 0
    {
      if !connected { return NotReady; }
      var queued := queue.Peek();
      if queued.None? { return NotFound; }
      FrontIsStorable(queue);
      var e := Restore(queued.value);
      status := transport.Publish(e, answer);
      if status.Ok? { queue.CommitFront(); }
    }

    method Restore(queued: Message) returns (e: Envelope)
      requires Storable(queued)
      ensures WellFormed(e) && fresh(e.topic) && fresh(e.payload) && Seen(e) == queued
    {
      var topic := new char[TOPIC_CAPACITY](_ => '\0');
      var i := 0;
      while i + 1 < TOPIC_CAPACITY && i < |queued.topic|
        invariant i <= |queued.topic| && topic[..i] == queued.topic[..i]
        invariant forall k :: i <= k < TOPIC_CAPACITY ==> topic[k] == '\0'
      {
        topic[i] := queued.topic[i];
        i := i + 1;
      }
      CTextOf(topic[..], queued.topic);
      var payload := new char[|queued.payload|](k requires 0 <= k < |queued.payload| => queued.payload[k]);
      assert payload[..|queued.payload|] == queued.payload;
      e := Envelope(topic, payload, |queued.payload|, queued.qos, queued.retain, queued.correlationId);
    }
  }

  lemma FrontIsStorable(queue: OfflineQueue)
    requires queue.Valid() && queue.Contents() != []
    ensures Storable(queue.Contents()[0])
  {}
}
