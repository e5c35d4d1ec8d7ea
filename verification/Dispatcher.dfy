/** Commands: parsed, authorized and handled once, answered every time. */
module Dispatcher {
  import opened Uhal
  import opened JsonText
  import opened Json
  import opened Topics
  import opened RingBuffer
  import opened Messaging
  import opened Telemetry
  import opened Recent

  const ID_CAPACITY := 16
  const NAME_CAPACITY := 24
  const HANDLER_CAPACITY := 16
  const IDEMPOTENCY_WINDOW := RECENT

  datatype Request = Request(id: CString, name: CString, value: bool, hasValue: bool)
  datatype Response = Response(status: Status, state: bool)

  /** Calls into the authorizer and the handlers, and what they answered. */
  datatype Call = Authorize(request: Request, answer: Status) | Handle(handler: nat, request: Request, response: Response)

  /** A command that the authorizer was asked about, the names of the handlers registered
      at that time, and what it was answered with. */
  datatype Done = Done(request: Request, names: seq<CString>, response: Response)

  datatype CacheEntry = Unused | Cached(id: CString, response: Response)

  function Code(status: Status): nat {
    match status
    case Ok => 0
    case Timeout => 1
    case Nack => 2
    case BusError => 3
    case Busy => 4
    case IoError => 5
    case Unsupported => 6
    case InvalidArgument => 7
    case NotFound => 8
    case NoResources => 9
    case Corrupt => 10
    case NotReady => 11
    case Denied => 12
    case Aborted => 13
  }

  /** The codes of different states differ; zero is success. */
  lemma CodesDiffer(a: Status, b: Status)
    ensures Code(a) == Code(b) <==> a == b
    ensures Code(Ok) == 0 && Code(a) < 14
  {}

  // ---- parsing -------------------------------------------------------------------------

  function Parse(payload: string): Option<Request> {
    match (GetString(payload, "id", ID_CAPACITY), GetString(payload, "name", NAME_CAPACITY))
    case (Some(id), Some(name)) =>
      var flag := GetFlag(payload, "value");
      Some(Request(CText(id), CText(name), flag == Some(true), flag.Some?))
    case _ => None
  }

  /** A command printed as an object is parsed as what it says, with and without a value, as
      long as its id and name fit their buffers. */
  lemma PrintedIsParsed(id: CString, name: CString, value: bool)
    requires |id| < ID_CAPACITY && |name| < NAME_CAPACITY
    ensures Parse(Printed([Field("id", Str(id)), Field("name", Str(name)), Field("value", Flag(value))]))
            == Some(Request(id, name, value, true))
    ensures Parse(Printed([Field("id", Str(id)), Field("name", Str(name))])) == Some(Request(id, name, false, false))
  {
    var (a, b, c) := (Field("id", Str(id)), Field("name", Str(name)), Field("value", Flag(value)));
    CommandIsGood(a, b, c);
    CTextWhole(id);
    CTextWhole(name);
    hide *;
    ThreeScanned(a, b, c);
    TwoScanned(a, b);
    ParseReads(Printed([a, b, c]), id, name, Some(value));
    ParseReads(Printed([a, b]), id, name, None);
  }

  lemma ThreeScanned(a: Field, b: Field, c: Field)
    requires GoodFields([a, b, c]) && a.key == "id" && b.key == "name" && c.key == "value" && c.value.Flag?
    ensures var t := Printed([a, b, c]);
            ReadsAs(t, "id", a.value) && ReadsAs(t, "name", b.value) && GetFlag(t, "value") == Some(c.value.b)
  {
    hide GoodFields, Printed, GetFlag, GetNumber, GetString;
    var fs := [a, b, c];
    PrintedIsScanned(fs, "");
    assert ReadsAs(Printed(fs), fs[0].key, fs[0].value) && ReadsAs(Printed(fs), fs[1].key, fs[1].value);
    assert ReadsAs(Printed(fs), fs[2].key, fs[2].value);
  }

  lemma TwoScanned(a: Field, b: Field)
    requires GoodFields([a, b]) && a.key == "id" && b.key == "name"
    ensures var t := Printed([a, b]);
            ReadsAs(t, "id", a.value) && ReadsAs(t, "name", b.value) && GetFlag(t, "value") == None
  {
    hide *;
    var fs := [a, b];
    PrintedIsScanned(fs, "");
    assert fs[0] == a && fs[1] == b && |fs| == 2;
    ValueIsAbsent(fs);
  }

  lemma ValueIsAbsent(fs: seq<Field>)
    requires GoodFields(fs) && |fs| == 2 && fs[0].key == "id" && fs[1].key == "name"
    ensures GetFlag(Printed(fs), "value") == None
  {
    ValueKey();
    FlagIsAbsent(fs);
    hide *;
    NeitherKey(fs, "value");
  }

  lemma NeitherKey(fs: seq<Field>, key: string)
    requires GoodFields(fs) && GoodKey(key) && |fs| == 2 && fs[0].key != key && fs[1].key != key
    ensures Search(Printed(fs), key) == None
  {
    hide *;
    PrintedIsScanned(fs, key);
  }

  lemma ValueKey()
    ensures GoodKey("value") && "id" != "value" && "name" != "value"
  {
    PlainIsGood("value");
    hide GoodKey;
  }

  lemma CommandIsGood(a: Field, b: Field, c: Field)
    requires a.key == "id" && b.key == "name" && c.key == "value" && Fits(a.value) && Fits(b.value) && Fits(c.value)
    ensures GoodFields([a, b, c]) && GoodFields([a, b])
  {
    hide Fits;
    ThreeFields(a, b, c);
    hide GoodKey;
    assert [a, b, c][0] == a && [a, b, c][1] == b;
    forall i | 0 <= i < 2 ensures [a, b][i] == [a, b, c][i] {}
  }

  lemma FlagIsAbsent(fs: seq<Field>)
    ensures Search(Printed(fs), "value") == None ==> GetFlag(Printed(fs), "value") == None
  {}

  lemma ParseReads(t: string, id: CString, name: CString, flag: Option<bool>)
    requires |id| < ID_CAPACITY && |name| < NAME_CAPACITY
    requires ReadsAs(t, "id", Str(id)) && ReadsAs(t, "name", Str(name)) && GetFlag(t, "value") == flag
    requires CText(id) == id && CText(name) == name
    ensures Parse(t) == Some(Request(id, name, flag == Some(true), flag.Some?))
  {
    hide GetString, GetNumber, GetFlag, CText;
    assert GetString(t, "id", ID_CAPACITY) == Some(id);
    assert GetString(t, "name", NAME_CAPACITY) == Some(name);
  }

  lemma ParsedIdFits(payload: string)
    ensures Parse(payload).Some? ==> |Parse(payload).value.id| < ID_CAPACITY
  {
    StringFits(payload, "id", ID_CAPACITY);
  }

  lemma StringFits(payload: string, key: string, capacity: nat)
    ensures GetString(payload, key, capacity).Some? ==> |GetString(payload, key, capacity).value| < capacity
  {
    hide Search;
    match Search(payload, key) {
      case None =>
      case Some(u) => if u != [] && capacity > 0 { ReadFits(u[1..], capacity - 1); }
    }
  }

  lemma {:induction false} ReadFits(t: string, room: nat)
    ensures ReadString(t, room).Some? ==> |ReadString(t, room).value| <= room
  {
    if t != [] && t[0] != '"' && room > 0 {
      ReadFits(t[(if t[0] == '\\' && |t| > 1 then 1 else 0) + 1..], room - 1);
    }
  }

  // ---- the commands processed so far -----------------------------------------------------

  /** The answer to `id` among the last eight commands processed. */
  function Recall(history: seq<Done>, id: CString, depth: nat): Option<Response> {
    var n := |history|;
    if n == 0 || depth == 0 then None
    else if history[n - 1].request.id == id then Some(history[n - 1].response)
    else Recall(history[..n - 1], id, depth - 1)
  }

  predicate InWindow(history: seq<Done>, k: int) { |history| - IDEMPOTENCY_WINDOW <= k < |history| && 0 <= k }

  /** No command is processed again before eight others were. */
  ghost predicate Spaced(history: seq<Done>) {
    forall i, j :: 0 <= i < j < |history| && j - i <= IDEMPOTENCY_WINDOW ==> history[i].request.id != history[j].request.id
  }

  lemma {:induction false} RecallNone(history: seq<Done>, id: CString, depth: nat)
    requires forall k :: 0 <= k < |history| && |history| - depth <= k ==> history[k].request.id != id
    ensures Recall(history, id, depth) == None
  {
    if history != [] && depth > 0 { RecallNone(history[..|history| - 1], id, depth - 1); }
  }

  lemma {:induction false} RecallSome(history: seq<Done>, k: nat, depth: nat)
    requires k < |history| && |history| - depth <= k
    requires forall j :: k < j < |history| ==> history[j].request.id != history[k].request.id
    ensures Recall(history, history[k].request.id, depth) == Some(history[k].response)
  {
    var n := |history|;
    if k < n - 1 { RecallSome(history[..n - 1], k, depth - 1); }
  }

  /** A repeated command within the window is recognised, and gets its first answer;
      any other is new. */
  lemma RecallIsExact(history: seq<Done>, id: CString)
    requires Spaced(history)
    ensures forall k :: InWindow(history, k) && history[k].request.id == id ==>
              Recall(history, id, IDEMPOTENCY_WINDOW) == Some(history[k].response)
    ensures (forall k :: InWindow(history, k) ==> history[k].request.id != id) ==>
              Recall(history, id, IDEMPOTENCY_WINDOW) == None
              && forall d: Done :: d.request.id == id ==> Spaced(history + [d])
  {
    forall k | InWindow(history, k) && history[k].request.id == id
      ensures Recall(history, id, IDEMPOTENCY_WINDOW) == Some(history[k].response)
    {
      RecallSome(history, k, IDEMPOTENCY_WINDOW);
    }
    if forall k :: InWindow(history, k) ==> history[k].request.id != id {
      forall k | 0 <= k < |history| && |history| - IDEMPOTENCY_WINDOW <= k ensures history[k].request.id != id {
        assert InWindow(history, k);
      }
      RecallNone(history, id, IDEMPOTENCY_WINDOW);
    }
  }

  /** The ids the authorizer was asked about. */
  function AskedFor(calls: seq<Call>): seq<CString> {
    if calls == [] then []
    else
      var (rest, last) := (AskedFor(calls[..|calls| - 1]), calls[|calls| - 1]);
      if last.Authorize? then rest + [last.request.id] else rest
  }

  function Ids(history: seq<Done>): (ids: seq<CString>)
    ensures |ids| == |history| && forall i :: 0 <= i < |history| ==> ids[i] == history[i].request.id
  {
    seq(|history|, i requires 0 <= i < |history| => history[i].request.id)
  }

  // ---- the cache -------------------------------------------------------------------------

  function SlotContent(history: seq<Done>, s: nat): CacheEntry
    requires s < IDEMPOTENCY_WINDOW
  {
    if s < |history| then
      var d := history[Owner(|history|, s)];
      Cached(d.request.id, d.response)
    else Unused
  }

  /** The cache is the last eight commands. */
  ghost predicate Holds(entries: seq<CacheEntry>, cacheIndex: nat, history: seq<Done>) {
    && |entries| == IDEMPOTENCY_WINDOW
    && cacheIndex == |history| % IDEMPOTENCY_WINDOW
    && forall s :: 0 <= s < IDEMPOTENCY_WINDOW ==> entries[s] == SlotContent(history, s)
  }

  /** The calls that one command takes: the authorizer is asked first. What it refuses is
      answered with its own status; what it lets through goes to the first handler of that
      name and is answered as that handler says, or, if there is none, as not found. */
  ghost predicate Takes(d: Done, more: seq<Call>) {
    && more != [] && more[0].Authorize? && more[0].request == d.request
    && (!more[0].answer.Ok? ==> |more| == 1 && d.response == Response(more[0].answer, false))
    && (more[0].answer.Ok? && d.request.name !in d.names ==> |more| == 1 && d.response == Response(NotFound, false))
    && (more[0].answer.Ok? && d.request.name in d.names ==>
          && |more| == 2 && more[1].Handle? && more[1].request == d.request && more[1].response == d.response
          && IsFirst(d.names, more[1].handler, d.request.name))
  }

  predicate IsFirst(names: seq<CString>, k: nat, name: CString) {
    k < |names| && names[k] == name && name !in names[..k]
  }

  /** All calls are those of the commands processed, one after the other. */
  ghost predicate Explained(history: seq<Done>, calls: seq<Call>) {
    if history == [] then calls == []
    else
      exists n :: 0 <= n <= |calls| && Explained(history[..|history| - 1], calls[..n])
                  && Takes(history[|history| - 1], calls[n..])
  }

  lemma ExplainedMore(history: seq<Done>, calls: seq<Call>, d: Done, more: seq<Call>)
    requires Explained(history, calls) && Takes(d, more)
    ensures Explained(history + [d], calls + more)
  {
    hide Takes;
    var n := |calls|;
    assert (history + [d])[..|history|] == history;
    assert (calls + more)[..n] == calls && (calls + more)[n..] == more;
  }

  predicate NextIsNew(calls: seq<Call>, k: nat) { k < |calls| ==> calls[k].Authorize? }

  /** For every command processed: where its authorizer was asked, what handler was called
      directly behind that, if any, and how the answer comes from theirs. */
  lemma {:induction false} CommandIsAnswered(history: seq<Done>, calls: seq<Call>, i: nat) returns (k: nat)
    requires Explained(history, calls) && i < |history|
    ensures k < |calls| && |AskedFor(calls[..k])| == i
    ensures var d := history[i];
            && calls[k].Authorize? && calls[k].request == d.request
            && (!calls[k].answer.Ok? ==> d.response == Response(calls[k].answer, false) && NextIsNew(calls, k + 1))
            && (calls[k].answer.Ok? && d.request.name !in d.names ==>
                  d.response == Response(NotFound, false) && NextIsNew(calls, k + 1))
            && (calls[k].answer.Ok? && d.request.name in d.names ==>
                  && k + 1 < |calls| && calls[k + 1].Handle? && calls[k + 1].request == d.request
                  && IsFirst(d.names, calls[k + 1].handler, d.request.name) && d.response == calls[k + 1].response
                  && NextIsNew(calls, k + 2))
  {
    var n :| 0 <= n <= |calls| && Explained(history[..|history| - 1], calls[..n])
             && Takes(history[|history| - 1], calls[n..]);
    var more := calls[n..];
    assert calls[n] == more[0];
    if i == |history| - 1 {
      k := n;
      AskedInAll(history[..i], calls[..n]);
      assert |more| == 2 ==> calls[n + 1] == more[1];
    } else {
      k := CommandIsAnswered(history[..|history| - 1], calls[..n], i);
      assert calls[..n][..k] == calls[..k];
    }
  }

  lemma {:induction false} AskedInAll(history: seq<Done>, calls: seq<Call>)
    requires Explained(history, calls)
    ensures AskedFor(calls) == Ids(history)
  {
    hide Takes, AskedFor, Ids;
    if history == [] {
      AskedNothing();
    } else {
      var front := history[..|history| - 1];
      var n :| 0 <= n <= |calls| && Explained(front, calls[..n]) && Takes(history[|history| - 1], calls[n..]);
      AskedInAll(front, calls[..n]);
      AskedAdds(calls[..n], calls[n..]);
      assert calls == calls[..n] + calls[n..];
      AskedOnce(history[|history| - 1], calls[n..]);
      IdsAdd(front, history[|history| - 1]);
      assert history == front + [history[|history| - 1]];
    }
  }

  lemma AskedNothing()
    ensures AskedFor([]) == Ids([]) == []
  {}

  lemma IdsAdd(history: seq<Done>, d: Done)
    ensures Ids(history + [d]) == Ids(history) + [d.request.id]
  {}

  lemma AskedOnce(d: Done, more: seq<Call>)
    requires Takes(d, more)
    ensures AskedFor(more) == [d.request.id] && Permitted(more)
  {
    var first := [more[0]];
    assert first[..0] == [];
    assert AskedFor(first) == [d.request.id];
    if |more| == 1 {
      assert more == first;
    } else {
      assert more[..|more| - 1] == first;
      assert AskedFor(more) == AskedFor(first);
    }
  }

  /** Handlers are only ever added. */
  ghost predicate Registered(history: seq<Done>, names: seq<CString>) {
    forall d :: d in history ==> d.names <= names
  }

  lemma RegisteredMore(history: seq<Done>, d: Done, names: seq<CString>)
    requires Registered(history, names) && d.names == names
    ensures Registered(history + [d], names)
  {}

  lemma RegisteredStill(history: seq<Done>, names: seq<CString>, name: CString)
    requires Registered(history, names)
    ensures Registered(history, names + [name])
  {}

  lemma AccountedSpaced(history: seq<Done>, calls: seq<Call>)
    requires Accounted(history, calls)
    ensures Spaced(history)
  {}

  lemma HasEight(entries: seq<CacheEntry>, cacheIndex: nat, history: seq<Done>)
    requires Holds(entries, cacheIndex, history)
    ensures |entries| == IDEMPOTENCY_WINDOW && cacheIndex < IDEMPOTENCY_WINDOW
  {}

  lemma CacheHits(entries: seq<CacheEntry>, cacheIndex: nat, history: seq<Done>, s: nat)
    requires Holds(entries, cacheIndex, history) && Spaced(history) && s < |entries| && entries[s].Cached?
    ensures Recall(history, entries[s].id, IDEMPOTENCY_WINDOW) == Some(entries[s].response)
  {
    RecallIsExact(history, entries[s].id);
    assert InWindow(history, Owner(|history|, s));
    hide Spaced, Recall;
  }

  lemma CacheMisses(entries: seq<CacheEntry>, cacheIndex: nat, history: seq<Done>, id: CString)
    requires Holds(entries, cacheIndex, history) && Spaced(history)
    requires forall t :: 0 <= t < |entries| ==> entries[t] == Unused || entries[t].id != id
    ensures Recall(history, id, IDEMPOTENCY_WINDOW) == None
  {
    RecallIsExact(history, id);
    hide Spaced, Recall;
    forall k | InWindow(history, k) ensures history[k].request.id != id {
      OwnerOf(|history|, k);
      assert entries[k % IDEMPOTENCY_WINDOW] == SlotContent(history, k % IDEMPOTENCY_WINDOW);
    }
  }

  /** Every command was authorized exactly once when it was processed, and its answer is kept. */
  ghost predicate Accounted(history: seq<Done>, calls: seq<Call>) {
    && (forall d :: d in history ==> |d.request.id| < ID_CAPACITY)
    && Spaced(history)
    && AskedFor(calls) == Ids(history)
    && Permitted(calls)
    && Explained(history, calls)
  }

  /** A handler is only called right after its request was authorized. */
  ghost predicate Permitted(calls: seq<Call>) {
    forall k :: 0 <= k < |calls| && calls[k].Handle? ==> k > 0 && calls[k - 1] == Authorize(calls[k].request, Ok)
  }

  /** Nobody is asked about an id again before eight others were processed, and a handler
      is called at most once for each time that the authorizer was asked. */
  lemma AskedAgainAfterEight(history: seq<Done>, calls: seq<Call>, i: nat, j: nat)
    requires Accounted(history, calls) && i < j < |AskedFor(calls)| && AskedFor(calls)[i] == AskedFor(calls)[j]
    ensures j - i > IDEMPOTENCY_WINDOW
    ensures forall k :: 0 < k < |calls| && calls[k].Handle? ==> calls[k - 1].Authorize?
  {
    assert history[i].request.id == history[j].request.id;
  }

  // ---- answers -----------------------------------------------------------------------------

  function ResponseFields(id: CString, r: Response): seq<Field> {
    [Field("id", Str(id)), Field("status", Num(Code(r.status))), Field("state", Flag(r.state))]
  }

  function ResponseMessage(topics: MqttTopics, id: CString, r: Response, correlation: nat): Message {
    Message(TopicText(topics.site, topics.device, CommandResponseTopic, None),
            Printed(ResponseFields(id, r)), AtLeastOnce, false, correlation)
  }

  lemma {:induction false} EscapeWithin(s: string)
    ensures |Escape(s)| <= 2 * |s|
  {
    if s != [] { EscapeWithin(s[1..]); }
  }

  lemma ResponseIsShort(id: CString, r: Response)
    requires |id| < ID_CAPACITY
    ensures GoodFields(ResponseFields(id, r)) && |Printed(ResponseFields(id, r))| < PAYLOAD_CAPACITY
  {
    var (a, b, c) := (Field("id", Str(id)), Field("status", Num(Code(r.status))), Field("state", Flag(r.state)));
    EscapeWithin(id);
    DecimalIsShort(Code(r.status));
    assert |ValueText(a.value)| <= 32 && |ValueText(b.value)| <= 10 && |ValueText(c.value)| <= 5;
    hide GoodFields, Printed, ValueText, Code;
    ThreeFields(a, b, c);
  }

  /** The longest answer fits its buffers, and scans back to what was answered. */
  lemma ResponseFits(topics: MqttTopics, id: CString, r: Response, correlation: nat)
    requires |id| < ID_CAPACITY && |topics.site| < 16 && |topics.device| < 24
    ensures var m := ResponseMessage(topics, id, r, correlation);
            && |m.payload| < PAYLOAD_CAPACITY && Storable(m)
            && m.topic == "asd/v1/" + topics.site + "/" + topics.device + "/cmd/res"
            && m.qos == AtLeastOnce && !m.retain && m.correlationId == correlation
            && ReadsAs(m.payload, "id", Str(id))
            && ReadsAs(m.payload, "status", Num(Code(r.status)))
            && ReadsAs(m.payload, "state", Flag(r.state))
  {
    hide GoodFields, ReadsAs, Printed, TopicText, ResponseFields;
    ResponseIsShort(id, r);
    ResponseScansBack(id, r);
    ResponseText(topics.site, topics.device);
    TopicFits(topics.site, topics.device, CommandResponseTopic, None);
  }

  lemma ResponseScansBack(id: CString, r: Response)
    requires |id| < ID_CAPACITY
    ensures ReadsAs(Printed(ResponseFields(id, r)), "id", Str(id))
    ensures ReadsAs(Printed(ResponseFields(id, r)), "status", Num(Code(r.status)))
    ensures ReadsAs(Printed(ResponseFields(id, r)), "state", Flag(r.state))
  {
    var fs := ResponseFields(id, r);
    assert fs[0] == Field("id", Str(id)) && fs[1] == Field("status", Num(Code(r.status))) && fs[2] == Field("state", Flag(r.state));
    hide *;
    ResponseIsShort(id, r);
    PrintedIsScanned(fs, "");
  }

  /** How the ports answer during one message. */
  datatype Answers = Answers(authorized: Status, handled: Response, connected: bool, published: Status)

  class CommandDispatcher {
    const transport: Transport
    const queue: OfflineQueue
    const topics: MqttTopics
    const names: array<CString>
    var handlerCount: nat
    const entries: array<CacheEntry>
    var cacheIndex: nat
    ghost var history: seq<Done>
    ghost var calls: seq<Call>

    ghost predicate Valid()
      reads this, names, entries, queue, queue.queue, queue.queue.entries
    {
      && names.Length == HANDLER_CAPACITY && handlerCount <= names.Length
      && queue.Valid()
      && |topics.site| < 16 && |topics.device| < 24
      && Holds(entries[..], cacheIndex, history)
      && Accounted(history, calls)
      && Registered(history, names[..handlerCount])
    }

    constructor (transport: Transport, queue: OfflineQueue, topics: MqttTopics)
      requires queue.Valid() && |topics.site| < 16 && |topics.device| < 24
      ensures Valid() && fresh(names) && fresh(entries) && history == [] && calls == []
      ensures this.transport == transport && this.queue == queue && this.topics == topics
    {
      this.transport, this.queue, this.topics := transport, queue, topics;
      names := new CString[HANDLER_CAPACITY](_ => "");
      entries := new CacheEntry[IDEMPOTENCY_WINDOW](_ => Unused);
      handlerCount, cacheIndex, history, calls := 0, 0, [], [];
    }

    method AddHandler(name: CString) returns (status: Status)
      requires Valid()
      modifies this`handlerCount, names
      ensures Valid()
      ensures status == if old(handlerCount) < HANDLER_CAPACITY then Ok else NoResources
      ensures names[..handlerCount] == old(names[..handlerCount]) + if status.Ok? then [name] else []
    {
      if handlerCount >= HANDLER_CAPACITY { return NoResources; }
      RegisteredStill(history, names[..handlerCount], name);
      hide Holds, Accounted, Registered;
      names[handlerCount] := name;
      handlerCount := handlerCount + 1;
      assert names[..handlerCount] == old(names[..handlerCount]) + [name];
      return Ok;
    }

    /** The first handler of that name. */
    method FindHandler(name: CString) returns (handler: Option<nat>)
      requires Valid()
      ensures handler.None? <==> name !in names[..handlerCount]
      ensures handler.Some? ==> handler.value < handlerCount && names[handler.value] == name
                                && name !in names[..handler.value]
    {
      for i := 0 to handlerCount
        invariant name !in names[..i]
      {
        if names[i] == name { return Some(i); }
      }
      return None;
    }

    method FindCached(id: CString) returns (response: Option<Response>)
      requires Valid()
      ensures response == Recall(history, id, IDEMPOTENCY_WINDOW)
    {
      AccountedSpaced(history, calls);
      HasEight(entries[..], cacheIndex, history);
      hide Accounted, Spaced, Recall, Registered, Holds;
      for s := 0 to IDEMPOTENCY_WINDOW
        invariant forall t :: 0 <= t < s ==> entries[t] == Unused || entries[t].id != id
      {
        if entries[s].Cached? && entries[s].id == id {
          CacheHits(entries[..], cacheIndex, history, s);
          return Some(entries[s].response);
        }
      }
      CacheMisses(entries[..], cacheIndex, history, id);
      return None;
    }

    /** Records a command: the ghost `more` are the calls that it took. */
    method Cache(id: CString, response: Response, ghost d: Done, ghost more: seq<Call>)
      requires Valid() && |id| < ID_CAPACITY && Recall(history, id, IDEMPOTENCY_WINDOW) == None
      requires d.request.id == id && d.response == response && d.names == names[..handlerCount] && Takes(d, more)
      modifies this`cacheIndex, this`history, this`calls, entries
      ensures Valid()
      ensures history == old(history) + [d] && calls == old(calls) + more
    {
      hide Holds, Accounted, Recall, Takes, Registered;
      HoldsMore(entries[..], cacheIndex, history, d);
      AccountedMore(history, calls, d, more);
      RegisteredMore(history, d, names[..handlerCount]);
      HasEight(entries[..], cacheIndex, history);
      Overwrite(id, response);
      history := history + [d];
      calls := calls + more;
    }

    method Overwrite(id: CString, response: Response)
      requires cacheIndex < IDEMPOTENCY_WINDOW == entries.Length
      modifies this`cacheIndex, entries
      ensures entries[..] == old(entries[..])[old(cacheIndex) := Cached(id, response)]
      ensures cacheIndex == (old(cacheIndex) + 1) % IDEMPOTENCY_WINDOW
    {
      entries[cacheIndex] := Cached(id, response);
      cacheIndex := (cacheIndex + 1) % IDEMPOTENCY_WINDOW;
    }

    /** The answer went out, or was offered to the queue as not droppable. */
    twostate predicate Answered(id: CString, r: Response, correlation: nat, answers: Answers)
      reads transport, queue, queue.queue, queue.queue.entries
      requires old(queue.Valid())
    {
      var m := ResponseMessage(topics, id, r, correlation);
      && queue.Valid()
      && transport.log == old(transport.log) + (if answers.connected then [Attempt(m, answers.published)] else [])
      && queue.Contents() ==
           if answers.connected && answers.published.Ok? then old(queue.Contents())
           else Offered(old(queue.Contents()), m, false, queue.queue.entries.Length).1
    }

    method Respond(id: CString, r: Response, correlation: nat, answers: Answers)
      requires Valid() && |id| < ID_CAPACITY
      modifies transport, queue, queue.queue, queue.queue.entries
      ensures Valid() && Answered(id, r, correlation, answers)
    {
      hide Holds, Accounted, Registered, ResponseMessage, Offered;
      var e := Compose(id, r, correlation);
      if answers.connected {
        var status := transport.Publish(e, answers.published);
        if status.Ok? { return; }
      }
      var queued := queue.Enqueue(e, false);
    }

    /** The envelope of an answer: composing it cannot fail. */
    method Compose(id: CString, r: Response, correlation: nat) returns (e: Envelope)
      requires Valid() && |id| < ID_CAPACITY
      ensures WellFormed(e) && fresh(e.topic) && fresh(e.payload)
      ensures Seen(e) == ResponseMessage(topics, id, r, correlation)
    {
      var topic := new char[TOPIC_CAPACITY](_ => '\0');
      ResponseFits(topics, id, r, correlation);
      ResponseIsShort(id, r);
      hide ReadsAs, GoodFields, Printed, ResponseFields;
      var payload, size := Print(ResponseFields(id, r));
      var status := topics.Build(topic, CommandResponseTopic, None);
      hide TopicText;
      CTextOf(topic[..], TopicText(topics.site, topics.device, CommandResponseTopic, None));
      e := Envelope(topic, payload, size, AtLeastOnce, false, correlation);
    }

    method Print(fields: seq<Field>) returns (payload: array<char>, size: nat)
      requires GoodFields(fields) && |Printed(fields)| < PAYLOAD_CAPACITY
      ensures fresh(payload) && size <= payload.Length && payload[..size] == Printed(fields)
    {
      payload := new char[PAYLOAD_CAPACITY](_ => '\0');
      var writer := new JsonWriter(payload, PAYLOAD_CAPACITY);
      var ok := PrintObject(writer, fields);
      size := writer.position;
    }

    /** One message. A repeated command within the window is answered as it was, without
        asking anyone; a new one is authorized, handled if it may be, and remembered. */
    method OnMessage(payload: string, correlation: nat, answers: Answers)
      requires Valid()
      modifies this`cacheIndex, this`history, this`calls, entries
      modifies transport, queue, queue.queue, queue.queue.entries
      ensures Valid()
      ensures match Parse(payload)
              case None =>
                history == old(history) && calls == old(calls)
                && Answered("", Response(Corrupt, false), correlation, answers)
              case Some(request) =>
                match Recall(old(history), request.id, IDEMPOTENCY_WINDOW)
                case Some(response) =>
                  history == old(history) && calls == old(calls)
                  && Answered(request.id, response, correlation, answers)
                case None =>
                  var (response, more) := Processed(request, names[..handlerCount], answers);
                  && history == old(history) + [Done(request, names[..handlerCount], response)]
                  && calls == old(calls) + more && AsAnswered(more, answers)
                  && Answered(request.id, response, correlation, answers)
    {
      ParsedIdFits(payload);
      hide Recall, Holds, Accounted, AskedFor, Parse, Processed, Offered, ResponseMessage, Takes, AsAnswered;
      var parsed := Scan(payload);
      if parsed.None? {
        Respond("", Response(Corrupt, false), correlation, answers);
        return;
      }
      var request := parsed.value;
      var cached := FindCached(request.id);
      if cached.Some? {
        Respond(request.id, cached.value, correlation, answers);
        return;
      }
      var response, more := Process(request, answers);
      Cache(request.id, response, Done(request, names[..handlerCount], response), more);
      Respond(request.id, response, correlation, answers);
    }

    method Scan(payload: string) returns (request: Option<Request>)
      ensures request == Parse(payload)
    {
      hide GetString, GetFlag;
      var scanner := new JsonScanner(payload);
      var id := new char[ID_CAPACITY](_ => '\0');
      var name := new char[NAME_CAPACITY](_ => '\0');
      var ok := scanner.ReadText("id", id, ID_CAPACITY);
      if !ok { return None; }
      ghost var idText := GetString(payload, "id", ID_CAPACITY).value;
      CTextOfPrefix(id[..], idText);
      ghost var idBuffer := id[..];
      ok := scanner.ReadText("name", name, NAME_CAPACITY);
      if !ok { return None; }
      CTextOfPrefix(name[..], GetString(payload, "name", NAME_CAPACITY).value);
      assert id[..] == idBuffer;
      var value := scanner.ReadBool("value");
      return Some(Request(CText(id[..]), CText(name[..]), value == Some(true), value.Some?));
    }

    /** Authorizes a new command, and handles it if it may be. */
    method Process(request: Request, answers: Answers) returns (response: Response, ghost more: seq<Call>)
      requires Valid()
      ensures response == Processed(request, names[..handlerCount], answers).0
      ensures more == Processed(request, names[..handlerCount], answers).1
      ensures Takes(Done(request, names[..handlerCount], response), more) && AsAnswered(more, answers)
    {
      more := [Authorize(request, answers.authorized)];
      response := Response(answers.authorized, false);
      if response.status.Ok? {
        var handler := FindHandler(request.name);
        if handler.None? {
          FirstNone(names[..handlerCount], request.name);
          return Response(NotFound, false), more;
        }
        assert names[..handlerCount][..handler.value] == names[..handler.value];
        FirstIs(names[..handlerCount], handler.value);
        more := [Authorize(request, Ok), Handle(handler.value, request, answers.handled)];
        response := answers.handled;
      }
    }
  }

  /** What is recorded is what the ports answered. */
  predicate AsAnswered(more: seq<Call>, answers: Answers) {
    forall c :: c in more ==> if c.Authorize? then c.answer == answers.authorized else c.response == answers.handled
  }

  function First(names: seq<CString>, name: CString): Option<nat> {
    if names == [] then None
    else if names[0] == name then Some(0)
    else match First(names[1..], name) case None => None case Some(k) => Some(k + 1)
  }

  /** The answer to a new command and the calls it takes: nobody is asked to handle
      what was not authorized. */
  function Processed(request: Request, names: seq<CString>, answers: Answers): (Response, seq<Call>) {
    if !answers.authorized.Ok? then (Response(answers.authorized, false), [Authorize(request, answers.authorized)])
    else
      match First(names, request.name)
      case None => (Response(NotFound, false), [Authorize(request, Ok)])
      case Some(handler) => (answers.handled, [Authorize(request, Ok), Handle(handler, request, answers.handled)])
  }

  lemma {:induction false} FirstIs(names: seq<CString>, k: nat)
    requires k < |names| && names[k] !in names[..k]
    ensures First(names, names[k]) == Some(k)
  {
    if k > 0 {
      assert names[0] == names[..k][0];
      assert names[1..][..k - 1] == names[..k][1..];
      FirstIs(names[1..], k - 1);
    }
  }

  lemma {:induction false} FirstNone(names: seq<CString>, name: CString)
    requires name !in names
    ensures First(names, name) == None
  {
    if names != [] { FirstNone(names[1..], name); }
  }

  lemma {:induction false} AskedAdds(calls: seq<Call>, more: seq<Call>)
    ensures AskedFor(calls + more) == AskedFor(calls) + AskedFor(more)
  {
    if more == [] {
      assert calls + more == calls;
    } else {
      var rest := more[..|more| - 1];
      assert (calls + more)[..|calls + more| - 1] == calls + rest;
      AskedAdds(calls, rest);
    }
  }

  lemma SlotsMove(history: seq<Done>, d: Done)
    ensures forall s :: 0 <= s < IDEMPOTENCY_WINDOW ==>
              SlotContent(history + [d], s) ==
              if s == |history| % IDEMPOTENCY_WINDOW then Cached(d.request.id, d.response) else SlotContent(history, s)
  {
    var (n, grown) := (|history|, history + [d]);
    forall s | 0 <= s < IDEMPOTENCY_WINDOW
      ensures SlotContent(grown, s) ==
              if s == n % IDEMPOTENCY_WINDOW then Cached(d.request.id, d.response) else SlotContent(history, s)
    {
      if s < n + 1 { OwnerNext(n, s); }
      hide Owner;
    }
  }

  lemma HoldsMore(entries: seq<CacheEntry>, cacheIndex: nat, history: seq<Done>, d: Done)
    requires Holds(entries, cacheIndex, history)
    ensures cacheIndex < |entries| == IDEMPOTENCY_WINDOW
    ensures Holds(entries[cacheIndex := Cached(d.request.id, d.response)], (cacheIndex + 1) % IDEMPOTENCY_WINDOW,
                  history + [d])
  {
    SlotsMove(history, d);
    hide SlotContent;
  }

  lemma AccountedMore(history: seq<Done>, calls: seq<Call>, d: Done, more: seq<Call>)
    requires Accounted(history, calls) && |d.request.id| < ID_CAPACITY && Takes(d, more)
    requires Recall(history, d.request.id, IDEMPOTENCY_WINDOW) == None
    ensures Accounted(history + [d], calls + more)
  {
    SpacedGrows(history, d);
    AskedOnce(d, more);
    AskedAdds(calls, more);
    PermittedAdds(calls, more);
    ExplainedMore(history, calls, d, more);
    IdsAdd(history, d);
    hide Spaced, Permitted, AskedFor, Ids, Recall, Explained, Takes;
  }

  lemma PermittedAdds(calls: seq<Call>, more: seq<Call>)
    requires Permitted(calls) && Permitted(more)
    ensures Permitted(calls + more)
  {
    var all := calls + more;
    forall k | 0 <= k < |all| && all[k].Handle? ensures k > 0 && all[k - 1] == Authorize(all[k].request, Ok) {
      if k >= |calls| { assert more[k - |calls|] == all[k]; }
    }
  }

  lemma SpacedGrows(history: seq<Done>, d: Done)
    requires Spaced(history) && Recall(history, d.request.id, IDEMPOTENCY_WINDOW) == None
    ensures Spaced(history + [d])
  {
    RecallIsExact(history, d.request.id);
    var h := history + [d];
    forall i, j | 0 <= i < j < |h| && j - i <= IDEMPOTENCY_WINDOW ensures h[i].request.id != h[j].request.id {
      if j == |history| { assert InWindow(history, i); }
    }
  }

  /** Only the part of a scanned string in front of a NUL is used. */
  lemma {:induction false} CTextOfPrefix(s: string, t: string)
    requires |t| < |s| && s[..|t|] == t && s[|t|] == '\0'
    ensures CText(s) == CText(t)
  {}
}
