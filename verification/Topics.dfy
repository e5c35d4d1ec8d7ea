/** C strings in fixed buffers, and the topics built into them. */
module Topics {
  import opened Uhal

  /** What a `const char*` points to. */
  type CString = s: string | '\0' !in s

  /** The characters in front of the first NUL, or all of them. */
  function CText(s: string): (t: CString)
    ensures t <= s
    ensures |t| < |s| ==> s[|t|] == '\0'
  {
    if s == [] || s[0] == '\0' then [] else [s[0]] + CText(s[1..])
  }

  /** A terminated text reads as itself. */
  lemma {:induction false} CTextOf(s: string, text: CString)
    requires |text| < |s| && s[..|text|] == text && s[|text|] == '\0'
    ensures CText(s) == text
  {}

  lemma {:induction false} CTextWhole(s: string)
    requires '\0' !in s
    ensures CText(s) == s
  {}

  const TOPIC_CAPACITY := 96

  datatype TopicKind =
    | StatusTopic
    | StateTopic
    | TelemetryTopic
    | CommandRequestTopic
    | CommandResponseTopic
    | OtaRequestTopic
    | OtaEventTopic
    | DiagnosticsTopic

  function Suffix(kind: TopicKind): CString {
    match kind
    case StatusTopic => "status"
    case StateTopic => "state"
    case TelemetryTopic => "telemetry"
    case CommandRequestTopic => "cmd/req"
    case CommandResponseTopic => "cmd/res"
    case OtaRequestTopic => "ota/req"
    case OtaEventTopic => "ota/evt"
    case DiagnosticsTopic => "diag"
  }

  predicate HasChannel(kind: TopicKind, channel: Option<CString>) {
    channel.Some? && (kind.StateTopic? || kind.TelemetryTopic?)
  }

  function Base(site: CString, device: CString): CString { "asd/v1/" + site + "/" + device + "/" }

  /** The topic in full. */
  function TopicText(site: CString, device: CString, kind: TopicKind, channel: Option<CString>): CString {
    Base(site, device) + Suffix(kind) + (if HasChannel(kind, channel) then "/" + channel.value else "")
  }

  /** With identities in their own buffers, only a channel can make a topic too long. */
  lemma TopicFits(site: CString, device: CString, kind: TopicKind, channel: Option<CString>)
    requires |site| < 16 && |device| < 24
    ensures !HasChannel(kind, channel) ==> |TopicText(site, device, kind, channel)| < TOPIC_CAPACITY
    ensures HasChannel(kind, channel) && |channel.value| <= 38 ==>
              |TopicText(site, device, kind, channel)| < TOPIC_CAPACITY
  {}

  /** The topics of readings and of answers, written out. */
  lemma TelemetryText(site: CString, device: CString, channel: CString)
    ensures TopicText(site, device, TelemetryTopic, Some(channel)) ==
            "asd/v1/" + site + "/" + device + "/telemetry/" + channel
  {
    var base := "asd/v1/" + site + "/" + device;
    assert "/" + "telemetry" + "/" == "/telemetry/";
    assert base + "/" + "telemetry" + ("/" + channel) == base + ("/" + "telemetry" + "/") + channel;
  }

  lemma ResponseText(site: CString, device: CString)
    ensures TopicText(site, device, CommandResponseTopic, None) == "asd/v1/" + site + "/" + device + "/cmd/res"
  {
    var base := "asd/v1/" + site + "/" + device;
    assert "/" + "cmd/res" == "/cmd/res";
    assert base + "/" + "cmd/res" + "" == base + ("/" + "cmd/res");
  }

  /** Topics of different kinds never meet, whatever their channels. */
  lemma KindsDiffer(site: CString, device: CString, kind: TopicKind, channel: Option<CString>,
                    kind': TopicKind, channel': Option<CString>)
    requires TopicText(site, device, kind, channel) == TopicText(site, device, kind', channel')
    ensures kind == kind'
  {
    var n := |Base(site, device)|;
    var (t, t') := (TopicText(site, device, kind, channel), TopicText(site, device, kind', channel'));
    BehindBase(site, device, kind, channel);
    BehindBase(site, device, kind', channel');
    hide TopicText, Base;
    SuffixesDiffer(kind, kind', t[n..]);
  }

  lemma BehindBase(site: CString, device: CString, kind: TopicKind, channel: Option<CString>)
    ensures var t := TopicText(site, device, kind, channel);
            |Base(site, device)| <= |t| && Suffix(kind) <= t[|Base(site, device)|..]
  {
    hide Base, Suffix;
    var t := TopicText(site, device, kind, channel);
    assert t[|Base(site, device)|..] == Suffix(kind) + (if HasChannel(kind, channel) then "/" + channel.value else "");
  }

  lemma SuffixesDiffer(kind: TopicKind, kind': TopicKind, t: string)
    requires Suffix(kind) <= t && Suffix(kind') <= t
    ensures kind == kind'
  {
    Letters(kind, t);
    Letters(kind', t);
    hide Suffix;
  }

  /** What tells the kinds apart. */
  lemma Letters(kind: TopicKind, t: string)
    requires Suffix(kind) <= t
    ensures |t| >= 4
    ensures match kind
            case StatusTopic => |t| >= 5 && t[0] == 's' && t[4] == 'u'
            case StateTopic => |t| >= 5 && t[0] == 's' && t[4] == 'e'
            case TelemetryTopic => t[0] == 't'
            case CommandRequestTopic => |t| >= 7 && t[0] == 'c' && t[6] == 'q'
            case CommandResponseTopic => |t| >= 7 && t[0] == 'c' && t[6] == 's'
            case OtaRequestTopic => |t| >= 5 && t[0] == 'o' && t[4] == 'r'
            case OtaEventTopic => |t| >= 5 && t[0] == 'o' && t[4] == 'e'
            case DiagnosticsTopic => t[0] == 'd'
  {
    match kind {
      case StatusTopic => assert t[0] == "status"[0] && t[4] == "status"[4];
      case StateTopic => assert t[0] == "state"[0] && t[4] == "state"[4];
      case TelemetryTopic => assert t[0] == "telemetry"[0];
      case CommandRequestTopic => assert t[0] == "cmd/req"[0] && t[6] == "cmd/req"[6];
      case CommandResponseTopic => assert t[0] == "cmd/res"[0] && t[6] == "cmd/res"[6];
      case OtaRequestTopic => assert t[0] == "ota/req"[0] && t[4] == "ota/req"[4];
      case OtaEventTopic => assert t[0] == "ota/evt"[0] && t[4] == "ota/evt"[4];
      case DiagnosticsTopic => assert t[0] == "diag"[0];
    }
  }

  class MqttTopics {
    const site: CString
    const device: CString

    constructor (site: CString, device: CString)
      ensures this.site == site && this.device == device
    {
      this.site, this.device := site, device;
    }

    method Append(out: array<char>, position: nat, text: CString) returns (ok: bool, end: nat)
      requires position < out.Length
      modifies out
      ensures ok <==> position + |text| < out.Length
      ensures ok ==> end == position + |text| && out[end] == '\0'
      ensures ok ==> out[..end] == old(out[..position]) + text
    {
      end := position;
      assert text[..0] == "";
      for i := 0 to |text|
        invariant end == position + i < out.Length
        invariant out[..end] == old(out[..position]) + text[..i]
      {
        if end + 1 >= out.Length { return false, end; }
        out[end] := text[i];
        assert text[..i + 1] == text[..i] + [text[i]];
        assert out[..end + 1] == out[..end] + [text[i]];
        end := end + 1;
      }
      assert text[..|text|] == text;
      assert out[..end] == old(out[..position]) + text;
      out[end] := '\0';
      assert out[..end] == old(out[..position]) + text;
      ok := true;
    }

    /** Succeeds exactly when the topic and its terminator fit. */
    method Build(out: array<char>, kind: TopicKind, channel: Option<CString>) returns (status: Status)
      requires out.Length == TOPIC_CAPACITY
      modifies out
      ensures var topic := TopicText(site, device, kind, channel);
              && status == (if |topic| < TOPIC_CAPACITY then Ok else NoResources)
              && (status.Ok? ==> out[..|topic|] == topic && out[|topic|] == '\0')
    {
      var ok, end := BuildBase(out);
      hide Base, Suffix;
      if ok { ok, end := Append(out, end, Suffix(kind)); }
      if !ok { return NoResources; }
      ghost var stem := Base(site, device) + Suffix(kind);
      if HasChannel(kind, channel) {
        ok, end := AppendChannel(out, end, channel.value);
        if !ok { return NoResources; }
      } else {
        assert TopicText(site, device, kind, channel) == stem;
      }
      return Ok;
    }

    method BuildBase(out: array<char>) returns (ok: bool, end: nat)
      requires out.Length == TOPIC_CAPACITY
      modifies out
      ensures ok <==> |Base(site, device)| < TOPIC_CAPACITY
      ensures ok ==> end == |Base(site, device)| && out[..end] == Base(site, device) && out[end] == '\0'
    {
      out[0] := '\0';
      assert out[..0] + "asd/v1/" == "asd/v1/";
      ok, end := Append(out, 0, "asd/v1/");
      if ok { ok, end := AppendPart(out, end, site); }
      if ok { ok, end := AppendPart(out, end, device); }
      assert Base(site, device) == "asd/v1/" + (site + "/") + (device + "/");
    }

    method AppendChannel(out: array<char>, position: nat, text: CString) returns (ok: bool, end: nat)
      requires position < out.Length
      modifies out
      ensures ok <==> position + 1 + |text| < out.Length
      ensures ok ==> end == position + 1 + |text| && out[end] == '\0'
      ensures ok ==> out[..end] == old(out[..position]) + ("/" + text)
    {
      ok, end := Append(out, position, "/");
      if ok { ok, end := Append(out, end, text); }
      assert old(out[..position]) + ("/" + text) == old(out[..position]) + "/" + text;
    }

    method AppendPart(out: array<char>, position: nat, text: CString) returns (ok: bool, end: nat)
      requires position < out.Length
      modifies out
      ensures ok <==> position + |text| + 1 < out.Length
      ensures ok ==> end == position + |text| + 1 && out[end] == '\0'
      ensures ok ==> out[..end] == old(out[..position]) + (text + "/")
    {
      ok, end := Append(out, position, text);
      if ok { ok, end := Append(out, end, "/"); }
      assert old(out[..position]) + (text + "/") == old(out[..position]) + text + "/";
    }
  }
}
