/** Flat JSON objects as text: what is printed, how a key is searched, and why
    the search finds exactly the field it is meant to find. */
module JsonText {
  import opened Uhal

  datatype Value = Str(s: string) | Num(n: nat) | Flag(b: bool)
  datatype Field = Field(key: string, value: Value)

  const MAX_U32: nat := 0xFFFF_FFFF

  // ---- printing --------------------------------------------------------------------

  predicate Special(c: char) { c == '"' || c == '\\' }

  function Escape(s: string): string {
    if s == [] then [] else (if Special(s[0]) then ['\\', s[0]] else [s[0]]) + Escape(s[1..])
  }

  function EscapedChar(c: char): string { if Special(c) then ['\\', c] else [c] }

  function Digit(d: nat): char
    requires d < 10
  {
    '0' + d as char
  }

  function Decimal(n: nat): string {
    if n < 10 then [Digit(n)] else Decimal(n / 10) + [Digit(n % 10)]
  }

  function ValueText(v: Value): string {
    match v
    case Str(s) => ['"'] + Escape(s) + ['"']
    case Num(n) => Decimal(n)
    case Flag(b) => if b then "true" else "false"
  }

  function FieldText(first: bool, f: Field): string {
    (if first then [] else [',']) + (['"'] + f.key + ['"', ':'] + ValueText(f.value))
  }

  /** The fields from some point on, and the closing brace. */
  function Tail(first: bool, fs: seq<Field>): string {
    if fs == [] then "}" else FieldText(first, fs[0]) + Tail(false, fs[1..])
  }

  function Printed(fs: seq<Field>): string { "{" + Tail(true, fs) }

  /** One object, written out. */
  lemma PrintedExample()
    ensures Printed([Field("s", Str("\"\\")), Field("n", Num(105)), Field("b", Flag(true))])
            == "{" + ("\"s\":\"\\\"\\\\\"" + (",\"n\":105" + (",\"b\":true" + "}")))
  {
    var (a, b, c) := (Field("s", Str("\"\\")), Field("n", Num(105)), Field("b", Flag(true)));
    StringExample();
    NumberExample();
    FlagExample();
    TailOfThree(a, b, c);
    hide *;
  }

  lemma TailOfThree(a: Field, b: Field, c: Field)
    ensures Printed([a, b, c]) == "{" + (FieldText(true, a) + (FieldText(false, b) + (FieldText(false, c) + "}")))
  {
    hide FieldText;
    assert [a, b, c][1..] == [b, c] && [b, c][1..] == [c] && [c][1..] == [];
    assert Tail(false, [c]) == FieldText(false, c) + "}";
    assert Tail(false, [b, c]) == FieldText(false, b) + Tail(false, [c]);
  }

  lemma StringExample()
    ensures FieldText(true, Field("s", Str("\"\\"))) == "\"s\":\"\\\"\\\\\""
  {
    assert "\"\\"[1..] == "\\" && "\\"[1..] == "";
    assert Escape("\\") == "\\\\";
    assert Escape("\"\\") == "\\\"\\\\";
  }

  lemma NumberExample()
    ensures FieldText(false, Field("n", Num(105))) == ",\"n\":105"
  {
    DecimalExample();
  }

  lemma FlagExample()
    ensures FieldText(false, Field("b", Flag(true))) == ",\"b\":true" && ValueText(Flag(false)) == "false"
  {}

  lemma DecimalExample()
    ensures Decimal(105) == "105"
  {
    assert Decimal(1) == "1";
    assert Decimal(10) == "10";
  }

  // ---- searching -------------------------------------------------------------------

  predicate Blank(c: char) { c == ' ' || c == '\t' }

  function SkipBlanks(t: string): (r: string)
    ensures |r| <= |t| && r == t[|t| - |r|..]
  {
    if t != [] && Blank(t[0]) then SkipBlanks(t[1..]) else t
  }

  predicate NoColon(t: string) { SkipBlanks(t) == [] || SkipBlanks(t)[0] != ':' }

  predicate StartsWithKey(t: string, key: string) {
    |key| + 2 <= |t| && t[0] == '"' && t[1..1 + |key|] == key && t[1 + |key|] == '"'
  }

  /** The text behind a colon and the blanks around it. */
  function PastColon(t: string): (r: Option<string>)
    ensures r.Some? ==> |r.value| < |t| && r.value == t[|t| - |r.value|..]
  {
    var u := SkipBlanks(t);
    if u == [] || u[0] != ':' then None else Some(SkipBlanks(u[1..]))
  }

  /** The text behind `"key"`, blanks and a colon, if `t` starts that way. */
  function Matched(t: string, key: string): (r: Option<string>)
    ensures r.Some? ==> |r.value| < |t| && r.value == t[|t| - |r.value|..]
  {
    if StartsWithKey(t, key) then PastColon(t[|key| + 2..]) else None
  }

  /** The text behind the first such place. */
  function Search(t: string, key: string): (r: Option<string>)
    ensures r.Some? ==> |r.value| < |t| && r.value == t[|t| - |r.value|..]
  {
    if t == [] then None
    else if Matched(t, key).Some? then Matched(t, key)
    else Search(t[1..], key)
  }

  // ---- reading values ----------------------------------------------------------------

  /** The characters of a string up to its closing quote, at most `room` of them. */
  function ReadString(t: string, room: nat): Option<string> {
    if t == [] then None
    else if t[0] == '"' then Some([])
    else if room == 0 then None
    else
      var k := if t[0] == '\\' && |t| > 1 then 1 else 0;
      match ReadString(t[k + 1..], room - 1)
      case None => None
      case Some(s) => Some([t[k]] + s)
  }

  predicate IsDigit(c: char) { '0' <= c <= '9' }

  function DigitValue(c: char): (d: nat)
    requires IsDigit(c)
    ensures d < 10
  {
    (c - '0') as nat
  }

  /** Digits behind an already parsed number, as long as 32 bits suffice. */
  function ReadNumber(t: string, parsed: nat): Option<nat> {
    if t == [] || !IsDigit(t[0]) then Some(parsed)
    else
      var d := DigitValue(t[0]);
      if parsed > (MAX_U32 - d) / 10 then None else ReadNumber(t[1..], parsed * 10 + d)
  }

  // ---- keys for which the search is exact --------------------------------------------

  /** Behind an opening quote such a text is the beginning of a printed string, up to and
      including the backslash of an escaped quote. */
  predicate EscapesQuote(key: string) {
    key != [] &&
    if key[0] != '\\' then EscapesQuote(key[1..])
    else |key| == 1 || (key[1] == '\\' && EscapesQuote(key[2..]))
  }

  /** No quote inside, no colon in front, and not the beginning of a string that goes on
      with a quote. */
  predicate GoodKey(key: string) { '"' !in key && NoColon(key) && !EscapesQuote(key) }

  predicate Fits(v: Value) { v.Num? ==> v.n <= MAX_U32 }

  ghost predicate GoodFields(fs: seq<Field>) {
    && (forall i :: 0 <= i < |fs| ==> GoodKey(fs[i].key) && Fits(fs[i].value))
    && (forall i, j :: 0 <= i < j < |fs| ==> fs[i].key != fs[j].key)
  }

  // ---- escaped text hides its quotes ---------------------------------------------------

  /** What precedes the first escaped quote of a printed string. */
  lemma {:induction false} QuoteIsEscaped(s: string, n: nat)
    requires n < |Escape(s)| && Escape(s)[n] == '"' && forall k :: 0 <= k < n ==> Escape(s)[k] != '"'
    ensures EscapesQuote(Escape(s)[..n])
  {
    var (e, x, rest) := (Escape(s), EscapedChar(s[0]), Escape(s[1..]));
    assert e == x + rest;
    if s[0] == '"' {
      assert e[1] == '"';
      assert e[..n] == ['\\'];
    } else {
      hide Escape, EscapesQuote;
      assert forall k :: 0 <= k < |rest| ==> rest[k] == e[|x| + k];
      assert forall k :: 0 <= k < |x| ==> x[k] == e[k] && x[k] != '"';
      QuoteIsEscaped(s[1..], n - |x|);
      assert e[..n] == x + rest[..n - |x|];
      EscapesBehind(s[0], rest[..n - |x|]);
    }
  }

  lemma EscapesBehind(c: char, t: string)
    requires c != '"' && EscapesQuote(t)
    ensures EscapesQuote(EscapedChar(c) + t)
  {
    var x := EscapedChar(c);
    assert (x + t)[|x|..] == t;
  }

  lemma {:induction false} EscapeJoins(s: string, t: string)
    ensures Escape(s + t) == Escape(s) + Escape(t)
  {
    if s == [] {
      assert s + t == t;
    } else {
      assert (s + t)[1..] == s[1..] + t;
      EscapeJoins(s[1..], t);
    }
  }

  // ---- where a key does not match --------------------------------------------------------

  lemma MatchedShape(t: string, key: string)
    ensures Matched(t, key).Some? ==>
            && |key| + 2 <= |t| && t[0] == '"' && t[1 + |key|] == '"'
            && (forall i :: 0 <= i < |key| ==> key[i] == t[1 + i])
            && !NoColon(t[|key| + 2..])
  {}

  /** What may follow a printed value: the next field, or the end. */
  predicate Follows(w: string) {
    w == "}" || (|w| >= 2 && w[0] == ',' && w[1] == '"' && NoColon(w[2..]))
  }

  lemma QuotedAt(e: string, w: string, j: nat)
    requires j < |e| + 2 + |w|
    ensures (['"'] + e + ['"'] + w)[j] ==
            if j == 0 then '"' else if j <= |e| then e[j - 1] else if j == |e| + 1 then '"' else w[j - |e| - 2]
  {}

  /** No key is found at the opening quote of a printed string. */
  lemma NotAtString(s: string, w: string, key: string)
    requires GoodKey(key) && Follows(w)
    ensures Matched(['"'] + Escape(s) + ['"'] + w, key) == None
  {
    var (e, n) := (Escape(s), |key|);
    if n < |e| && e[n] == '"' && key == e[..n] {
      assert forall k :: 0 <= k < n ==> e[k] == key[k];
      QuoteIsEscaped(s, n);
    }
    hide EscapesQuote, NoColon, Follows, Escape, Matched;
    NotAtQuoted(e, w, key);
  }

  lemma NotAtQuoted(e: string, w: string, key: string)
    requires '"' !in key && Follows(w)
    requires |key| < |e| && e[|key|] == '"' ==> key != e[..|key|]
    ensures Matched(['"'] + e + ['"'] + w, key) == None
  {
    hide Matched, Escape, SkipBlanks, NoColon;
    var n := |key|;
    var t := ['"'] + e + ['"'] + w;
    MatchedShape(t, key);
    if n < |e| {
      QuotedAt(e, w, 1 + n);
      if e[n] == '"' {
        var k :| 0 <= k < n && key[k] != e[..n][k];
        QuotedAt(e, w, 1 + k);
      }
    } else if n > |e| {
      QuotedAt(e, w, 1 + |e|);
      assert key[|e|] != '"';
    } else {
      assert t[n + 2..] == w;
      FollowsIsNoColon(w);
    }
  }

  lemma FollowsIsNoColon(w: string)
    requires Follows(w)
    ensures NoColon(w)
  {}

  /** No key is found at a closing quote. */
  lemma NotAtClosing(w: string, key: string)
    requires GoodKey(key) && Follows(w)
    ensures Matched(['"'] + w, key) == None
  {
    hide Matched, SkipBlanks, NoColon;
    var t := ['"'] + w;
    MatchedShape(t, key);
    assert |w| >= 2 ==> t[3..] == w[2..];
    assert t[1] == w[0];
    assert |w| >= 2 ==> t[2] == w[1] == '"';
    assert |key| >= 2 ==> key[1] != '"';
    assert |key| >= 1 ==> key[0] != '"';
  }

  /** No other key is found at the quotes around a key. */
  lemma NotAtKey(k: string, rest: string, key: string)
    requires '"' !in key && '"' !in k && k != key
    ensures Matched(['"'] + k + ['"', ':'] + rest, key) == None
  {
    hide Matched, SkipBlanks, NoColon;
    var t := ['"'] + k + ['"', ':'] + rest;
    MatchedShape(t, key);
    assert forall i | 0 <= i < |k| :: k[i] == t[1 + i];
    assert t[1 + |k|] == '"';
    assert |key| < |k| ==> k[|key|] != '"';
    assert |k| < |key| ==> key[|k|] != '"';
    if |k| == |key| { assert exists i :: 0 <= i < |k| && k[i] != key[i]; }
  }

  lemma NotBehindKey(rest: string, key: string)
    requires NoColon(key)
    ensures Matched(['"', ':'] + rest, key) == None
  {
    assert key != [] ==> key[0] != ':';
    hide Matched, NoColon;
    var t := ['"', ':'] + rest;
    MatchedShape(t, key);
    assert t[1] == ':';
  }

  // ---- the search walks past what is not the key -------------------------------------------

  lemma SearchSteps(c: char, t: string, key: string)
    requires Matched([c] + t, key) == None
    ensures Search([c] + t, key) == Search(t, key)
  {}

  lemma {:induction false} SearchSkips(p: string, t: string, key: string)
    requires '"' !in p
    ensures Search(p + t, key) == Search(t, key)
  {
    hide Search, Matched;
    if p == [] {
      assert p + t == t;
    } else {
      assert p + t == [p[0]] + (p[1..] + t);
      MatchedShape(p + t, key);
      SearchSteps(p[0], p[1..] + t, key);
      SearchSkips(p[1..], t, key);
    }
  }

  lemma SearchPastChar(c: char, e: string, w: string, key: string)
    requires c == '"' ==> Matched(['"'] + e + ['"'] + w, key) == None
    ensures Search((if Special(c) then ['\\', c] else [c]) + (e + (['"'] + w)), key) == Search(e + (['"'] + w), key)
  {
    hide Search, Matched;
    var inner := e + (['"'] + w);
    if c == '"' {
      assert ['"'] + inner == ['"'] + e + ['"'] + w;
      SearchSteps('"', inner, key);
    } else {
      SearchSkips([c], inner, key);
    }
    if Special(c) {
      assert ['\\', c] + inner == ['\\'] + ([c] + inner);
      SearchSkips(['\\'], [c] + inner, key);
    }
  }

  lemma {:induction false} SearchPastString(s: string, w: string, key: string)
    requires GoodKey(key) && Follows(w)
    ensures Search(Escape(s) + (['"'] + w), key) == Search(w, key)
  {
    hide Search, Matched, GoodKey, Follows;
    var close := ['"'] + w;
    if s == [] {
      assert Escape(s) + close == close;
      NotAtClosing(w, key);
      SearchSteps('"', w, key);
    } else {
      var (e, inner) := (Escape(s[1..]), Escape(s[1..]) + close);
      SearchPastString(s[1..], w, key);
      if s[0] == '"' {
        NotAtString(s[1..], w, key);
      }
      SearchPastChar(s[0], e, w, key);
      assert Escape(s) == (if Special(s[0]) then ['\\', s[0]] else [s[0]]) + e;
      assert Escape(s) + close == (if Special(s[0]) then ['\\', s[0]] else [s[0]]) + inner;
    }
  }

  lemma {:induction false} DecimalDigits(n: nat)
    ensures |Decimal(n)| > 0
    ensures forall i :: 0 <= i < |Decimal(n)| ==> IsDigit(Decimal(n)[i])
  {
    if n >= 10 { DecimalDigits(n / 10); }
  }

  lemma SearchPastValue(v: Value, w: string, key: string)
    requires GoodKey(key) && Follows(w)
    ensures Search(ValueText(v) + w, key) == Search(w, key)
  {
    hide Search, Matched, GoodKey, Follows, Escape, Decimal;
    match v {
      case Str(s) =>
        var inner := Escape(s) + (['"'] + w);
        assert ValueText(v) + w == ['"'] + inner == ['"'] + Escape(s) + ['"'] + w;
        NotAtString(s, w, key);
        SearchSteps('"', inner, key);
        SearchPastString(s, w, key);
      case Num(n) =>
        DecimalDigits(n);
        SearchSkips(Decimal(n), w, key);
      case Flag(b) =>
        SearchSkips(ValueText(v), w, key);
    }
  }

  /** A printed field in front of `w`, split at its quotes. */
  function Comma(first: bool): string { if first then [] else [','] }

  lemma FieldThen(first: bool, f: Field, w: string)
    ensures FieldText(first, f) + w == Comma(first) + (['"'] + (f.key + (['"', ':'] + (ValueText(f.value) + w))))
  {}

  lemma GoodKeyMeans(key: string)
    requires GoodKey(key)
    ensures '"' !in key && NoColon(key)
  {}

  lemma NoQuoteInComma(first: bool)
    ensures '"' !in Comma(first)
  {}

  lemma SearchPastOpening(k: string, rest: string, key: string)
    requires '"' !in key && '"' !in k && k != key
    ensures Search(['"'] + (k + (['"', ':'] + rest)), key) == Search(['"', ':'] + rest, key)
  {
    hide *;
    var behind := ['"', ':'] + rest;
    assert ['"'] + (k + behind) == ['"'] + k + ['"', ':'] + rest;
    NotAtKey(k, rest, key);
    SearchSteps('"', k + behind, key);
    SearchSkips(k, behind, key);
  }

  lemma SearchPastClosing(rest: string, key: string)
    requires NoColon(key)
    ensures Search(['"', ':'] + rest, key) == Search(rest, key)
  {
    hide *;
    NotBehindKey(rest, key);
    assert ['"', ':'] + rest == ['"'] + ([':'] + rest);
    SearchSteps('"', [':'] + rest, key);
    SearchSkips([':'], rest, key);
  }

  lemma SearchPastField(first: bool, f: Field, w: string, key: string)
    requires GoodKey(key) && GoodKey(f.key) && f.key != key && Follows(w)
    ensures Search(FieldText(first, f) + w, key) == Search(w, key)
  {
    hide *;
    var rest := ValueText(f.value) + w;
    FieldThen(first, f, w);
    NoQuoteInComma(first);
    GoodKeyMeans(key);
    GoodKeyMeans(f.key);
    SearchSkips(Comma(first), ['"'] + (f.key + (['"', ':'] + rest)), key);
    SearchPastOpening(f.key, rest, key);
    SearchPastClosing(rest, key);
    SearchPastValue(f.value, w, key);
  }

  lemma {:induction false} BlanksThen(r: string, t: string)
    requires t != [] && !Blank(t[0])
    ensures SkipBlanks(r + t) == SkipBlanks(r) + t
  {
    if r == [] {
      assert r + t == t;
      NotBlank(t);
    } else if Blank(r[0]) {
      assert (r + t)[1..] == r[1..] + t;
      BlanksThen(r[1..], t);
    } else {
      NotBlank(r);
      NotBlank(r + t);
    }
  }

  lemma FieldFollows(f: Field, w: string)
    requires GoodKey(f.key)
    ensures Follows(FieldText(false, f) + w)
  {
    var rest := ['"', ':'] + (ValueText(f.value) + w);
    GoodKeyMeans(f.key);
    assert NoColon(f.key + rest) by {
      hide ValueText, GoodKey;
      BlanksThen(f.key, rest);
    }
    hide *;
    FieldThen(false, f, w);
    FollowsKey(f.key + rest);
  }

  lemma FollowsKey(t: string)
    requires NoColon(t)
    ensures Follows(Comma(false) + (['"'] + t))
  {
    var w := Comma(false) + (['"'] + t);
    assert w[2..] == t;
  }

  lemma TailFollows(fs: seq<Field>)
    requires GoodFields(fs)
    ensures Follows(Tail(false, fs))
  {
    hide FieldText;
    if fs != [] {
      FieldFollows(fs[0], Tail(false, fs[1..]));
    }
  }

  lemma MatchesItself(key: string, u: string)
    requires u != [] && !Blank(u[0])
    ensures Matched(['"'] + (key + (['"', ':'] + u)), key) == Some(u)
  {
    hide SkipBlanks;
    var t := ['"'] + (key + (['"', ':'] + u));
    assert t[1..1 + |key|] == key;
    assert t[|key| + 2..] == [':'] + u;
    assert ([':'] + u)[1..] == u;
    NotBlank(u);
    NotBlank([':'] + u);
  }

  lemma NotBlank(t: string)
    requires t != [] && !Blank(t[0])
    ensures SkipBlanks(t) == t
  {}

  lemma SearchHits(first: bool, f: Field, w: string)
    ensures Search(FieldText(first, f) + w, f.key) == Some(ValueText(f.value) + w)
  {
    hide Matched, ValueText, FieldText;
    var u := ValueText(f.value) + w;
    FieldThen(first, f, w);
    ValueStarts(f.value, w);
    MatchesItself(f.key, u);
    SearchSkips(Comma(first), ['"'] + (f.key + (['"', ':'] + u)), f.key);
  }

  lemma ValueStarts(v: Value, w: string)
    ensures ValueText(v) != [] && !Blank((ValueText(v) + w)[0])
  {
    if v.Num? { DecimalDigits(v.n); }
  }

  lemma GoodRest(fs: seq<Field>)
    requires GoodFields(fs) && fs != []
    ensures GoodFields(fs[1..])
  {}

  lemma SearchPastFirst(first: bool, fs: seq<Field>, key: string)
    requires GoodFields(fs) && fs != [] && GoodKey(key) && fs[0].key != key
    ensures Search(Tail(first, fs), key) == Search(Tail(false, fs[1..]), key)
  {
    GoodRest(fs);
    TailFollows(fs[1..]);
    assert GoodKey(fs[0].key);
    assert Tail(first, fs) == FieldText(first, fs[0]) + Tail(false, fs[1..]);
    hide *;
    SearchPastField(first, fs[0], Tail(false, fs[1..]), key);
  }

  lemma FirstTail(first: bool, fs: seq<Field>)
    requires fs != []
    ensures Tail(first, fs) == FieldText(first, fs[0]) + Tail(false, fs[1..])
  {}

  lemma DistinctKeys(fs: seq<Field>, i: nat)
    requires GoodFields(fs) && 0 < i < |fs|
    ensures GoodKey(fs[i].key) && fs[0].key != fs[i].key
  {}

  /** Every printed key is found, at its own value. */
  lemma {:induction false} SearchFinds(first: bool, fs: seq<Field>, i: nat)
    requires GoodFields(fs) && i < |fs|
    ensures Search(Tail(first, fs), fs[i].key) == Some(ValueText(fs[i].value) + Tail(false, fs[i + 1..]))
  {
    hide *;
    if i == 0 {
      FirstTail(first, fs);
      SearchHits(first, fs[0], Tail(false, fs[1..]));
    } else {
      GoodRest(fs);
      DistinctKeys(fs, i);
      SearchPastFirst(first, fs, fs[i].key);
      SearchFinds(false, fs[1..], i - 1);
      assert fs[1..][i - 1] == fs[i] && fs[1..][i..] == fs[i + 1..];
    }
  }

  lemma NothingInBrace(key: string)
    ensures Search("}", key) == None
  {
    hide Matched;
    MatchedShape("}", key);
    assert Search("}"[1..], key) == None;
  }

  /** A key that was not printed is not found. */
  lemma {:induction false} SearchMisses(first: bool, fs: seq<Field>, key: string)
    requires GoodFields(fs) && GoodKey(key) && forall i :: 0 <= i < |fs| ==> fs[i].key != key
    ensures Search(Tail(first, fs), key) == None
  {
    hide Search, GoodFields, GoodKey, FieldText;
    if fs == [] {
      NothingInBrace(key);
    } else {
      GoodRest(fs);
      SearchPastFirst(first, fs, key);
      SearchMisses(false, fs[1..], key);
    }
  }

  // ---- what is read back -------------------------------------------------------------------

  function GetString(t: string, key: string, capacity: nat): Option<string> {
    match Search(t, key)
    case None => None
    case Some(u) => if u == [] || u[0] != '"' || capacity == 0 then None else ReadString(u[1..], capacity - 1)
  }

  function GetNumber(t: string, key: string): Option<nat> {
    match Search(t, key)
    case None => None
    case Some(u) => if u == [] || !IsDigit(u[0]) then None else ReadNumber(u, 0)
  }

  function GetFlag(t: string, key: string): Option<bool> {
    match Search(t, key)
    case None => None
    case Some(u) => if "true" <= u then Some(true) else if "false" <= u then Some(false) else None
  }

  /** Reading `key` gives `v` back, at its own type and at no other. */
  ghost predicate ReadsAs(t: string, key: string, v: Value) {
    && (forall capacity :: GetString(t, key, capacity) ==
          if v.Str? && |v.s| < capacity then Some(v.s) else None)
    && GetNumber(t, key) == (if v.Num? then Some(v.n) else None)
    && GetFlag(t, key) == (if v.Flag? then Some(v.b) else None)
  }

  lemma CharIsRead(c: char, rest: string, room: nat)
    requires rest != []
    ensures ReadString(EscapedChar(c) + rest, room) ==
            if room == 0 then None
            else match ReadString(rest, room - 1) case None => None case Some(s) => Some([c] + s)
  {}

  lemma {:induction false} EscapedIsRead(s: string, w: string, room: nat)
    ensures ReadString(Escape(s) + (['"'] + w), room) == if |s| <= room then Some(s) else None
  {
    var close := ['"'] + w;
    if s == [] {
      assert Escape(s) + close == close;
    } else {
      hide ReadString;
      var rest := Escape(s[1..]) + close;
      assert Escape(s) + close == EscapedChar(s[0]) + rest;
      CharIsRead(s[0], rest, room);
      if room > 0 { EscapedIsRead(s[1..], w, room - 1); }
      assert s == [s[0]] + s[1..];
    }
  }

  lemma {:induction false} DecimalIsRead(n: nat, w: string)
    requires n <= MAX_U32
    ensures ReadNumber(Decimal(n) + w, 0) == ReadNumber(w, n)
  {
    var d := n % 10;
    if n < 10 {
      ReadDigit(d, w, 0);
    } else {
      assert Decimal(n) + w == Decimal(n / 10) + ([Digit(d)] + w);
      DecimalIsRead(n / 10, [Digit(d)] + w);
      ReadDigit(d, w, n / 10);
    }
  }

  lemma ReadDigit(d: nat, w: string, parsed: nat)
    requires d < 10 && parsed * 10 + d <= MAX_U32
    ensures ReadNumber([Digit(d)] + w, parsed) == ReadNumber(w, parsed * 10 + d)
  {}

  lemma FlagIsRead(b: bool, w: string)
    ensures "true" <= ValueText(Flag(b)) + w <==> b
    ensures "false" <= ValueText(Flag(b)) + w <==> !b
  {
    assert "true" <= "true" + w && "false" <= "false" + w;
    assert (ValueText(Flag(b)) + w)[0] == if b then "true"[0] else "false"[0];
  }

  lemma StringIsRead(t: string, key: string, s: string, w: string)
    requires Search(t, key) == Some(ValueText(Str(s)) + w)
    ensures ReadsAs(t, key, Str(s))
  {
    hide Search, Escape, ReadString;
    var u := ValueText(Str(s)) + w;
    assert u == ['"'] + (Escape(s) + (['"'] + w));
    assert u[1..] == Escape(s) + (['"'] + w);
    forall room: nat ensures ReadString(u[1..], room) == if |s| <= room then Some(s) else None {
      EscapedIsRead(s, w, room);
    }
    assert "true"[0] != u[0] && "false"[0] != u[0];
  }

  lemma NumberIsRead(t: string, key: string, n: nat, w: string)
    requires Search(t, key) == Some(Decimal(n) + w) && w != [] && !IsDigit(w[0]) && n <= MAX_U32
    ensures ReadsAs(t, key, Num(n))
  {
    hide Search, Decimal, ReadNumber;
    DecimalDigits(n);
    DecimalIsRead(n, w);
    NumberEnds(w, n);
    var u := Decimal(n) + w;
    assert IsDigit(u[0]);
    assert "true"[0] != u[0] && "false"[0] != u[0];
  }

  lemma ValueIsRead(t: string, key: string, v: Value, w: string)
    requires Search(t, key) == Some(ValueText(v) + w) && w != [] && !IsDigit(w[0])
    requires v.Num? ==> v.n <= MAX_U32
    ensures ReadsAs(t, key, v)
  {
    hide Search, Escape, Decimal;
    match v {
      case Str(s) => hide ReadsAs; StringIsRead(t, key, s, w);
      case Num(n) => hide ReadsAs; NumberIsRead(t, key, n, w);
      case Flag(b) => FlagIsRead(b, w);
    }
  }

  lemma NumberEnds(w: string, n: nat)
    requires w != [] && !IsDigit(w[0])
    ensures ReadNumber(w, n) == Some(n)
  {}

  /** Scanning a printed object gives every field back exactly, whatever the
      string values contain; a key that was not printed is not found. */
  lemma PrintedIsScanned(fs: seq<Field>, key: string)
    requires GoodFields(fs)
    ensures forall i :: 0 <= i < |fs| ==> ReadsAs(Printed(fs), fs[i].key, fs[i].value)
    ensures GoodKey(key) && (forall i :: 0 <= i < |fs| ==> fs[i].key != key) ==> Search(Printed(fs), key) == None
  {
    hide Search, ReadsAs, GoodKey, ValueText, FieldText;
    forall i | 0 <= i < |fs| ensures ReadsAs(Printed(fs), fs[i].key, fs[i].value) {
      SearchSkips("{", Tail(true, fs), fs[i].key);
      SearchFinds(true, fs, i);
      var w := Tail(false, fs[i + 1..]);
      assert w != [] && !IsDigit(w[0]) by { TailStarts(fs[i + 1..]); }
      ValueIsRead(Printed(fs), fs[i].key, fs[i].value, w);
    }
    SearchSkips("{", Tail(true, fs), key);
    if GoodKey(key) && forall i :: 0 <= i < |fs| ==> fs[i].key != key {
      SearchMisses(true, fs, key);
    }
  }

  lemma TailStarts(fs: seq<Field>)
    ensures Tail(false, fs) != [] && Tail(false, fs)[0] in {',', '}'}
  {}

  lemma Regroup(a: string, b: string, c: string)
    ensures (a + b) + c == a + (b + c)
  {}

  // ---- objects of three fields -----------------------------------------------------------------

  /** A bound on the length of a printed object. */
  function Weight(fs: seq<Field>): nat {
    if fs == [] then 2 else |fs[0].key| + 4 + |ValueText(fs[0].value)| + Weight(fs[1..])
  }

  lemma {:induction false} TailWithin(first: bool, fs: seq<Field>)
    ensures |Tail(first, fs)| < Weight(fs)
  {
    hide ValueText;
    if fs != [] { TailWithin(false, fs[1..]); }
  }

  predicate PlainKey(key: string) {
    key != [] && '"' !in key && '\\' !in key && !Blank(key[0]) && key[0] != ':'
  }

  lemma ThreeFields(a: Field, b: Field, c: Field)
    requires PlainKey(a.key) && PlainKey(b.key) && PlainKey(c.key)
    requires a.key != b.key && a.key != c.key && b.key != c.key
    requires Fits(a.value) && Fits(b.value) && Fits(c.value)
    ensures GoodFields([a, b, c])
    ensures |Printed([a, b, c])| <= 14 + |a.key| + |b.key| + |c.key| +
              |ValueText(a.value)| + |ValueText(b.value)| + |ValueText(c.value)|
  {
    PlainIsGood(a.key);
    PlainIsGood(b.key);
    PlainIsGood(c.key);
    ThreeWeights(a, b, c);
    TailWithin(true, [a, b, c]);
    ThreeAreGood(a, b, c);
    hide GoodFields, ValueText, Tail, Weight, GoodKey, PlainKey, Fits;
  }

  lemma ThreeAreGood(a: Field, b: Field, c: Field)
    requires GoodKey(a.key) && GoodKey(b.key) && GoodKey(c.key)
    requires a.key != b.key && a.key != c.key && b.key != c.key
    requires Fits(a.value) && Fits(b.value) && Fits(c.value)
    ensures GoodFields([a, b, c])
  {
    hide GoodKey, Fits;
    var fs := [a, b, c];
    assert fs[0] == a && fs[1] == b && fs[2] == c;
  }

  lemma PlainIsGood(key: string)
    requires PlainKey(key)
    ensures GoodKey(key)
  {
    NotBlank(key);
    NoBackslash(key);
    hide EscapesQuote;
  }

  lemma {:induction false} NoBackslash(key: string)
    requires '\\' !in key
    ensures !EscapesQuote(key)
  {
    if key != [] { NoBackslash(key[1..]); }
  }

  lemma ThreeWeights(a: Field, b: Field, c: Field)
    ensures Weight([a, b, c]) == 14 + |a.key| + |b.key| + |c.key| +
              |ValueText(a.value)| + |ValueText(b.value)| + |ValueText(c.value)|
  {
    hide ValueText;
    assert [a, b, c][1..] == [b, c] && [b, c][1..] == [c] && [c][1..] == [];
    assert Weight([c]) == 6 + |c.key| + |ValueText(c.value)|;
    assert Weight([b, c]) == |b.key| + 4 + |ValueText(b.value)| + Weight([c]);
  }
}
