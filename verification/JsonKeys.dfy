/** For which keys the scanner can be trusted, exactly. */
module JsonKeys {
  import opened Uhal
  import opened JsonText

  /** Every field scans back as what was printed. */
  ghost predicate ReadsBack(fs: seq<Field>) {
    forall i :: 0 <= i < |fs| ==> ReadsAs(Printed(fs), fs[i].key, fs[i].value)
  }

  /** A printable list in which `key` stands at `i`, among good keys. */
  ghost predicate Among(fs: seq<Field>, i: nat, key: string) {
    && i < |fs| && fs[i].key == key
    && (forall j :: 0 <= j < |fs| ==> Fits(fs[j].value) && (j != i ==> GoodKey(fs[j].key)))
    && (forall j, k :: 0 <= j < k < |fs| ==> fs[j].key != fs[k].key)
  }

  /** A key without a quote is safe among good keys, whatever the values are, if and only
      if it is good itself. */
  lemma KeyIsSafe(key: string)
    requires '"' !in key
    ensures GoodKey(key) <==> forall fs, i :: Among(fs, i, key) ==> ReadsBack(fs)
  {
    if GoodKey(key) {
      forall fs, i | Among(fs, i, key) ensures ReadsBack(fs) { SafeAmong(fs, i, key); }
    } else if !NoColon(key) {
      ColonKeyIsConfused(key);
    } else {
      BackslashKeyIsConfused(key);
    }
  }

  lemma SafeAmong(fs: seq<Field>, i: nat, key: string)
    requires Among(fs, i, key) && GoodKey(key)
    ensures ReadsBack(fs)
  {
    hide GoodKey, Fits, ReadsAs, Printed;
    assert GoodFields(fs);
    PrintedIsScanned(fs, key);
  }

  // ---- a value that is not what the text begins with ---------------------------------------

  /** A value that no text beginning with `c` reads as. */
  function Decoy(c: char): Value { if IsDigit(c) then Flag(true) else Num(0) }

  lemma DecoyIsNotRead(t: string, key: string, u: string)
    requires Search(t, key) == Some(u) && u != []
    ensures !ReadsAs(t, key, Decoy(u[0]))
  {
    hide Search;
    if IsDigit(u[0]) {
      assert u[0] != "true"[0] && u[0] != "false"[0];
      assert GetFlag(t, key) == None;
    } else {
      assert GetNumber(t, key) == None;
    }
  }

  lemma NumberIsNotRead(t: string, key: string, u: string, n: nat)
    requires Search(t, key) == Some(u) && u != [] && !IsDigit(u[0])
    ensures !ReadsAs(t, key, Num(n))
  {
    hide Search;
    assert GetNumber(t, key) == None;
  }

  // ---- where a key is found ---------------------------------------------------------------

  /** The key is found between quotes, if a colon follows. */
  lemma MatchedAt(key: string, rest: string)
    ensures Matched(['"'] + (key + (['"'] + rest)), key) == PastColon(rest)
  {
    hide PastColon;
    var t := ['"'] + (key + (['"'] + rest));
    assert t[1..1 + |key|] == key;
    assert t[|key| + 2..] == rest;
  }

  lemma SearchHere(t: string, key: string)
    requires Matched(t, key).Some?
    ensures Search(t, key) == Matched(t, key)
  {}

  lemma ColonThen(u: string)
    requires u != [] && !Blank(u[0])
    ensures PastColon([':'] + u) == Some(u)
  {
    NotBlank([':'] + u);
    NotBlank(u);
    assert ([':'] + u)[1..] == u;
    hide SkipBlanks;
  }

  lemma FoundAt(key: string, u: string)
    requires u != [] && !Blank(u[0])
    ensures Search(['"'] + (key + (['"'] + ([':'] + u))), key) == Some(u)
  {
    MatchedAt(key, [':'] + u);
    ColonThen(u);
    hide Matched, Search, PastColon;
    SearchHere(['"'] + (key + (['"'] + ([':'] + u))), key);
  }

  /** A quote and a character that the key does not begin with are walked past. */
  lemma SearchPastOne(c: char, t: string, key: string)
    requires key != [] && key[0] != c && c != '"'
    ensures Search(['"'] + ([c] + t), key) == Search(t, key)
  {
    hide Search, Matched;
    MatchedShape(['"'] + ([c] + t), key);
    SearchSteps('"', [c] + t, key);
    SearchSkips([c], t, key);
  }

  // ---- a key in front of a colon -------------------------------------------------------------

  /** The text behind the colon that such a key begins with. */
  function BehindColon(key: string): string
    requires !NoColon(key)
  {
    SkipBlanks(SkipBlanks(key)[1..])
  }

  lemma ColonKeyPasses(key: string, t: string)
    requires !NoColon(key) && t != [] && !Blank(t[0])
    ensures PastColon(key + t) == Some(BehindColon(key) + t)
  {
    hide SkipBlanks;
    var k := SkipBlanks(key);
    BlanksThen(key, t);
    BlanksThen(k[1..], t);
    PastColonOf(key + t, k + t);
    assert (k + t)[1..] == k[1..] + t;
  }

  /** Looking past a colon, the blanks in front of it known. */
  lemma PastColonOf(t: string, b: string)
    requires SkipBlanks(t) == b
    ensures PastColon(t) == if b == [] || b[0] != ':' then None else Some(SkipBlanks(b[1..]))
  {}

  /** What a value behind the comma would begin with. */
  function Misleading(key: string): char
    requires !NoColon(key)
  {
    (BehindColon(key) + ['"'])[0]
  }

  /** Behind an empty string, such a key makes the comma between two fields look like the
      key `,`. */
  lemma ColonKeyIsConfused(key: string)
    requires '"' !in key && !NoColon(key)
    ensures exists fs, i :: Among(fs, i, key) && !ReadsBack(fs)
  {
    hide *;
    var c := Misleading(key);
    var fs := [Field("a", Str("")), Field(key, Num(1)), Field(",", Decoy(c))];
    CommaListIsFine(fs, key, c);
    CommaIsMisread(fs, key, c);
  }

  lemma CommaIsMisread(fs: seq<Field>, key: string, c: char)
    requires |fs| == 3 && fs[0] == Field("a", Str("")) && fs[1] == Field(key, Num(1)) && fs[2] == Field(",", Decoy(c))
    requires !NoColon(key) && c == Misleading(key)
    ensures !ReadsBack(fs)
  {
    var behind := ['"', ':'] + (Decimal(1) + Tail(false, [fs[2]]));
    var u := BehindColon(key) + behind;
    assert behind != [] && behind[0] == '"' && !Blank(behind[0]);
    assert u != [] && u[0] == c;
    hide *;
    CommaText(fs, behind);
    CommaIsFound(key, behind);
    DecoyIsNotRead(Printed(fs), ",", u);
    NotReadBack(fs, 2);
  }

  lemma NotReadBack(fs: seq<Field>, i: nat)
    requires i < |fs| && !ReadsAs(Printed(fs), fs[i].key, fs[i].value)
    ensures !ReadsBack(fs)
  {
    hide ReadsAs, Printed;
  }

  lemma CommaListIsFine(fs: seq<Field>, key: string, c: char)
    requires |fs| == 3 && fs[0] == Field("a", Str("")) && fs[1] == Field(key, Num(1)) && fs[2] == Field(",", Decoy(c))
    requires !NoColon(key)
    ensures Among(fs, 1, key)
  {
    hide *;
    CommaKeys(key);
    DecoyFits(c);
    MiddleOfThree(fs, key);
  }

  lemma CommaKeys(key: string)
    requires !NoColon(key)
    ensures GoodKey("a") && GoodKey(",") && key != "a" && key != ","
  {
    hide NoColon, EscapesQuote;
    PlainIsGood("a");
    PlainIsGood(",");
  }

  lemma DecoyFits(c: char)
    ensures Fits(Str("")) && Fits(Num(1)) && Fits(Decoy(c))
  {}

  lemma MiddleOfThree(fs: seq<Field>, key: string)
    requires |fs| == 3 && fs[1].key == key && GoodKey(fs[0].key) && GoodKey(fs[2].key)
    requires Fits(fs[0].value) && Fits(fs[1].value) && Fits(fs[2].value)
    requires fs[0].key != key && fs[2].key != key && fs[0].key != fs[2].key
    ensures Among(fs, 1, key)
  {
    hide GoodKey, Fits;
  }

  lemma CommaText(fs: seq<Field>, behind: string)
    requires |fs| == 3 && fs[0] == Field("a", Str("")) && fs[1].value == Num(1)
    requires behind == ['"', ':'] + (Decimal(1) + Tail(false, [fs[2]]))
    ensures Printed(fs) == "{" + (['"'] + (['a'] + (['"'] + ([':'] + (['"'] + (['"'] + ([','] + (['"'] + (fs[1].key + behind)))))))))
  {
    assert fs[1..] == [fs[1], fs[2]] && fs[1..][1..] == [fs[2]];
    FirstTail(true, fs);
    FirstTail(false, fs[1..]);
    hide Decimal, Tail, FieldText;
    var t := Tail(false, fs[1..]);
    FieldThen(true, fs[0], t);
    FieldThen(false, fs[1], Tail(false, [fs[2]]));
    assert t == [','] + (['"'] + (fs[1].key + behind));
    EmptyString(t);
  }

  lemma EmptyString(t: string)
    ensures Comma(true) + (['"'] + ("a" + (['"', ':'] + (ValueText(Str("")) + t)))) ==
            ['"'] + (['a'] + (['"'] + ([':'] + (['"'] + (['"'] + t)))))
  {
    assert ValueText(Str("")) + t == ['"'] + (['"'] + t);
    hide ValueText;
  }

  lemma CommaIsFound(key: string, behind: string)
    requires !NoColon(key) && behind != [] && !Blank(behind[0])
    ensures Search("{" + (['"'] + (['a'] + (['"'] + ([':'] + (['"'] + (['"'] + ([','] + (['"'] + (key + behind))))))))), ",")
            == Some(BehindColon(key) + behind)
  {
    hide *;
    var t := ['"'] + ([','] + (['"'] + (key + behind)));
    var t1 := ['"'] + ([':'] + (['"'] + t));
    SearchSkips("{", ['"'] + (['a'] + t1), ",");
    SearchPastOne('a', t1, ",");
    SearchPastOne(':', ['"'] + t, ",");
    MatchedShape(['"'] + t, ",");
    SearchSteps('"', t, ",");
    MatchedAt(",", key + behind);
    ColonKeyPasses(key, behind);
    SearchHere(t, ",");
  }

  // ---- a key that goes on with an escaped quote ------------------------------------------------

  /** The text whose printed form, and a backslash, are the key. */
  function Unescaped(key: string): string
    requires EscapesQuote(key)
  {
    if key[0] != '\\' then [key[0]] + Unescaped(key[1..])
    else if |key| == 1 then []
    else ['\\'] + Unescaped(key[2..])
  }

  lemma {:induction false} UnescapedIsPrinted(key: string)
    requires EscapesQuote(key) && '"' !in key
    ensures key == Escape(Unescaped(key)) + ['\\'] && '"' !in Unescaped(key)
  {
    var t := Unescaped(key);
    if key[0] != '\\' {
      UnescapedIsPrinted(key[1..]);
      assert t[1..] == Unescaped(key[1..]);
      assert key == [key[0]] + key[1..];
    } else if |key| > 1 {
      UnescapedIsPrinted(key[2..]);
      assert t[1..] == Unescaped(key[2..]);
      assert key == ['\\', '\\'] + key[2..];
    }
  }

  lemma {:induction false} PrintedEscapesQuote(t: string)
    requires '"' !in t
    ensures EscapesQuote(Escape(t) + ['\\']) && '"' !in Escape(t)
  {
    if t != [] {
      var (e, h) := (Escape(t[1..]), EscapedChar(t[0]));
      PrintedEscapesQuote(t[1..]);
      assert Escape(t) + ['\\'] == h + (e + ['\\']);
      assert (h + (e + ['\\']))[|h|..] == e + ['\\'];
    }
  }

  /** Such keys are the printed forms of texts without quotes, and a backslash. */
  lemma EscapesQuoteMeans(key: string)
    requires '"' !in key
    ensures EscapesQuote(key) <==> exists t :: '"' !in t && key == Escape(t) + ['\\']
  {
    if EscapesQuote(key) { UnescapedIsPrinted(key); }
    if t :| '"' !in t && key == Escape(t) + ['\\'] { PrintedEscapesQuote(t); }
  }

  /** A string that begins like the key and goes on with a quote and a colon is mistaken for it. */
  lemma BackslashKeyIsConfused(key: string)
    requires '"' !in key && NoColon(key) && EscapesQuote(key)
    ensures exists fs, i :: Among(fs, i, key) && !ReadsBack(fs)
  {
    hide *;
    EscapeLast(key);
    UnescapedIsPrinted(key);
    DecoyMisleads(Unescaped(key), key);
  }

  lemma DecoyMisleads(t: string, key: string)
    requires key == Escape(t) + ['\\'] && '"' !in key && NoColon(key)
    ensures exists fs, i :: Among(fs, i, key) && !ReadsBack(fs)
  {
    hide *;
    assert key[|key| - 1] == '\\';
    var fs := [Field("a", Str(t + ['"', ':', 'x'])), Field(key, Num(5))];
    PairIsFine(fs, key);
    DecoyIsMisread(fs, t, key);
  }

  lemma DecoyIsMisread(fs: seq<Field>, t: string, key: string)
    requires |fs| == 2 && fs[0] == Field("a", Str(t + ['"', ':', 'x'])) && fs[1] == Field(key, Num(5))
    requires key == Escape(t) + ['\\'] && '"' !in key && NoColon(key)
    ensures !ReadsBack(fs)
  {
    var u := ['x', '"'] + Tail(false, [fs[1]]);
    assert u != [] && !Blank(u[0]) && !IsDigit(u[0]);
    assert key != "a" by { assert key[|key| - 1] == '\\'; }
    hide *;
    DecoyText(fs, t, key, u);
    DecoyIsFound(key, u);
    NumberIsNotRead(Printed(fs), key, u, 5);
    NotReadBack(fs, 1);
  }

  lemma PairIsFine(fs: seq<Field>, key: string)
    requires |fs| == 2 && fs[0].key == "a" && fs[0].value.Str? && fs[1] == Field(key, Num(5))
    requires key != [] && key[|key| - 1] == '\\'
    ensures Among(fs, 1, key)
  {
    LettersDiffer(key);
    hide *;
    SecondOfTwo(fs, key);
  }

  lemma LettersDiffer(key: string)
    requires key != [] && key[|key| - 1] == '\\'
    ensures key != "a" && GoodKey("a")
  {
    hide GoodKey;
    PlainIsGood("a");
  }

  lemma SecondOfTwo(fs: seq<Field>, key: string)
    requires |fs| == 2 && GoodKey(fs[0].key) && fs[0].key != key && fs[0].value.Str? && fs[1] == Field(key, Num(5))
    ensures Among(fs, 1, key)
  {
    hide GoodKey;
  }

  lemma {:induction false} EscapeLast(key: string)
    requires EscapesQuote(key)
    ensures key != [] && key[|key| - 1] == '\\'
  {
    if key[0] != '\\' {
      EscapeLast(key[1..]);
    } else if |key| > 1 {
      EscapeLast(key[2..]);
    }
  }

  lemma EscapedEnd()
    ensures Escape(['"', ':', 'x']) == ['\\', '"', ':', 'x']
  {
    assert ['"', ':', 'x'][1..] == [':', 'x'] && [':', 'x'][1..] == ['x'] && ['x'][1..] == [];
  }

  lemma DecoyText(fs: seq<Field>, t: string, key: string, u: string)
    requires |fs| == 2 && fs[0] == Field("a", Str(t + ['"', ':', 'x'])) && key == Escape(t) + ['\\']
    requires u == ['x', '"'] + Tail(false, [fs[1]])
    ensures Printed(fs) == "{" + (['"'] + ("a" + (['"', ':'] + (['"'] + (key + (['"'] + ([':'] + u)))))))
  {
    var w := Tail(false, [fs[1]]);
    assert fs[1..] == [fs[1]];
    FirstTail(true, fs);
    FieldThen(true, fs[0], w);
    assert Comma(true) == [];
    hide *;
    DecoyValue(t, key, w);
  }

  lemma DecoyValue(t: string, key: string, w: string)
    requires key == Escape(t) + ['\\']
    ensures ValueText(Str(t + ['"', ':', 'x'])) + w == ['"'] + (key + (['"'] + ([':'] + (['x', '"'] + w))))
  {
    var e := Escape(t + ['"', ':', 'x']);
    assert ValueText(Str(t + ['"', ':', 'x'])) == ['"'] + e + ['"'];
    EscapeJoins(t, ['"', ':', 'x']);
    EscapedEnd();
    hide *;
    var rest := ['"'] + ([':'] + ['x']);
    EndParts(rest, w);
    Regroup(Escape(t), ['\\'], rest);
    assert e == key + rest;
    Requote(key, rest, w);
  }

  lemma EndParts(rest: string, w: string)
    requires rest == ['"'] + ([':'] + ['x'])
    ensures ['\\', '"', ':', 'x'] == ['\\'] + rest
    ensures rest + (['"'] + w) == ['"'] + ([':'] + (['x', '"'] + w))
  {
    Regroup(['"'], [':'] + ['x'], ['"'] + w);
    Regroup([':'], ['x'], ['"'] + w);
    assert ['x'] + (['"'] + w) == ['x', '"'] + w;
  }

  lemma Requote(key: string, rest: string, w: string)
    ensures ['"'] + (key + rest) + ['"'] + w == ['"'] + (key + (rest + (['"'] + w)))
  {
    Regroup(['"'] + (key + rest), ['"'], w);
    Regroup(['"'], key + rest, ['"'] + w);
    Regroup(key, rest, ['"'] + w);
  }

  lemma DecoyIsFound(key: string, u: string)
    requires '"' !in key && NoColon(key) && key != "a" && u != [] && !Blank(u[0])
    ensures Search("{" + (['"'] + ("a" + (['"', ':'] + (['"'] + (key + (['"'] + ([':'] + u))))))), key) == Some(u)
  {
    hide *;
    var t := ['"'] + (key + (['"'] + ([':'] + u)));
    SearchSkips("{", ['"'] + ("a" + (['"', ':'] + t)), key);
    SearchPastOpening("a", t, key);
    SearchPastClosing(t, key);
    FoundAt(key, u);
  }

  // ---- a key that holds a quote -----------------------------------------------------------------

  predicate EndsPlain(t: string) { t != [] && !Blank(t[|t| - 1]) && t[|t| - 1] != ':' }

  lemma {:induction false} SkipEndsPlain(t: string)
    requires EndsPlain(t)
    ensures EndsPlain(SkipBlanks(t))
  {
    if Blank(t[0]) { SkipEndsPlain(t[1..]); }
  }

  lemma {:induction false} SkipExtends(t: string, y: string)
    requires EndsPlain(t)
    ensures SkipBlanks(t + y) == SkipBlanks(t) + y
  {
    if Blank(t[0]) {
      assert (t + y)[1..] == t[1..] + y;
      SkipExtends(t[1..], y);
    } else {
      NotBlank(t + y);
      NotBlank(t);
    }
  }

  lemma PastColonExtends(t: string, y: string)
    requires EndsPlain(t)
    ensures PastColon(t).Some? ==> EndsPlain(PastColon(t).value)
    ensures PastColon(t + y) == match PastColon(t) case None => None case Some(z) => Some(z + y)
  {
    hide *;
    var b := SkipBlanks(t);
    SkipEndsPlain(t);
    SkipExtends(t, y);
    PastColonOf(t, b);
    PastColonOf(t + y, b + y);
    EndsIsSome(b);
    if b[0] == ':' {
      DropOne(b, y);
      EndsBehind(b, 1);
      SkipEndsPlain(b[1..]);
      SkipExtends(b[1..], y);
    } else {
      FirstOf(b, y);
    }
  }

  lemma DropOne(b: string, y: string)
    requires b != []
    ensures b + y != [] && (b + y)[0] == b[0] && (b + y)[1..] == b[1..] + y
  {}

  lemma FirstOf(b: string, y: string)
    requires b != []
    ensures b + y != [] && (b + y)[0] == b[0]
  {}

  lemma EndsIsSome(t: string)
    requires EndsPlain(t)
    ensures t != [] && (|t| == 1 ==> t[0] != ':')
  {}

  lemma EndsBehind(t: string, n: nat)
    requires EndsPlain(t) && n < |t|
    ensures EndsPlain(t[n..])
  {}

  lemma MatchedExtends(t: string, y: string, key: string)
    requires EndsPlain(t) && |key| + 2 < |t|
    ensures Matched(t, key).Some? ==> EndsPlain(Matched(t, key).value)
    ensures Matched(t + y, key) == match Matched(t, key) case None => None case Some(z) => Some(z + y)
  {
    var n := |key| + 2;
    assert (t + y)[1..1 + |key|] == t[1..1 + |key|];
    assert (t + y)[n..] == t[n..] + y;
    EndsBehind(t, n);
    PastColonExtends(t[n..], y);
    hide PastColon;
  }

  lemma MatchIsLong(t: string, key: string)
    requires Matched(t, key).Some? && EndsPlain(t)
    ensures |key| + 2 < |t|
  {
    hide EndsPlain, SkipBlanks;
    var n := |key| + 2;
    assert t[n..] != [] by { SkipBlanksIsShort(t[n..]); }
  }

  lemma SkipBlanksIsShort(t: string)
    requires PastColon(t).Some?
    ensures t != []
  {}

  /** What is found does not depend on what comes after it. */
  lemma {:induction false} SearchExtends(t: string, y: string, key: string)
    requires EndsPlain(t) && Search(t, key).Some?
    ensures EndsPlain(Search(t, key).value) && |key| + 2 < |t|
    ensures Search(t + y, key) == Some(Search(t, key).value + y)
  {
    hide Matched;
    if Matched(t, key).Some? {
      MatchIsLong(t, key);
      MatchedExtends(t, y, key);
    } else {
      assert (t + y)[1..] == t[1..] + y;
      SearchExtends(t[1..], y, key);
      MatchedExtends(t, y, key);
    }
  }

  lemma {:induction false} SearchReaches(p: string, t: string, key: string)
    requires Search(t, key).Some?
    ensures Search(p + t, key).Some?
  {
    if p == [] {
      assert p + t == t;
    } else {
      assert (p + t)[1..] == p[1..] + t;
      SearchReaches(p[1..], t, key);
    }
  }

  /** If a key holds a quote and ends in a good key behind it, that key cannot be read
      next to it, whatever stands in front of the quote. */
  lemma QuoteKeyIsConfused(u: string, v: string)
    requires GoodKey(v)
    ensures exists x :: Fits(x) && !ReadsAs(Printed([Field(u + ['"'] + v, Num(1)), Field(v, x)]), v, x)
  {
    var inner := ['"'] + (v + (['"'] + ([':'] + ['1'])));
    var q := ("{" + (['"'] + u)) + inner;
    FoundAt(v, ['1']);
    SearchReaches("{" + (['"'] + u), inner, v);
    assert q[|q| - 1] == '1';
    SearchExtends(q, "", v);
    var x := Decoy(Search(q, v).value[0]);
    var w := Tail(false, [Field(v, x)]);
    SearchExtends(q, w, v);
    QuoteText(u, v, x, q);
    hide Search, Printed, Tail;
    DecoyIsNotRead(q + w, v, Search(q, v).value + w);
  }

  lemma QuoteText(u: string, v: string, x: Value, q: string)
    requires q == ("{" + (['"'] + u)) + (['"'] + (v + (['"'] + ([':'] + ['1']))))
    ensures Printed([Field(u + ['"'] + v, Num(1)), Field(v, x)]) == q + Tail(false, [Field(v, x)])
  {
    var fs := [Field(u + ['"'] + v, Num(1)), Field(v, x)];
    var w := Tail(false, [Field(v, x)]);
    assert fs[1..] == [Field(v, x)];
    FirstTail(true, fs);
    FieldThen(true, fs[0], w);
    assert ValueText(Num(1)) == ['1'] && Comma(true) == [];
    hide *;
    QuoteParts(u, v, w);
  }

  lemma QuoteParts(u: string, v: string, w: string)
    ensures "{" + ([] + (['"'] + ((u + ['"'] + v) + (['"', ':'] + (['1'] + w)))))
            == (("{" + (['"'] + u)) + (['"'] + (v + (['"'] + ([':'] + ['1']))))) + w
  {
    var end := ['"'] + ([':'] + ['1']);
    assert ['"', ':'] + (['1'] + w) == end + w;
    var inner := ['"'] + (v + end);
    Regroup(u, ['"'], v);
    Regroup(u, ['"'] + v, end + w);
    Regroup(['"'], v, end + w);
    Regroup(v, end, w);
    Regroup(['"'], v + end, w);
    assert (u + ['"'] + v) + (end + w) == u + (inner + w);
    Regroup(['"'], u, inner + w);
    Regroup("{", ['"'] + u, inner + w);
    Regroup("{" + (['"'] + u), inner, w);
    assert [] + (['"'] + (u + (inner + w))) == ['"'] + (u + (inner + w));
  }
}
