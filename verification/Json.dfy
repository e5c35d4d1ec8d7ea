/** The writer of flat JSON objects into a bounded buffer, and the scanner that
    reads single fields back, proved against the text functions of `JsonText`. */
module Json {
  import opened Uhal
  import opened JsonText

  /** The part of a text that a buffer of `n` characters keeps. */
  function Clip(t: string, n: nat): string { if |t| <= n then t else t[..n] }

  /** Appending `text` to `s` in a buffer of `n` characters left `t`, and reported `ok`. */
  predicate Grew(s: string, t: string, text: string, n: nat, ok: bool) {
    |s| <= n && t == Clip(s + text, n) && ok == (|s| + |text| <= n)
  }

  lemma GrewThen(s: string, m: string, t: string, a: string, b: string, n: nat, ok: bool)
    requires Grew(s, m, a, n, true) && Grew(m, t, b, n, ok)
    ensures Grew(s, t, a + b, n, ok)
  {}

  lemma GrewMeans(s: string, t: string, text: string, n: nat, ok: bool)
    requires Grew(s, t, text, n, ok)
    ensures if ok then t == s + text else |s| + |text| > n
  {}

  lemma StaysFull(s: string, t: string, a: string, b: string, n: nat)
    requires Grew(s, t, a, n, false)
    ensures Grew(s, t, a + b, n, false)
  {}

  function QuotedKey(key: string): string { ['"'] + key + ['"', ':'] }

  function Prefix(first: bool, key: string): string { Comma(first) + QuotedKey(key) }

  class JsonWriter {
    const data: array<char>
    const capacity: nat
    var position: nat
    var first: bool
    var overflow: bool

    ghost predicate Valid()
      reads this
    {
      position <= capacity <= data.Length
    }

    ghost function Text(): string
      reads this, data
      requires Valid()
    {
      data[..position]
    }

    constructor (data: array<char>, capacity: nat)
      requires capacity <= data.Length
      ensures Valid() && this.data == data && this.capacity == capacity
      ensures Text() == "" && first && !overflow
    {
      this.data, this.capacity := data, capacity;
      position, first, overflow := 0, true, false;
    }

    /** What every operation that appends `text` does. */
    twostate predicate Appended(text: string, ok: bool)
      reads this, data
      requires old(Valid())
    {
      && Valid()
      && Grew(old(Text()), Text(), text, capacity, ok)
      && overflow == (old(overflow) || !ok)
    }

    method Put(value: char) returns (ok: bool)
      requires Valid()
      modifies this`position, this`overflow, data
      ensures Appended([value], ok)
    {
      if position >= capacity {
        overflow := true;
        assert (old(Text()) + [value])[..capacity] == old(Text());
        return false;
      }
      data[position] := value;
      position := position + 1;
      return true;
    }

    method Append(text: string) returns (ok: bool)
      requires Valid()
      modifies this`position, this`overflow, data
      ensures Appended(text, ok)
    {
      ghost var before := Text();
      assert before + text[..0] == before;
      for index := 0 to |text|
        invariant Valid() && overflow == old(overflow)
        invariant Text() == before + text[..index]
      {
        assert text[..index + 1] == text[..index] + [text[index]];
        var done := Put(text[index]);
        if !done {
          assert (before + text)[..capacity] == (before + text[..index])[..capacity];
          return false;
        }
      }
      assert text[..|text|] == text;
      return true;
    }

    method BeginObject() returns (ok: bool)
      requires Valid()
      modifies this`position, this`overflow, this`first, data
      ensures Appended("{", ok) && first
    {
      first := true;
      ok := Put('{');
    }

    /** Closes the object and puts a terminator behind it, which is not part of the text. */
    method EndObject() returns (ok: bool)
      requires Valid()
      modifies this`position, this`overflow, data
      ensures Valid() && Text() == Clip(old(Text()) + "}", capacity)
      ensures ok <==> |old(Text())| + 1 < capacity
      ensures overflow == (old(overflow) || !ok)
      ensures ok ==> data[position] == '\0'
    {
      ok := Put('}');
      if ok {
        if position >= capacity {
          overflow := true;
          return false;
        }
        data[position] := '\0';
      }
    }

    /** The comma, unless the field is the first, and the quoted key. */
    method FieldPrefix(key: string) returns (ok: bool)
      requires Valid()
      modifies this`position, this`overflow, this`first, data
      ensures Appended(Prefix(old(first), key), ok) && !first
    {
      ghost var before := Text();
      if !first {
        ok := Put(',');
        if !ok {
          StaysFull(before, Text(), ",", QuotedKey(key), capacity);
          return;
        }
      } else {
        assert before + Comma(true) == before;
      }
      first := false;
      ghost var middle := Text();
      ok := PutKey(key);
      hide Clip;
      GrewThen(before, middle, Text(), Comma(old(first)), QuotedKey(key), capacity, ok);
    }

    /** The part of `FieldPrefix` behind the comma. */
    method PutKey(key: string) returns (ok: bool)
      requires Valid()
      modifies this`position, this`overflow, data
      ensures Appended(QuotedKey(key), ok)
    {
      ghost var before := Text();
      assert before + QuotedKey(key) == ((before + ['"']) + key) + ['"'] + [':'];
      ok := Put('"');
      if ok { ok := Append(key); }
      if ok { ok := Put('"'); }
      if ok { ok := Put(':'); }
    }

    method FieldBool(key: string, value: bool) returns (ok: bool)
      requires Valid()
      modifies this`position, this`overflow, this`first, data
      ensures Appended(FieldText(old(first), Field(key, Flag(value))), ok) && !first
    {
      hide Clip;
      ghost var before := Text();
      FieldSplits(old(first), Field(key, Flag(value)));
      ok := FieldPrefix(key);
      ghost var middle := Text();
      if !ok {
        StaysFull(before, middle, Prefix(old(first), key), ValueText(Flag(value)), capacity);
        return;
      }
      ok := Append(if value then "true" else "false");
      GrewThen(before, middle, Text(), Prefix(old(first), key), ValueText(Flag(value)), capacity, ok);
    }

    method FieldU32(key: string, value: nat) returns (ok: bool)
      requires Valid() && value <= MAX_U32
      modifies this`position, this`overflow, this`first, data
      ensures Appended(FieldText(old(first), Field(key, Num(value))), ok) && !first
    {
      hide Clip;
      ghost var before := Text();
      FieldSplits(old(first), Field(key, Num(value)));
      ok := FieldPrefix(key);
      ghost var middle := Text();
      if !ok {
        StaysFull(before, middle, Prefix(old(first), key), ValueText(Num(value)), capacity);
        return;
      }
      var digits, count := Digits(value);
      BackwardsAt(digits[..count]);
      ok := PutDigits(digits, count, Decimal(value));
      GrewThen(before, middle, Text(), Prefix(old(first), key), ValueText(Num(value)), capacity, ok);
    }

    /** The digits go out in the reverse of the order they were computed in. */
    method PutDigits(digits: array<char>, size: nat, ghost text: string) returns (ok: bool)
      requires Valid() && size == |text| <= digits.Length && digits != data
      requires forall k :: 0 <= k < size ==> digits[k] == text[size - 1 - k]
      modifies this`position, this`overflow, data
      ensures Appended(text, ok)
    {
      ghost var before := Text();
      var count: nat := size;
      assert before + text[..0] == before;
      while count > 0
        invariant Valid() && overflow == old(overflow) && count <= size
        invariant Text() == before + text[..size - count]
      {
        count := count - 1;
        assert text[..size - count] == text[..size - count - 1] + [digits[count]];
        var done := Put(digits[count]);
        if !done {
          assert (before + text)[..capacity] == (before + text[..size - count - 1])[..capacity];
          return false;
        }
      }
      assert text[..size] == text;
      return true;
    }

    method FieldString(key: string, value: string) returns (ok: bool)
      requires Valid()
      modifies this`position, this`overflow, this`first, data
      ensures Appended(FieldText(old(first), Field(key, Str(value))), ok) && !first
    {
      hide Clip;
      ghost var before := Text();
      FieldSplits(old(first), Field(key, Str(value)));
      ok := FieldPrefix(key);
      ghost var middle := Text();
      if !ok {
        StaysFull(before, middle, Prefix(old(first), key), ValueText(Str(value)), capacity);
        return;
      }
      ok := PutString(value);
      GrewThen(before, middle, Text(), Prefix(old(first), key), ValueText(Str(value)), capacity, ok);
    }

    /** The part of `FieldString` behind the key. */
    method PutString(value: string) returns (ok: bool)
      requires Valid()
      modifies this`position, this`overflow, data
      ensures Appended(['"'] + Escape(value) + ['"'], ok)
    {
      hide Clip, Escape;
      ghost var (before, text) := (Text(), ['"'] + Escape(value) + ['"']);
      ok := Put('"');
      if !ok {
        assert text == ['"'] + (Escape(value) + ['"']);
        StaysFull(before, Text(), ['"'], Escape(value) + ['"'], capacity);
        return;
      }
      EscapeEmpty();
      assert value[..0] == "" && ['"'] + Escape(value[..0]) == ['"'];
      for index := 0 to |value|
        invariant Valid() && overflow == old(overflow)
        invariant Grew(before, Text(), ['"'] + Escape(value[..index]), capacity, true)
      {
        ghost var m := Text();
        EscapeMore(value, index);
        var (head, tail) := (['"'] + Escape(value[..index]), EscapedChar(value[index]));
        assert ['"'] + Escape(value[..index + 1]) == head + tail;
        ok := PutEscaped(value[index]);
        GrewThen(before, m, Text(), head, tail, capacity, ok);
        if !ok {
          EscapeRest(value, index + 1);
          assert text == (head + tail) + (Escape(value[index + 1..]) + ['"']);
          StaysFull(before, Text(), head + tail, Escape(value[index + 1..]) + ['"'], capacity);
          return;
        }
      }
      assert value[..|value|] == value;
      ghost var m := Text();
      ok := Put('"');
      GrewThen(before, m, Text(), ['"'] + Escape(value), ['"'], capacity, ok);
    }

    /** One character of a string, behind a backslash if it needs one. */
    method PutEscaped(character: char) returns (ok: bool)
      requires Valid()
      modifies this`position, this`overflow, data
      ensures Appended(EscapedChar(character), ok)
    {
      ghost var before := Text();
      if Special(character) {
        ok := Put('\\');
        if !ok {
          StaysFull(before, Text(), ['\\'], [character], capacity);
          return;
        }
        assert before + EscapedChar(character) == (before + ['\\']) + [character];
      }
      ok := Put(character);
    }
  }

  lemma FieldSplits(first: bool, f: Field)
    ensures FieldText(first, f) == Prefix(first, f.key) + ValueText(f.value)
  {}

  lemma EscapeEmpty()
    ensures Escape("") == ""
  {}

  lemma EscapeOne(c: char)
    ensures Escape([c]) == EscapedChar(c)
  {}

  lemma EscapeMore(s: string, k: nat)
    requires k < |s|
    ensures Escape(s[..k + 1]) == Escape(s[..k]) + EscapedChar(s[k])
  {
    EscapeOne(s[k]);
    hide Escape;
    EscapeJoins(s[..k], [s[k]]);
    assert s[..k] + [s[k]] == s[..k + 1];
  }

  lemma EscapeRest(s: string, k: nat)
    requires k <= |s|
    ensures Escape(s) == Escape(s[..k]) + Escape(s[k..])
  {
    hide Escape;
    EscapeJoins(s[..k], s[k..]);
    assert s[..k] + s[k..] == s;
  }

  function Backwards(s: string): string { if s == [] then [] else Backwards(s[1..]) + [s[0]] }

  lemma {:induction false} BackwardsAt(s: string)
    ensures |Backwards(s)| == |s|
    ensures forall k :: 0 <= k < |s| ==> Backwards(s)[|s| - 1 - k] == s[k]
  {
    if s != [] { BackwardsAt(s[1..]); }
  }

  lemma {:induction false} BackwardsPut(s: string, c: char)
    ensures Backwards(s + [c]) == [c] + Backwards(s)
  {
    if s == [] {
      assert (s + [c])[1..] == s;
    } else {
      assert (s + [c])[1..] == s[1..] + [c];
      BackwardsPut(s[1..], c);
    }
  }

  /** A bound on what is left of a 32-bit number after `k` digits. */
  function Limit(k: nat): nat { if k == 0 then MAX_U32 else Limit(k - 1) / 10 }

  lemma TenDigits()
    ensures Limit(10) == 0
  {}

  /** The digits still to come: a lone zero is printed only when nothing is yet. */
  function Remaining(value: nat, count: nat): string { if value == 0 && count > 0 then "" else Decimal(value) }

  lemma NothingRemains(count: nat)
    requires count > 0
    ensures Remaining(0, count) == ""
  {}

  lemma LimitStep(value: nat, k: nat)
    requires value <= Limit(k)
    ensures value / 10 <= Limit(k + 1)
  {}

  lemma RemainingStep(value: nat, count: nat)
    requires value > 0 || count == 0
    ensures Remaining(value, count) == Remaining(value / 10, count + 1) + [Digit(value % 10)]
  {}

  lemma OneDigit(number: nat, value: nat, count: nat, low: string)
    requires value > 0 || count == 0
    requires Decimal(number) == Remaining(value, count) + Backwards(low)
    ensures Decimal(number) == Remaining(value / 10, count + 1) + Backwards(low + [Digit(value % 10)])
  {
    hide *;
    RemainingStep(value, count);
    BackwardsPut(low, Digit(value % 10));
    Regroup(Remaining(value / 10, count + 1), [Digit(value % 10)], Backwards(low));
  }

  /** The digits of a 32-bit number, lowest first: ten places are enough. */
  method Digits(number: nat) returns (digits: array<char>, count: nat)
    requires number <= MAX_U32
    ensures fresh(digits) && count <= digits.Length == 10
    ensures Backwards(digits[..count]) == Decimal(number)
  {
    digits := new char[10](_ => '\0');
    count := 0;
    var value: nat, more := number, true;
    assert Remaining(value, count) + Backwards(digits[..count]) == Decimal(number);
    TenDigits();
    assert value <= Limit(count);
    hide Decimal, Backwards, Limit, Remaining;
    while more
      invariant count <= digits.Length == 10 && value <= Limit(count)
      invariant more ==> count < 10 && (value > 0 || count == 0)
      invariant Decimal(number) == Remaining(value, count) + Backwards(digits[..count])
      invariant !more ==> count > 0 && (value == 0 || count == 10)
      decreases 10 - count, more
    {
      ghost var low := digits[..count];
      OneDigit(number, value, count, low);
      LimitStep(value, count);
      digits[count] := Digit(value % 10);
      count := count + 1;
      assert digits[..count] == low + [Digit(value % 10)];
      value := value / 10;
      more := value != 0 && count < digits.Length;
    }
    NothingRemains(count);
    assert "" + Backwards(digits[..count]) == Backwards(digits[..count]);
  }

  class JsonScanner {
    const data: string

    constructor (data: string)
      ensures this.data == data
    {
      this.data := data;
    }

    /** Where the value of the key whose opening quote is at `start` begins, if it is one. */
    method MatchAt(start: nat, key: string) returns (input: Option<nat>)
      requires start < |data| && data[start] == '"'
      ensures input.None? <==> Matched(data[start..], key).None?
      ensures input.Some? ==> input.value <= |data| && Matched(data[start..], key) == Some(data[input.value..])
    {
      var same := KeyAt(start, key);
      if !same { return None; }
      assert data[start..][|key| + 2..] == data[start + |key| + 2..];
      hide StartsWithKey, PastColon;
      input := ColonAt(start + |key| + 2);
    }

    method ColonAt(start: nat) returns (input: Option<nat>)
      requires start <= |data|
      ensures input.None? <==> PastColon(data[start..]).None?
      ensures input.Some? ==> input.value <= |data| && PastColon(data[start..]) == Some(data[input.value..])
    {
      hide SkipBlanks, PastColon;
      PastColonMeans(data[start..]);
      var position := PastBlanks(start);
      if position >= |data| || data[position] != ':' { return None; }
      assert data[position..][1..] == data[position + 1..];
      position := PastBlanks(position + 1);
      return Some(position);
    }

    method KeyAt(start: nat, key: string) returns (same: bool)
      requires start < |data| && data[start] == '"'
      ensures same <==> StartsWithKey(data[start..], key)
    {
      ghost var t := data[start..];
      KeyPoints(t, key);
      var position: nat, keyIndex: nat := start + 1, 0;
      while position < |data| && keyIndex < |key| && data[position] == key[keyIndex]
        invariant keyIndex <= |key| && position == start + 1 + keyIndex <= |data|
        invariant forall k :: 0 <= k < keyIndex ==> t[1 + k] == key[k]
      {
        position := position + 1;
        keyIndex := keyIndex + 1;
      }
      if keyIndex < |key| || position >= |data| || data[position] != '"' { return false; }
      assert t[1..1 + |key|] == key;
      return true;
    }

    method PastBlanks(start: nat) returns (input: nat)
      requires start <= |data|
      ensures input <= |data| && data[input..] == SkipBlanks(data[start..])
    {
      hide SkipBlanks;
      input := start;
      while input < |data| && (data[input] == ' ' || data[input] == '\t')
        invariant start <= input <= |data|
        invariant SkipBlanks(data[start..]) == SkipBlanks(data[input..])
      {
        BlankAt(data, input);
        input := input + 1;
      }
      NotBlankAt(data, input);
    }

    /** The offset of the value of `key`, or the size of the text if there is none. */
    method FindValue(key: string) returns (position: nat)
      ensures position <= |data|
      ensures match Search(data, key) case None => position == |data| case Some(u) => u == data[position..]
    {
      hide Matched;
      var start := 0;
      assert data[0..] == data;
      while start < |data|
        invariant start <= |data|
        invariant Search(data, key) == Search(data[start..], key)
      {
        MatchedShape(data[start..], key);
        assert data[start..][1..] == data[start + 1..];
        if data[start] == '"' {
          var input := MatchAt(start, key);
          if input.Some? { return input.value; }
        }
        start := start + 1;
      }
      return |data|;
    }

    method Matches(position: nat, text: string) returns (same: bool)
      requires position <= |data|
      ensures same <==> text <= data[position..]
    {
      PrefixPoints(text, data[position..]);
      for index := 0 to |text|
        invariant position + index <= |data| && text[..index] == data[position..][..index]
      {
        if position + index >= |data| || data[position + index] != text[index] {
          return false;
        }
      }
      assert text[..|text|] == text;
      return true;
    }

    method ReadBool(key: string) returns (value: Option<bool>)
      ensures value == GetFlag(data, key)
    {
      hide Search;
      var position := FindValue(key);
      if position >= |data| { return None; }
      var same := Matches(position, "true");
      if same { return Some(true); }
      same := Matches(position, "false");
      return if same then Some(false) else None;
    }

    method ReadU32(key: string) returns (value: Option<nat>)
      ensures value == GetNumber(data, key)
    {
      hide Search;
      var position := FindValue(key);
      if position >= |data| || data[position] < '0' || data[position] > '9' { return None; }
      var parsed: nat := 0;
      ghost var start := position;
      while position < |data| && '0' <= data[position] <= '9'
        invariant start <= position <= |data| && parsed <= MAX_U32
        invariant ReadNumber(data[start..], 0) == ReadNumber(data[position..], parsed)
      {
        assert data[position..][1..] == data[position + 1..];
        var digit := DigitValue(data[position]);
        position := position + 1;
        if parsed > (MAX_U32 - digit) / 10 { return None; }
        parsed := parsed * 10 + digit;
      }
      return Some(parsed);
    }

    /** Copies the string of `key` and a terminator into the caller's buffer. */
    method ReadText(key: string, value: array<char>, capacity: nat) returns (ok: bool)
      requires capacity <= value.Length
      modifies value
      ensures ok <==> GetString(data, key, capacity).Some?
      ensures ok ==> TextCopied(key, capacity) == GetString(data, key, capacity).value
      ensures BufferHas(value[..], old(value[..]), TextCopied(key, capacity), ok)
    {
      hide Search;
      var position := FindValue(key);
      if position >= |data| || data[position] != '"' || capacity == 0 { return false; }
      assert data[position..][1..] == data[position + 1..];
      position := position + 1;
      ok := CopyString(position, value, capacity);
    }

    /** The characters that reading a string leaves in the buffer, whether it succeeds or not. */
    function TextCopied(key: string, capacity: nat): string {
      match Search(data, key)
      case None => []
      case Some(u) => if u == [] || u[0] != '"' || capacity == 0 then [] else Copied(u[1..], capacity - 1)
    }

    /** The part of `ReadText` behind the opening quote. */
    method CopyString(start: nat, value: array<char>, capacity: nat) returns (ok: bool)
      requires start <= |data| && 0 < capacity <= value.Length
      modifies value
      ensures ok <==> ReadString(data[start..], capacity - 1).Some?
      ensures ok ==> Copied(data[start..], capacity - 1) == ReadString(data[start..], capacity - 1).value
      ensures BufferHas(value[..], old(value[..]), Copied(data[start..], capacity - 1), ok)
    {
      hide ReadString, Copied;
      var position, output := start, 0;
      while position < |data| && data[position] != '"'
        invariant start <= position <= |data| && output < capacity
        invariant Copied(data[start..], capacity - 1) == value[..output] + Copied(data[position..], capacity - 1 - output)
        invariant ReadString(data[start..], capacity - 1).Some? <==> ReadString(data[position..], capacity - 1 - output).Some?
        invariant forall k :: output <= k < value.Length ==> value[k] == old(value[k])
        decreases |data| - position
      {
        OneChar(data, position, capacity - 1 - output);
        if output + 1 >= capacity { return false; }
        ghost var (before, rest) := (value[..output], Copied(data[position..], capacity - 1 - output));
        if data[position] == '\\' && position + 1 < |data| { position := position + 1; }
        value[output] := data[position];
        assert value[..output + 1] == before + [data[position]];
        output := output + 1;
        position := position + 1;
        Shifted(before, rest, data[position - 1], Copied(data[position..], capacity - 1 - output));
      }
      CopyEnds(data, position, capacity - 1 - output);
      CopiedIsRead(data[start..], capacity - 1);
      if position >= |data| || data[position] != '"' { return false; }
      value[output] := '\0';
      return true;
    }
  }

  /** The characters copied up to the closing quote, as long as there is room. */
  function Copied(t: string, room: nat): string {
    if t == [] || t[0] == '"' || room == 0 then []
    else
      var k := if t[0] == '\\' && |t| > 1 then 1 else 0;
      [t[k]] + Copied(t[k + 1..], room - 1)
  }

  /** The buffer begins with `s`, terminated if the call succeeded, and goes on as before. */
  ghost predicate BufferHas(buffer: string, before: string, s: string, terminated: bool) {
    && |s| <= |buffer| == |before| && buffer[..|s|] == s
    && (terminated ==> |s| < |buffer| && buffer[|s|] == '\0')
    && forall k :: |s| + (if terminated then 1 else 0) <= k < |buffer| ==> buffer[k] == before[k]
  }

  lemma {:induction false} CopiedIsRead(t: string, room: nat)
    ensures |Copied(t, room)| <= room
    ensures ReadString(t, room).Some? ==> ReadString(t, room).value == Copied(t, room)
  {
    if t != [] && t[0] != '"' && room > 0 {
      var k := if t[0] == '\\' && |t| > 1 then 1 else 0;
      CopiedIsRead(t[k + 1..], room - 1);
    }
  }

  lemma Shifted(before: string, rest: string, c: char, rest1: string)
    requires rest == [c] + rest1
    ensures before + rest == (before + [c]) + rest1
  {}

  /** At the end of the text or at a quote nothing more is copied. */
  lemma CopyEnds(data: string, position: nat, room: nat)
    requires position <= |data| && (position < |data| ==> data[position] == '"')
    ensures Copied(data[position..], room) == []
    ensures ReadString(data[position..], room).Some? <==> position < |data|
  {}

  /** One turn of the copy loop. */
  lemma OneChar(data: string, position: nat, room: nat)
    requires position < |data| && data[position] != '"'
    ensures room == 0 ==> ReadString(data[position..], room) == None && Copied(data[position..], room) == []
    ensures room > 0 ==>
              var k := position + (if data[position] == '\\' && position + 1 < |data| then 1 else 0);
              && (ReadString(data[position..], room).Some? <==> ReadString(data[k + 1..], room - 1).Some?)
              && Copied(data[position..], room) == [data[k]] + Copied(data[k + 1..], room - 1)
  {
    if room > 0 {
      var t := data[position..];
      var k := if t[0] == '\\' && |t| > 1 then 1 else 0;
      assert t[k + 1..] == data[position + k + 1..];
    }
  }

  lemma PastColonMeans(t: string)
    ensures PastColon(t) == var u := SkipBlanks(t); if u == [] || u[0] != ':' then None else Some(SkipBlanks(u[1..]))
  {}

  lemma KeyPoints(t: string, key: string)
    ensures StartsWithKey(t, key) ==> forall k :: 0 <= k < |key| ==> t[1 + k] == key[k]
  {}

  lemma BlankAt(t: string, k: nat)
    requires k < |t| && Blank(t[k])
    ensures SkipBlanks(t[k..]) == SkipBlanks(t[k + 1..])
  {}

  lemma NotBlankAt(t: string, k: nat)
    requires k <= |t| && (k < |t| ==> !Blank(t[k]))
    ensures SkipBlanks(t[k..]) == t[k..]
  {}

  lemma PrefixPoints(text: string, s: string)
    ensures text <= s ==> forall k :: 0 <= k < |text| ==> s[k] == text[k]
  {}

  // ---- the writer's object, read by the scanner ----------------------------------------

  method WriteField(writer: JsonWriter, f: Field) returns (ok: bool)
    requires writer.Valid() && (f.value.Num? ==> f.value.n <= MAX_U32)
    modifies writer`position, writer`overflow, writer`first, writer.data
    ensures writer.Appended(FieldText(old(writer.first), f), ok) && !writer.first
  {
    match f.value {
      case Str(s) => ok := writer.FieldString(f.key, s);
      case Num(n) => ok := writer.FieldU32(f.key, n);
      case Flag(b) => ok := writer.FieldBool(f.key, b);
    }
  }

  /** The pattern of every caller: fields between `BeginObject` and `EndObject`, stopping
      at the first failure. What is written is what the scanner reads back exactly. */
  method PrintObject(writer: JsonWriter, fs: seq<Field>) returns (ok: bool)
    requires writer.Valid() && writer.Text() == "" && GoodFields(fs)
    modifies writer`position, writer`overflow, writer`first, writer.data
    ensures writer.Valid()
    ensures ok <==> |Printed(fs)| < writer.capacity
    ensures ok ==> writer.Text() == Printed(fs)
    ensures ok ==> forall i :: 0 <= i < |fs| ==> ReadsAs(writer.Text(), fs[i].key, fs[i].value)
  {
    ok := writer.BeginObject();
    GrewMeans("", writer.Text(), "{", writer.capacity, ok);
    if !ok { return; }
    assert "" + "{" == "{";
    assert Printed(fs) == writer.Text() + Tail(true, fs);
    hide Tail, ReadsAs, GoodFields, Printed, Grew;
    ok := PrintFields(writer, fs);
    if !ok { return; }
    ok := writer.EndObject();
    PrintedIsScanned(fs, "");
  }

  method PrintFields(writer: JsonWriter, fs: seq<Field>) returns (ok: bool)
    requires writer.Valid() && writer.first && GoodFields(fs)
    modifies writer`position, writer`overflow, writer`first, writer.data
    ensures writer.Valid()
    ensures ok ==> writer.Text() + "}" == old(writer.Text()) + Tail(true, fs)
    ensures !ok ==> |old(writer.Text()) + Tail(true, fs)| > writer.capacity
  {
    ghost var all := Left(writer.Text(), true, fs, 0);
    LeftEnds(writer.Text(), true, fs);
    hide *;
    for k := 0 to |fs|
      invariant writer.Valid() && writer.first == (k == 0)
      invariant all == Left(writer.Text(), writer.first, fs, k)
    {
      ok := PrintField(writer, fs, k);
      if !ok { return; }
    }
    LeftEnds(writer.Text(), writer.first, fs);
    ok := true;
  }

  /** What is written, and the fields from the k-th on. */
  function Left(text: string, first: bool, fs: seq<Field>, k: nat): string
    requires k <= |fs|
  {
    text + Tail(first, fs[k..])
  }

  lemma LeftEnds(text: string, first: bool, fs: seq<Field>)
    ensures Left(text, first, fs, 0) == text + Tail(first, fs) && Left(text, first, fs, |fs|) == text + "}"
  {
    assert fs[0..] == fs;
    TailEnd(first, fs);
    hide Tail;
  }

  method PrintField(writer: JsonWriter, fs: seq<Field>, k: nat) returns (ok: bool)
    requires writer.Valid() && GoodFields(fs) && k < |fs|
    modifies writer`position, writer`overflow, writer`first, writer.data
    ensures writer.Valid() && !writer.first
    ensures ok ==> Left(writer.Text(), false, fs, k + 1) == old(Left(writer.Text(), writer.first, fs, k))
    ensures !ok ==> |old(Left(writer.Text(), writer.first, fs, k))| > writer.capacity
  {
    hide Tail, FieldText, GoodFields, Grew;
    ghost var (before, text) := (writer.Text(), FieldText(writer.first, fs[k]));
    TailStep(writer.first, fs, k, before);
    NumbersFit(fs, k);
    ok := WriteField(writer, fs[k]);
    GrewMeans(before, writer.Text(), text, writer.capacity, ok);
  }

  lemma TailStep(first: bool, fs: seq<Field>, k: nat, before: string)
    requires k < |fs|
    ensures before + Tail(first, fs[k..]) == (before + FieldText(first, fs[k])) + Tail(false, fs[k + 1..])
    ensures |before + Tail(first, fs[k..])| >= |before| + |FieldText(first, fs[k])|
  {}

  lemma TailEnd(first: bool, fs: seq<Field>)
    ensures Tail(first, fs[|fs|..]) == "}"
  {}

  lemma NumbersFit(fs: seq<Field>, k: nat)
    requires GoodFields(fs) && k < |fs|
    ensures fs[k].value.Num? ==> fs[k].value.n <= MAX_U32
  {}
}
