/** Reading JSON text, after RFC 8259. */
module Json {

  /** A UTF-16 code unit, the `char` of Java; a text is a Java string. */
  type Unit = u: int | 0 <= u < 0x1_0000
  type Text = seq<Unit>

  const QUOTE: Unit := 0x22
  const BACKSLASH: Unit := 0x5C
  const COMMA: Unit := 0x2C
  const COLON: Unit := 0x3A
  const LBRACKET: Unit := 0x5B
  const RBRACKET: Unit := 0x5D
  const LBRACE: Unit := 0x7B
  const RBRACE: Unit := 0x7D

  /** A value, section 3. */
  datatype Value =
    | Str(s: Text)
    | Arr(items: seq<Value>)
    | Obj(members: seq<(Text, Value)>)
    | Num(digits: Text)
    | True
    | False
    | Null

  /** What a reading function found at the start of a text, and what it left. */
  datatype Read<+T> = Got(value: T, rest: Text) | Bad

  /** The units of a string of ASCII characters. */
  function Ascii(s: string): Text {
    seq(|s|, i requires 0 <= i < |s| => if s[i] as int < 0x80 then s[i] as int else 0)
  }

  /** `ws`, section 2. */
  predicate IsWs(u: Unit) {
    u == 0x20 || u == 0x09 || u == 0x0A || u == 0x0D
  }

  function SkipWs(t: Text): (r: Text)
    ensures |r| <= |t|
  {
    if t != [] && IsWs(t[0]) then SkipWs(t[1..]) else t
  }

  // Strings, section 7.

  function HexDigit(u: Unit): int {
    if 0x30 <= u <= 0x39 then u - 0x30
    else if 0x41 <= u <= 0x46 then u - 0x41 + 10
    else if 0x61 <= u <= 0x66 then u - 0x61 + 10
    else -1
  }

  predicate IsHex(u: Unit) {
    HexDigit(u) >= 0
  }

  /** The escape sequence whose backslash has been read. */
  function ReadEscape(t: Text): (r: Read<Unit>)
    ensures r.Got? ==> |r.rest| < |t|
  {
    if t == [] then Bad
    else if t[0] == QUOTE || t[0] == BACKSLASH || t[0] == 0x2F then Got(t[0], t[1..])
    else if t[0] == 0x62 then Got(0x08, t[1..])
    else if t[0] == 0x66 then Got(0x0C, t[1..])
    else if t[0] == 0x6E then Got(0x0A, t[1..])
    else if t[0] == 0x72 then Got(0x0D, t[1..])
    else if t[0] == 0x74 then Got(0x09, t[1..])
    else if t[0] == 0x75 && |t| >= 5 && IsHex(t[1]) && IsHex(t[2]) && IsHex(t[3]) && IsHex(t[4]) then
      Got(((HexDigit(t[1]) * 16 + HexDigit(t[2])) * 16 + HexDigit(t[3])) * 16 + HexDigit(t[4]), t[5..])
    else Bad
  }

  /** The rest of a string whose opening quotation mark has been read. */
  function ReadChars(t: Text): (r: Read<Text>)
    ensures r.Got? ==> |r.rest| < |t|
    decreases |t|
  {
    if t == [] || t[0] < 0x20 then Bad
    else if t[0] == QUOTE then Got([], t[1..])
    else if t[0] == BACKSLASH then
      match ReadEscape(t[1..])
      case Bad => Bad
      case Got(u, rest) =>
        (match ReadChars(rest)
         case Bad => Bad
         case Got(s, rest') => Got([u] + s, rest'))
    else
      match ReadChars(t[1..])
      case Bad => Bad
      case Got(s, rest) => Got([t[0]] + s, rest)
  }

  // Numbers, section 6, and literal names, section 3.

  function DigitsEnd(t: Text): (n: nat)
    ensures n <= |t|
  {
    if t != [] && 0x30 <= t[0] <= 0x39 then 1 + DigitsEnd(t[1..]) else 0
  }

  function ReadInt(t: Text): (n: nat)
    ensures n <= |t|
  {
    if t != [] && t[0] == 0x30 then 1 else DigitsEnd(t)
  }

  function ReadFrac(t: Text): (n: nat)
    ensures n <= |t|
  {
    if t == [] || t[0] != 0x2E then 0
    else
      var u := t[1..];
      assert |u| == |t| - 1;
      if DigitsEnd(u) > 0 then 1 + DigitsEnd(u) else 0
  }

  function ReadExp(t: Text): (n: nat)
    ensures n <= |t|
  {
    if t == [] || !(t[0] == 0x65 || t[0] == 0x45) then 0
    else
      var sign := if |t| > 1 && (t[1] == 0x2B || t[1] == 0x2D) then 1 else 0;
      var u := t[1 + sign..];
      assert |u| == |t| - 1 - sign;
      var n := DigitsEnd(u);
      if n > 0 then 1 + sign + n else 0
  }

  function ReadNumber(t: Text): (r: Read<Value>)
    ensures r.Got? ==> |r.rest| < |t|
  {
    var minus := if t != [] && t[0] == 0x2D then 1 else 0;
    var i := ReadInt(t[minus..]);
    if i == 0 then Bad
    else
      var whole := minus + i;
      var frac := whole + ReadFrac(t[whole..]);
      var n := frac + ReadExp(t[frac..]);
      Got(Num(t[..n]), t[n..])
  }

  function ReadScalar(t: Text): (r: Read<Value>)
    ensures r.Got? ==> |r.rest| < |t|
  {
    if Ascii("true") <= t then Got(True, t[4..])
    else if Ascii("false") <= t then Got(False, t[5..])
    else if Ascii("null") <= t then Got(Null, t[4..])
    else ReadNumber(t)
  }

  // Values, objects and arrays, sections 3 to 5.

  function ReadValue(t: Text): (r: Read<Value>)
    ensures r.Got? ==> |r.rest| < |t|
    decreases |t|, 0
  {
    var t := SkipWs(t);
    if t == [] then Bad
    else if t[0] == QUOTE then
      match ReadChars(t[1..])
      case Bad => Bad
      case Got(s, rest) => Got(Str(s), rest)
    else if t[0] == LBRACKET then
      var u := SkipWs(t[1..]);
      if u != [] && u[0] == RBRACKET then Got(Arr([]), u[1..])
      else
        match ReadItems(t[1..])
        case Bad => Bad
        case Got(items, rest) => Got(Arr(items), rest)
    else if t[0] == LBRACE then
      var u := SkipWs(t[1..]);
      if u != [] && u[0] == RBRACE then Got(Obj([]), u[1..])
      else
        match ReadMembers(t[1..])
        case Bad => Bad
        case Got(members, rest) => Got(Obj(members), rest)
    else ReadScalar(t)
  }

  /** One or more values, with the closing bracket. */
  function ReadItems(t: Text): (r: Read<seq<Value>>)
    ensures r.Got? ==> |r.rest| < |t|
    decreases |t|, 1
  {
    match ReadValue(t)
    case Bad => Bad
    case Got(first, rest) =>
      var u := SkipWs(rest);
      if u == [] then Bad
      else if u[0] == RBRACKET then Got([first], u[1..])
      else if u[0] != COMMA then Bad
      else
        match ReadItems(u[1..])
        case Bad => Bad
        case Got(others, rest') => Got([first] + others, rest')
  }

  /** A name and the colon after it. */
  function ReadName(t: Text): (r: Read<Text>)
    ensures r.Got? ==> |r.rest| < |t|
  {
    var t := SkipWs(t);
    if t == [] || t[0] != QUOTE then Bad
    else
      match ReadChars(t[1..])
      case Bad => Bad
      case Got(name, rest) =>
        var u := SkipWs(rest);
        if u != [] && u[0] == COLON then Got(name, u[1..]) else Bad
  }

  /** One or more members, with the closing brace. */
  function ReadMembers(t: Text): (r: Read<seq<(Text, Value)>>)
    ensures r.Got? ==> |r.rest| < |t|
    decreases |t|, 1
  {
    match ReadName(t)
    case Bad => Bad
    case Got(name, rest) =>
      match ReadValue(rest)
      case Bad => Bad
      case Got(value, rest') =>
        var u := SkipWs(rest');
        if u == [] then Bad
        else if u[0] == RBRACE then Got([(name, value)], u[1..])
        else if u[0] != COMMA then Bad
        else
          match ReadMembers(u[1..])
          case Bad => Bad
          case Got(others, rest'') => Got([(name, value)] + others, rest'')
  }

  /** A whole JSON text: one value, with whitespace around it. */
  function ReadText(t: Text): Read<Value> {
    match ReadValue(t)
    case Bad => Bad
    case Got(value, rest) => if SkipWs(rest) == [] then Got(value, []) else Bad
  }

  // Strings that need no escapes.

  /** Neither a quotation mark, nor a backslash, nor a control character. */
  predicate Clean(s: Text) {
    forall i | 0 <= i < |s| :: s[i] >= 0x20 && s[i] != QUOTE && s[i] != BACKSLASH
  }

  /** A clean string between quotation marks is read as itself. */
  lemma {:induction false} ReadClean(s: Text, rest: Text)
    requires Clean(s)
    ensures ReadChars(s + [QUOTE] + rest) == Got(s, rest)
    decreases |s|
  {
    var t := s + [QUOTE] + rest;
    if s == [] {
      assert t[1..] == rest;
    } else {
      assert t[1..] == s[1..] + [QUOTE] + rest;
      ReadClean(s[1..], rest);
      assert [s[0]] + s[1..] == s;
    }
  }

  /** The number of quotation marks. */
  function Quotes(t: Text): nat {
    if t == [] then 0 else (if t[0] == QUOTE then 1 else 0) + Quotes(t[1..])
  }

  lemma {:induction false} QuotesConcat(a: Text, b: Text)
    ensures Quotes(a + b) == Quotes(a) + Quotes(b)
    decreases |a|
  {
    if a == [] {
      assert a + b == b;
    } else {
      assert (a + b)[1..] == a[1..] + b;
      QuotesConcat(a[1..], b);
    }
  }

  /** An escape sequence takes up at most one quotation mark, and then stands for one. */
  lemma EscapeQuotes(t: Text, n: nat)
    requires ReadEscape(t).Got? && n <= |t| - |ReadEscape(t).rest|
    ensures Quotes(t[..n]) <= if ReadEscape(t).value == QUOTE then 1 else 0
    ensures ReadEscape(t).rest == t[|t| - |ReadEscape(t).rest|..]
  {
    var k := |t| - |ReadEscape(t).rest|;
    if k == 1 {
      if n > 0 {
        assert t[..1] == [t[0]] && [t[0]][1..] == [];
      }
    } else {
      NoQuotes(t[..n]);
    }
  }

  lemma OneQuote()
    ensures Quotes([QUOTE]) == 1
  {
    assert [QUOTE][1..] == [];
  }

  lemma {:induction false} NoQuotes(t: Text)
    requires forall i | 0 <= i < |t| :: t[i] != QUOTE
    ensures Quotes(t) == 0
    decreases |t|
  {
    if t != [] {
      NoQuotes(t[1..]);
    }
  }

  /** The first `n` units of a text that starts with an escape sequence of `1 + k` units. */
  lemma QuotesAfterEscape(t: Text, n: nat, k: nat)
    requires t != [] && t[0] == BACKSLASH && 1 <= n <= |t| && 1 + k <= |t|
    ensures n - 1 <= k ==> Quotes(t[..n]) == Quotes(t[1..][..n - 1])
    ensures n - 1 > k ==> Quotes(t[..n]) == Quotes(t[1..][..k]) + Quotes(t[1 + k..][..n - 1 - k])
  {
    assert t[..n][1..] == t[1..][..n - 1];
    if n - 1 > k {
      assert t[1..][..n - 1] == t[1..][..k] + t[1 + k..][..n - 1 - k];
      QuotesConcat(t[1..][..k], t[1 + k..][..n - 1 - k]);
    }
  }

  /** No quotation mark before the closing one is lost: each stands for one in what is read. */
  lemma {:induction false} QuotesKept(t: Text, n: nat)
    requires ReadChars(t).Got? && n < |t| - |ReadChars(t).rest|
    ensures Quotes(t[..n]) <= Quotes(ReadChars(t).value)
    decreases |t|
  {
    if n > 0 {
      if t[0] == BACKSLASH {
        var e := ReadEscape(t[1..]);
        var k := |t[1..]| - |e.rest|;
        var tail := ReadChars(e.rest);
        assert ([e.value] + tail.value)[1..] == tail.value;
        QuotesAfterEscape(t, n, k);
        EscapeQuotes(t[1..], if n - 1 <= k then n - 1 else k);
        if n - 1 > k {
          assert e.rest == t[1 + k..];
          QuotesKept(e.rest, n - 1 - k);
        }
      } else {
        var tail := ReadChars(t[1..]);
        assert ([t[0]] + tail.value)[1..] == tail.value;
        assert t[..n][1..] == t[1..][..n - 1];
        QuotesKept(t[1..], n - 1);
      }
    }
  }

  /** What is read is no longer than what it is read from, and as long only without escapes. */
  lemma {:induction false} NotLonger(t: Text)
    requires ReadChars(t).Got?
    ensures var n := |t| - |ReadChars(t).rest| - 1;
            && |ReadChars(t).value| <= n
            && (|ReadChars(t).value| == n ==> Clean(t[..n]))
    decreases |t|
  {
    var r := ReadChars(t);
    var n := |t| - |r.rest| - 1;
    if t[0] == BACKSLASH {
      NotLonger(ReadEscape(t[1..]).rest);
    } else if t[0] != QUOTE {
      NotLonger(t[1..]);
      if |r.value| == n {
        assert forall i | 0 <= i < n :: t[..n][i] == if i == 0 then t[0] else t[1..][..n - 1][i - 1];
      }
    }
  }

  /** A string between quotation marks is read as itself only if it is clean. */
  lemma ReadOnlyClean(s: Text, rest: Text)
    requires ReadChars(s + [QUOTE] + rest).Got? && ReadChars(s + [QUOTE] + rest).value == s
    ensures Clean(s)
  {
    var t := s + [QUOTE] + rest;
    var n := |t| - |ReadChars(t).rest| - 1;
    NotLonger(t);
    OneQuote();
    QuotesConcat(s, [QUOTE]);
    assert t[..|s| + 1] == s + [QUOTE];
    if n > |s| {
      QuotesKept(t, |s| + 1);
    } else {
      assert t[..n] == s;
    }
  }
}
