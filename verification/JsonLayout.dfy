/** JSON texts by their layout, and when reading one gives back what was laid out. */
module JsonLayout {
  import opened Json

  /** A value as it is written: strings without escapes, where a missing string is written as if it
      were "null"; objects with some padding after the opening brace. */
  datatype Tree =
    | Text(s: Missing)
    | List(items: seq<Tree>)
    | Record(pad: Json.Text, members: seq<Member>)

  datatype Member = Member(name: Json.Text, value: Tree)

  /** A Java reference to a string, which may be null. */
  datatype Missing = NullRef | Given(s: Json.Text)

  /** What string concatenation makes of the reference. */
  function Shown(s: Missing): Json.Text {
    if s.NullRef? then Ascii("null") else s.s
  }

  function Quoted(s: Json.Text): Json.Text {
    [QUOTE] + s + [QUOTE]
  }

  function Render(t: Tree): Json.Text {
    match t
    case Text(s) => Quoted(Shown(s))
    case List(items) => [LBRACKET] + RenderItems(items) + [RBRACKET]
    case Record(pad, members) => [LBRACE] + pad + RenderMembers(members) + [RBRACE]
  }

  function RenderItems(items: seq<Tree>): Json.Text {
    if items == [] then []
    else if |items| == 1 then Render(items[0])
    else Render(items[0]) + [COMMA] + RenderItems(items[1..])
  }

  function RenderMember(m: Member): Json.Text {
    Quoted(m.name) + [COLON] + Render(m.value)
  }

  function RenderMembers(members: seq<Member>): Json.Text {
    if members == [] then []
    else if |members| == 1 then RenderMember(members[0])
    else RenderMember(members[0]) + [COMMA] + RenderMembers(members[1..])
  }

  /** The value that is meant. */
  function Meant(t: Tree): Value {
    match t
    case Text(NullRef) => Null
    case Text(Given(s)) => Str(s)
    case List(items) => Arr(MeantItems(items))
    case Record(_, members) => Obj(MeantMembers(members))
  }

  function MeantItems(items: seq<Tree>): seq<Value> {
    if items == [] then [] else [Meant(items[0])] + MeantItems(items[1..])
  }

  function MeantMembers(members: seq<Member>): seq<(Json.Text, Value)> {
    if members == [] then [] else [(members[0].name, Meant(members[0].value))] + MeantMembers(members[1..])
  }

  /** Padding is whitespace and names are clean: the printer's own text. */
  predicate WellLaid(t: Tree) {
    match t
    case Text(_) => true
    case List(items) => forall x | x in items :: WellLaid(x)
    case Record(pad, members) =>
      && (forall u | u in pad :: IsWs(u))
      && (forall m | m in members :: Clean(m.name) && WellLaid(m.value))
  }

  /** A string that can be written between quotation marks as it is. */
  predicate Plain(s: Missing) {
    s.Given? && Clean(s.s)
  }

  /** `p` holds of every string. */
  predicate Every(t: Tree, p: Missing -> bool) {
    match t
    case Text(s) => p(s)
    case List(items) => forall x | x in items :: Every(x, p)
    case Record(_, members) => forall m | m in members :: Every(m.value, p)
  }

  /** Every string is there and clean. */
  predicate AllClean(t: Tree) {
    Every(t, Plain)
  }

  // Whitespace.

  lemma {:induction false} SkipPad(pad: Json.Text, rest: Json.Text)
    requires forall u | u in pad :: IsWs(u)
    ensures SkipWs(pad + rest) == SkipWs(rest)
    decreases |pad|
  {
    if pad == [] {
      assert pad + rest == rest;
    } else {
      assert (pad + rest)[1..] == pad[1..] + rest;
      SkipPad(pad[1..], rest);
    }
  }

  /** A rendered value starts with a token that is neither whitespace nor a closing bracket. */
  lemma RenderStarts(t: Tree)
    ensures Render(t) != [] && Render(t)[0] in {QUOTE, LBRACKET, LBRACE}
  {
  }

  lemma SkipNone(t: Json.Text)
    requires t != [] && !IsWs(t[0])
    ensures SkipWs(t) == t
  {
  }

  // Strings and names.

  lemma ReadQuoted(s: Json.Text, rest: Json.Text)
    ensures (Quoted(s) + rest)[1..] == s + [QUOTE] + rest
    ensures SkipWs(Quoted(s) + rest) == Quoted(s) + rest && (Quoted(s) + rest)[0] == QUOTE
  {
    SkipNone(Quoted(s) + rest);
  }

  lemma ReadNameBack(name: Json.Text, rest: Json.Text, pad: Json.Text)
    requires Clean(name) && forall u | u in pad :: IsWs(u)
    ensures ReadName(pad + (Quoted(name) + ([COLON] + rest))) == Got(name, rest)
  {
    var t := Quoted(name) + ([COLON] + rest);
    SkipPad(pad, t);
    ReadQuoted(name, [COLON] + rest);
    ReadClean(name, [COLON] + rest);
    SkipNone([COLON] + rest);
    assert ([COLON] + rest)[1..] == rest;
  }

  /** A string is read back exactly when it is there and clean. */
  lemma ReadTextIff(s: Missing, rest: Json.Text)
    ensures AllClean(Text(s)) ==> ReadValue(Render(Text(s)) + rest) == Got(Meant(Text(s)), rest)
    ensures ReadValue(Render(Text(s)) + rest).Got? && ReadValue(Render(Text(s)) + rest).value == Meant(Text(s))
            ==> AllClean(Text(s))
  {
    var shown := Shown(s);
    ReadQuoted(shown, rest);
    if s.Given? {
      if Clean(shown) {
        ReadClean(shown, rest);
      } else if ReadChars(shown + [QUOTE] + rest).Got? && ReadChars(shown + [QUOTE] + rest).value == shown {
        ReadOnlyClean(shown, rest);
      }
    }
  }

  // Lists and records.  `Back` is both directions at once.

  ghost predicate BackAs<T>(r: Read<T>, meant: T, rest: Json.Text, clean: bool) {
    && (clean ==> r == Got(meant, rest))
    && (r.Got? && r.value == meant ==> clean)
  }

  ghost predicate ItemsClean(items: seq<Tree>) {
    forall x | x in items :: AllClean(x)
  }

  ghost predicate MembersClean(members: seq<Member>) {
    forall m | m in members :: AllClean(m.value)
  }

  /** The first value of a list, and then the closing bracket. */
  lemma LastItem(first: Read<Value>, text: Json.Text, meant: Value, rest: Json.Text, clean: bool)
    requires first == ReadValue(text) && BackAs(first, meant, [RBRACKET] + rest, clean)
    ensures BackAs(ReadItems(text), [meant], rest, clean)
  {
    SkipNone([RBRACKET] + rest);
    assert ([RBRACKET] + rest)[1..] == rest;
    ItemsHead(text, meant, []);
  }

  /** Nothing is read as a list that starts with `meant` unless its first value is. */
  lemma ItemsHead(text: Json.Text, meant: Value, others: seq<Value>)
    ensures ReadItems(text).Got? && ReadItems(text).value == [meant] + others
            ==> ReadValue(text).Got? && ReadValue(text).value == meant
  {
    var r := ReadItems(text);
    if r.Got? && r.value == [meant] + others {
      assert r.value[0] == ReadValue(text).value;
    }
  }

  lemma MoreItems(text: Json.Text, meant: Value, tail: Json.Text, others: seq<Value>, rest: Json.Text,
                  clean: bool, cleans: bool)
    requires BackAs(ReadValue(text), meant, [COMMA] + tail, clean)
    requires BackAs(ReadItems(tail), others, rest, cleans)
    ensures BackAs(ReadItems(text), [meant] + others, rest, clean && cleans)
  {
    SkipNone([COMMA] + tail);
    assert ([COMMA] + tail)[1..] == tail;
    ItemsHead(text, meant, others);
    var r := ReadItems(text);
    if r.Got? && r.value == [meant] + others {
      assert ReadItems(tail).Got? && r.value == [meant] + ReadItems(tail).value;
      assert ([meant] + others)[1..] == others && ([meant] + ReadItems(tail).value)[1..] == ReadItems(tail).value;
    }
  }

  lemma OneItem(x: Tree, rest: Json.Text)
    ensures RenderItems([x]) + rest == Render(x) + rest
    ensures MeantItems([x]) == [Meant(x)] && ItemsClean([x]) == AllClean(x)
  {
    assert MeantItems([x]) == [Meant(x)] + MeantItems([x][1..]) && [x][1..] == [];
    assert x in [x];
  }

  lemma ItemsCons(x: Tree, others: seq<Tree>, rest: Json.Text)
    requires others != []
    ensures RenderItems([x] + others) + rest == Render(x) + ([COMMA] + (RenderItems(others) + rest))
    ensures MeantItems([x] + others) == [Meant(x)] + MeantItems(others)
    ensures ItemsClean([x] + others) == (AllClean(x) && ItemsClean(others))
  {
    var items := [x] + others;
    assert items[0] == x && items[1..] == others;
    Grouped(Render(x), [COMMA], RenderItems(others), rest);
    ItemsCleanCons(x, others);
  }

  lemma ItemsCleanCons(x: Tree, others: seq<Tree>)
    ensures ItemsClean([x] + others) == (AllClean(x) && ItemsClean(others))
  {
    assert x in [x] + others && forall y | y in others :: y in [x] + others;
  }

  lemma Grouped(a: Json.Text, b: Json.Text, c: Json.Text, d: Json.Text)
    ensures a + b + c + d == a + (b + (c + d))
  {
  }

  lemma {:induction false} ItemsBack(items: seq<Tree>, rest: Json.Text)
    requires items != [] && forall x | x in items :: WellLaid(x)
    ensures BackAs(ReadItems(RenderItems(items) + ([RBRACKET] + rest)), MeantItems(items), rest, ItemsClean(items))
    decreases items, 0
  {
    var x, others := items[0], items[1..];
    assert items == [x] + others;
    if others == [] {
      assert items == [x];
      TreeBack(x, [RBRACKET] + rest);
      var text := Render(x) + ([RBRACKET] + rest);
      LastItem(ReadValue(text), text, Meant(x), rest, AllClean(x));
      OneItem(x, [RBRACKET] + rest);
    } else {
      var tail := RenderItems(others) + ([RBRACKET] + rest);
      TreeBack(x, [COMMA] + tail);
      ItemsBack(others, rest);
      MoreItems(Render(x) + ([COMMA] + tail), Meant(x), tail, MeantItems(others), rest,
                AllClean(x), ItemsClean(others));
      ItemsCons(x, others, [RBRACKET] + rest);
    }
  }

  lemma LastMember(text: Json.Text, name: Json.Text, value: Json.Text, meant: Value, rest: Json.Text, clean: bool)
    requires ReadName(text) == Got(name, value) && BackAs(ReadValue(value), meant, [RBRACE] + rest, clean)
    ensures BackAs(ReadMembers(text), [(name, meant)], rest, clean)
  {
    SkipNone([RBRACE] + rest);
    assert ([RBRACE] + rest)[1..] == rest;
    var r := ReadMembers(text);
    if r.Got? && r.value == [(name, meant)] {
      assert r.value[0] == (name, ReadValue(value).value);
    }
  }

  lemma MoreMembers(text: Json.Text, name: Json.Text, value: Json.Text, meant: Value, tail: Json.Text,
                    others: seq<(Json.Text, Value)>, rest: Json.Text, clean: bool, cleans: bool)
    requires ReadName(text) == Got(name, value) && BackAs(ReadValue(value), meant, [COMMA] + tail, clean)
    requires BackAs(ReadMembers(tail), others, rest, cleans)
    ensures BackAs(ReadMembers(text), [(name, meant)] + others, rest, clean && cleans)
  {
    SkipNone([COMMA] + tail);
    assert ([COMMA] + tail)[1..] == tail;
    var r := ReadMembers(text);
    if r.Got? && r.value == [(name, meant)] + others {
      assert r.value[0] == (name, ReadValue(value).value);
      var read := ReadMembers(tail);
      assert read.Got? && r.value == [(name, meant)] + read.value;
      assert ([(name, meant)] + others)[1..] == others && ([(name, meant)] + read.value)[1..] == read.value;
    }
  }

  lemma OneMember(m: Member, rest: Json.Text)
    ensures RenderMembers([m]) + rest == Quoted(m.name) + ([COLON] + (Render(m.value) + rest))
    ensures MeantMembers([m]) == [(m.name, Meant(m.value))] && MembersClean([m]) == AllClean(m.value)
  {
    assert MeantMembers([m]) == [(m.name, Meant(m.value))] + MeantMembers([m][1..]) && [m][1..] == [];
    assert m in [m];
  }

  lemma MembersCons(m: Member, others: seq<Member>, rest: Json.Text)
    requires others != []
    ensures RenderMembers([m] + others) + rest
            == Quoted(m.name) + ([COLON] + (Render(m.value) + ([COMMA] + (RenderMembers(others) + rest))))
    ensures MeantMembers([m] + others) == [(m.name, Meant(m.value))] + MeantMembers(others)
    ensures MembersClean([m] + others) == (AllClean(m.value) && MembersClean(others))
  {
    var members := [m] + others;
    assert members[0] == m && members[1..] == others;
    Grouped(RenderMember(m), [COMMA], RenderMembers(others), rest);
    Grouped(Quoted(m.name), [COLON], Render(m.value), [COMMA] + (RenderMembers(others) + rest));
    MembersCleanCons(m, others);
  }

  lemma MembersCleanCons(m: Member, others: seq<Member>)
    ensures MembersClean([m] + others) == (AllClean(m.value) && MembersClean(others))
  {
    assert m in [m] + others && forall n | n in others :: n in [m] + others;
  }

  lemma {:induction false} MembersBack(pad: Json.Text, members: seq<Member>, rest: Json.Text)
    requires forall u | u in pad :: IsWs(u)
    requires members != [] && forall m | m in members :: Clean(m.name) && WellLaid(m.value)
    ensures BackAs(ReadMembers(pad + (RenderMembers(members) + ([RBRACE] + rest))), MeantMembers(members), rest,
                   MembersClean(members))
    decreases members, 0
  {
    var m, others := members[0], members[1..];
    assert members == [m] + others;
    if others == [] {
      assert members == [m];
      var value := Render(m.value) + ([RBRACE] + rest);
      TreeBack(m.value, [RBRACE] + rest);
      ReadNameBack(m.name, value, pad);
      LastMember(pad + (Quoted(m.name) + ([COLON] + value)), m.name, value, Meant(m.value), rest, AllClean(m.value));
      OneMember(m, [RBRACE] + rest);
    } else {
      var tail := RenderMembers(others) + ([RBRACE] + rest);
      var value := Render(m.value) + ([COMMA] + tail);
      TreeBack(m.value, [COMMA] + tail);
      ReadNameBack(m.name, value, pad);
      MembersBack([], others, rest);
      assert [] + tail == tail;
      MoreMembers(pad + (Quoted(m.name) + ([COLON] + value)), m.name, value, Meant(m.value), tail,
                  MeantMembers(others), rest, AllClean(m.value), MembersClean(others));
      MembersCons(m, others, [RBRACE] + rest);
    }
  }

  lemma ListBack(items: seq<Tree>, rest: Json.Text)
    requires forall x | x in items :: WellLaid(x)
    requires items != [] ==>
               BackAs(ReadItems(RenderItems(items) + ([RBRACKET] + rest)), MeantItems(items), rest, ItemsClean(items))
    ensures BackAs(ReadValue(Render(List(items)) + rest), Meant(List(items)), rest, AllClean(List(items)))
  {
    var text := Render(List(items)) + rest;
    var inner := RenderItems(items) + ([RBRACKET] + rest);
    assert text == [LBRACKET] + inner && text[1..] == inner;
    SkipNone(text);
    if items == [] {
      assert inner == [RBRACKET] + rest;
    } else {
      RenderStarts(items[0]);
      assert inner[0] == Render(items[0])[0];
    }
    SkipNone(inner);
  }

  lemma RecordBack(pad: Json.Text, members: seq<Member>, rest: Json.Text)
    requires forall u | u in pad :: IsWs(u)
    requires members != [] ==>
               BackAs(ReadMembers(pad + (RenderMembers(members) + ([RBRACE] + rest))), MeantMembers(members), rest,
                      MembersClean(members))
    ensures BackAs(ReadValue(Render(Record(pad, members)) + rest), Meant(Record(pad, members)), rest,
                   AllClean(Record(pad, members)))
  {
    var text := Render(Record(pad, members)) + rest;
    var after := RenderMembers(members) + ([RBRACE] + rest);
    assert text == [LBRACE] + (pad + after) && text[1..] == pad + after;
    SkipNone(text);
    SkipPad(pad, after);
    if members == [] {
      assert after == [RBRACE] + rest;
    } else {
      assert RenderMember(members[0])[0] == QUOTE;
      assert after[0] == QUOTE;
    }
    SkipNone(after);
  }

  /** A laid-out value is read back, as what was meant, exactly when all its strings are there and
      clean; and then nothing of what follows it is read. */
  lemma {:induction false} TreeBack(t: Tree, rest: Json.Text)
    requires WellLaid(t)
    ensures BackAs(ReadValue(Render(t) + rest), Meant(t), rest, AllClean(t))
    decreases t, 1
  {
    match t
    case Text(s) => ReadTextIff(s, rest);
    case List(items) =>
      if items != [] {
        ItemsBack(items, rest);
      }
      ListBack(items, rest);
    case Record(pad, members) =>
      if members != [] {
        MembersBack(pad, members, rest);
      }
      RecordBack(pad, members, rest);
  }

  /** The whole text, followed by whitespace such as the end of a line. */
  lemma TextBackIff(t: Tree, end: Json.Text)
    requires WellLaid(t) && forall u | u in end :: IsWs(u)
    ensures ReadText(Render(t) + end) == Got(Meant(t), []) <==> AllClean(t)
  {
    TreeBack(t, end);
    SkipPad(end, []);
    assert end + [] == end;
  }
}
