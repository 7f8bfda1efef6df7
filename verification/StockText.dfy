/** When the text that the stock servlet writes determines the record. */
module StockText {
  import opened Json
  import opened JsonLayout
  import opened StockReader

  // Layouts with other strings in them.

  /** The tree with `f` applied to every string. */
  function Mapped(t: Tree, f: Missing -> Missing): Tree {
    match t
    case Text(s) => Tree.Text(f(s))
    case List(items) => List(MappedItems(items, f))
    case Record(pad, members) => Record(pad, MappedMembers(members, f))
  }

  function MappedItems(ts: seq<Tree>, f: Missing -> Missing): (r: seq<Tree>)
    ensures |r| == |ts| && forall i | 0 <= i < |ts| :: r[i] == Mapped(ts[i], f)
  {
    if ts == [] then [] else [Mapped(ts[0], f)] + MappedItems(ts[1..], f)
  }

  function MappedMembers(ms: seq<Member>, f: Missing -> Missing): (r: seq<Member>)
    ensures |r| == |ms|
    ensures forall i | 0 <= i < |ms| :: r[i] == Member(ms[i].name, Mapped(ms[i].value, f))
  {
    if ms == [] then []
    else [Member(ms[0].name, Mapped(ms[0].value, f))] + MappedMembers(ms[1..], f)
  }

  /** The string that is shown. */
  function Filled(s: Missing): Missing {
    Given(Shown(s))
  }

  function Blank(s: Missing): Missing {
    NullRef
  }

  /** The two trees differ in their strings only. */
  ghost predicate Alike(t: Tree, t': Tree) {
    Mapped(t, Blank) == Mapped(t', Blank)
  }

  predicate NoQuote(s: Missing) {
    QUOTE !in Shown(s)
  }

  // The text of a tree depends on the strings shown, and on nothing else.

  lemma {:induction false} RenderFilled(t: Tree)
    ensures Render(Mapped(t, Filled)) == Render(t)
    decreases t, 1
  {
    match t
    case Text(_) =>
    case List(items) => RenderFilledItems(items);
    case Record(_, members) => RenderFilledMembers(members);
  }

  lemma {:induction false} RenderFilledItems(ts: seq<Tree>)
    ensures RenderItems(MappedItems(ts, Filled)) == RenderItems(ts)
    decreases ts, 0
  {
    if ts != [] {
      RenderFilled(ts[0]);
      RenderFilledItems(ts[1..]);
      assert MappedItems(ts, Filled)[1..] == MappedItems(ts[1..], Filled);
    }
  }

  lemma {:induction false} RenderFilledMembers(ms: seq<Member>)
    ensures RenderMembers(MappedMembers(ms, Filled)) == RenderMembers(ms)
    decreases ms, 0
  {
    if ms != [] {
      RenderFilled(ms[0].value);
      RenderFilledMembers(ms[1..]);
      assert MappedMembers(ms, Filled)[1..] == MappedMembers(ms[1..], Filled);
    }
  }

  // Strings without quotation marks can be told from what follows them.

  lemma QuoteEnds(a: Json.Text, x: Json.Text, b: Json.Text, y: Json.Text)
    requires QUOTE !in a && QUOTE !in b && a + ([QUOTE] + x) == b + ([QUOTE] + y)
    ensures a == b && x == y
  {
    var t, u := a + ([QUOTE] + x), b + ([QUOTE] + y);
    assert t[|a|] == QUOTE && u[|b|] == QUOTE;
    assert forall i | 0 <= i < |a| :: t[i] == a[i];
    assert forall i | 0 <= i < |b| :: u[i] == b[i];
    assert |a| == |b|;
    assert t[|a| + 1..] == x && u[|a| + 1..] == y;
    assert t[..|a|] == a && u[..|a|] == b;
  }

  lemma SameFront(a: Json.Text, x: Json.Text, y: Json.Text)
    requires a + x == a + y
    ensures x == y
  {
    assert (a + x)[|a|..] == x && (a + y)[|a|..] == y;
  }

  lemma RenderText(s: Missing, r: Json.Text)
    ensures Render(Tree.Text(s)) + r == [QUOTE] + (Shown(s) + ([QUOTE] + r))
  {
  }

  lemma RenderList(ts: seq<Tree>, r: Json.Text)
    ensures Render(List(ts)) + r == [LBRACKET] + (RenderItems(ts) + ([RBRACKET] + r))
  {
  }

  lemma RenderRecord(pad: Json.Text, ms: seq<Member>, r: Json.Text)
    ensures Render(Record(pad, ms)) + r == ([LBRACE] + pad) + (RenderMembers(ms) + ([RBRACE] + r))
  {
  }

  /** Two layouts that differ in their strings only, none with a quotation mark: they show the same
      strings if their texts are the same, whatever follows. */
  lemma {:induction false} TextsAgree(t: Tree, t': Tree, r: Json.Text, r': Json.Text)
    requires Alike(t, t') && Every(t, NoQuote) && Every(t', NoQuote) && Render(t) + r == Render(t') + r'
    ensures Mapped(t, Filled) == Mapped(t', Filled) && r == r'
    decreases t, 1
  {
    match t
    case Text(s) =>
      var s' := t'.s;
      RenderText(s, r);
      RenderText(s', r');
      SameFront([QUOTE], Shown(s) + ([QUOTE] + r), Shown(s') + ([QUOTE] + r'));
      QuoteEnds(Shown(s), r, Shown(s'), r');
    case List(ts) =>
      var ts' := t'.items;
      RenderList(ts, r);
      RenderList(ts', r');
      SameFront([LBRACKET], RenderItems(ts) + ([RBRACKET] + r), RenderItems(ts') + ([RBRACKET] + r'));
      ItemTextsAgree(ts, ts', [RBRACKET] + r, [RBRACKET] + r');
      SameFront([RBRACKET], r, r');
    case Record(pad, ms) =>
      var ms' := t'.members;
      RenderRecord(pad, ms, r);
      RenderRecord(pad, ms', r');
      SameFront([LBRACE] + pad, RenderMembers(ms) + ([RBRACE] + r), RenderMembers(ms') + ([RBRACE] + r'));
      MemberTextsAgree(ms, ms', [RBRACE] + r, [RBRACE] + r');
      SameFront([RBRACE], r, r');
  }

  lemma BlankCons(ts: seq<Tree>, ts': seq<Tree>)
    requires ts != [] && MappedItems(ts, Blank) == MappedItems(ts', Blank)
    ensures ts' != [] && |ts| == |ts'| && Alike(ts[0], ts'[0])
    ensures MappedItems(ts[1..], Blank) == MappedItems(ts'[1..], Blank)
  {
    assert |MappedItems(ts, Blank)| == |ts| && |MappedItems(ts', Blank)| == |ts'|;
    assert MappedItems(ts, Blank)[0] == Mapped(ts[0], Blank) && MappedItems(ts', Blank)[0] == Mapped(ts'[0], Blank);
    assert MappedItems(ts[1..], Blank) == MappedItems(ts, Blank)[1..] == MappedItems(ts', Blank)[1..];
  }

  lemma EveryItemCons(ts: seq<Tree>, p: Missing -> bool)
    requires ts != [] && EveryItem(ts, p)
    ensures Every(ts[0], p) && EveryItem(ts[1..], p)
  {
    assert ts[0] in ts && forall t | t in ts[1..] :: t in ts;
  }

  lemma FilledCons(ts: seq<Tree>, ts': seq<Tree>)
    requires ts != [] && ts' != [] && Mapped(ts[0], Filled) == Mapped(ts'[0], Filled)
    requires MappedItems(ts[1..], Filled) == MappedItems(ts'[1..], Filled)
    ensures MappedItems(ts, Filled) == MappedItems(ts', Filled)
  {
  }

  lemma {:induction false} ItemTextsAgree(ts: seq<Tree>, ts': seq<Tree>, r: Json.Text, r': Json.Text)
    requires MappedItems(ts, Blank) == MappedItems(ts', Blank)
    requires EveryItem(ts, NoQuote) && EveryItem(ts', NoQuote)
    requires RenderItems(ts) + r == RenderItems(ts') + r'
    ensures MappedItems(ts, Filled) == MappedItems(ts', Filled) && r == r'
    decreases ts, 0
  {
    if ts == [] {
      SameFront([], r, r');
    } else {
      var x, y, xs, ys := ts[0], ts'[0], ts[1..], ts'[1..];
      BlankCons(ts, ts');
      EveryItemCons(ts, NoQuote);
      EveryItemCons(ts', NoQuote);
      ItemsText(ts, r);
      ItemsText(ts', r');
      if xs == [] {
        TextsAgree(x, y, r, r');
      } else {
        var more, more' := RenderItems(xs) + r, RenderItems(ys) + r';
        TextsAgree(x, y, [COMMA] + more, [COMMA] + more');
        SameFront([COMMA], more, more');
        ItemTextsAgree(xs, ys, r, r');
      }
      FilledCons(ts, ts');
    }
  }

  lemma ItemsText(ts: seq<Tree>, r: Json.Text)
    requires ts != []
    ensures RenderItems(ts) + r
            == Render(ts[0]) + if |ts| == 1 then r else [COMMA] + (RenderItems(ts[1..]) + r)
  {
    if |ts| > 1 {
      Grouped(Render(ts[0]), [COMMA], RenderItems(ts[1..]), r);
    }
  }

  lemma MemberText(m: Member, m': Member, r: Json.Text, r': Json.Text)
    requires m.name == m'.name && RenderMember(m) + r == RenderMember(m') + r'
    ensures Render(m.value) + r == Render(m'.value) + r'
  {
    var name := Quoted(m.name) + [COLON];
    NameFirst(name, Render(m.value), r);
    NameFirst(name, Render(m'.value), r');
    SameFront(name, Render(m.value) + r, Render(m'.value) + r');
  }

  lemma NameFirst(name: Json.Text, value: Json.Text, r: Json.Text)
    ensures (name + value) + r == name + (value + r)
  {
  }

  lemma BlankMemberCons(ms: seq<Member>, ms': seq<Member>)
    requires ms != [] && MappedMembers(ms, Blank) == MappedMembers(ms', Blank)
    ensures ms' != [] && |ms| == |ms'| && ms[0].name == ms'[0].name && Alike(ms[0].value, ms'[0].value)
    ensures MappedMembers(ms[1..], Blank) == MappedMembers(ms'[1..], Blank)
  {
    assert |MappedMembers(ms, Blank)| == |ms| && |MappedMembers(ms', Blank)| == |ms'|;
    assert MappedMembers(ms, Blank)[0] == Member(ms[0].name, Mapped(ms[0].value, Blank));
    assert MappedMembers(ms', Blank)[0] == Member(ms'[0].name, Mapped(ms'[0].value, Blank));
    assert MappedMembers(ms[1..], Blank) == MappedMembers(ms, Blank)[1..] == MappedMembers(ms', Blank)[1..];
  }

  lemma EveryMemberCons(ms: seq<Member>, p: Missing -> bool)
    requires ms != [] && EveryMember(ms, p)
    ensures Every(ms[0].value, p) && EveryMember(ms[1..], p)
  {
    assert ms[0] in ms && forall m | m in ms[1..] :: m in ms;
  }

  lemma FilledMemberCons(ms: seq<Member>, ms': seq<Member>)
    requires ms != [] && ms' != [] && ms[0].name == ms'[0].name
    requires Mapped(ms[0].value, Filled) == Mapped(ms'[0].value, Filled)
    requires MappedMembers(ms[1..], Filled) == MappedMembers(ms'[1..], Filled)
    ensures MappedMembers(ms, Filled) == MappedMembers(ms', Filled)
  {
  }

  lemma MembersText(ms: seq<Member>, r: Json.Text)
    requires ms != []
    ensures RenderMembers(ms) + r
            == RenderMember(ms[0]) + if |ms| == 1 then r else [COMMA] + (RenderMembers(ms[1..]) + r)
  {
    if |ms| > 1 {
      Grouped(RenderMember(ms[0]), [COMMA], RenderMembers(ms[1..]), r);
    }
  }

  lemma {:induction false} MemberTextsAgree(ms: seq<Member>, ms': seq<Member>, r: Json.Text, r': Json.Text)
    requires MappedMembers(ms, Blank) == MappedMembers(ms', Blank)
    requires EveryMember(ms, NoQuote) && EveryMember(ms', NoQuote)
    requires RenderMembers(ms) + r == RenderMembers(ms') + r'
    ensures MappedMembers(ms, Filled) == MappedMembers(ms', Filled) && r == r'
    decreases ms, 0
  {
    if ms == [] {
      SameFront([], r, r');
    } else {
      var x, y, xs, ys := ms[0], ms'[0], ms[1..], ms'[1..];
      BlankMemberCons(ms, ms');
      EveryMemberCons(ms, NoQuote);
      EveryMemberCons(ms', NoQuote);
      MembersText(ms, r);
      MembersText(ms', r');
      if xs == [] {
        MemberText(x, y, r, r');
        TextsAgree(x.value, y.value, r, r');
      } else {
        var more, more' := RenderMembers(xs) + r, RenderMembers(ys) + r';
        MemberText(x, y, [COMMA] + more, [COMMA] + more');
        TextsAgree(x.value, y.value, [COMMA] + more, [COMMA] + more');
        SameFront([COMMA], more, more');
        MemberTextsAgree(xs, ys, r, r');
      }
      FilledMemberCons(ms, ms');
    }
  }
}
