/** The strings and the quotation marks of a record's layout. */
module StockCount {
  import opened Json
  import opened JsonLayout
  import opened StockJson
  import opened StockReader
  import opened StockText

  // Records with other strings in them.

  function MappedQuote(q: Quote, f: Missing -> Missing): Quote {
    Quote(f(q.changeType), f(q.change), f(q.changeInPercent), f(q.lastTradePriceOnly),
          f(q.previousClose), f(q.daysLow), f(q.daysHigh), f(q.open),
          f(q.yearLow), f(q.yearHigh), f(q.bid), f(q.volume),
          f(q.ask), f(q.averageDailyVolume), f(q.oneYearTargetPrice), f(q.marketCapitalization))
  }

  function MappedList(items: seq<Item>, f: Missing -> Missing): (r: seq<Item>)
    ensures |r| == |items| && forall i | 0 <= i < |items| :: r[i] == Item(f(items[i].title), f(items[i].link))
  {
    seq(|items|, i requires 0 <= i < |items| => Item(f(items[i].title), f(items[i].link)))
  }

  /** The record with `f` applied to every string. */
  function MappedStock(s: Stock, f: Missing -> Missing): Stock {
    Stock(f(s.name), f(s.symbol), MappedQuote(s.quote, f), MappedList(s.items, f), f(s.chart))
  }

  lemma MappedConcat(a: seq<Member>, b: seq<Member>, f: Missing -> Missing)
    ensures MappedMembers(a + b, f) == MappedMembers(a, f) + MappedMembers(b, f)
  {
  }

  lemma FieldsMapped(q: Quote, f: Missing -> Missing)
    ensures MappedMembers(TradeMembers(q), f) == TradeMembers(MappedQuote(q, f))
    ensures MappedMembers(DayMembers(q), f) == DayMembers(MappedQuote(q, f))
    ensures MappedMembers(YearMembers(q), f) == YearMembers(MappedQuote(q, f))
    ensures MappedMembers(MarketMembers(q), f) == MarketMembers(MappedQuote(q, f))
  {
  }

  lemma QuoteMapped(q: Quote, f: Missing -> Missing)
    ensures MappedMembers(QuoteMembers(q), f) == QuoteMembers(MappedQuote(q, f))
  {
    FieldsMapped(q, f);
    MappedConcat(TradeMembers(q), DayMembers(q), f);
    MappedConcat(YearMembers(q), MarketMembers(q), f);
    MappedConcat(TradeMembers(q) + DayMembers(q), YearMembers(q) + MarketMembers(q), f);
  }

  lemma ItemMapped(item: Item, f: Missing -> Missing)
    ensures Mapped(ItemTree(item), f) == ItemTree(Item(f(item.title), f(item.link)))
  {
    assert MappedMembers([Field("Link", item.link), Field("Title", item.title)], f)
        == [Field("Link", f(item.link)), Field("Title", f(item.title))];
  }

  lemma NewsMapped(items: seq<Item>, f: Missing -> Missing)
    ensures Mapped(NewsMember(items).value, f) == NewsMember(MappedList(items, f)).value
  {
    var trees, trees' := ItemTrees(items), ItemTrees(MappedList(items, f));
    forall i | 0 <= i < |items|
      ensures Mapped(trees[i], f) == trees'[i]
    {
      ItemMapped(items[i], f);
    }
    assert MappedItems(trees, f) == trees';
    assert MappedMembers([Member(Ascii("Item"), List(trees))], f) == [Member(Ascii("Item"), List(trees'))];
  }

  /** A record laid out is its layout with the strings in it. */
  lemma LayoutMapped(s: Stock, f: Missing -> Missing)
    ensures Mapped(Layout(s), f) == Layout(MappedStock(s, f))
  {
    var s' := MappedStock(s, f);
    QuoteMapped(s.quote, f);
    NewsMapped(s.items, f);
    ResultMapped(s, f);
    assert MappedMembers([Member(Ascii("result"), Record([], ResultMembers(s)))], f)
        == [Member(Ascii("result"), Record([], ResultMembers(s')))];
  }

  lemma ResultMapped(s: Stock, f: Missing -> Missing)
    requires MappedMembers(QuoteMembers(s.quote), f) == QuoteMembers(MappedQuote(s.quote, f))
    requires Mapped(NewsMember(s.items).value, f) == NewsMember(MappedList(s.items, f)).value
    ensures MappedMembers(ResultMembers(s), f) == ResultMembers(MappedStock(s, f))
  {
  }

  /** Layouts are alike when the records have as many items. */
  lemma LayoutsAlike(s: Stock, s': Stock)
    requires |s.items| == |s'.items|
    ensures Alike(Layout(s), Layout(s'))
  {
    LayoutMapped(s, Blank);
    LayoutMapped(s', Blank);
    assert MappedList(s.items, Blank) == MappedList(s'.items, Blank);
  }

  lemma LayoutInjective(s: Stock, s': Stock)
    requires Layout(s) == Layout(s')
    ensures s == s'
  {
    StockBack(s);
    StockBack(s');
  }

  // Counting quotation marks.

  /** Those in the strings. */
  function Inner(t: Tree): nat {
    match t
    case Text(s) => Quotes(Shown(s))
    case List(items) => InnerItems(items)
    case Record(_, members) => InnerMembers(members)
  }

  function InnerItems(ts: seq<Tree>): nat {
    if ts == [] then 0 else Inner(ts[0]) + InnerItems(ts[1..])
  }

  function InnerMembers(ms: seq<Member>): nat {
    if ms == [] then 0 else Inner(ms[0].value) + InnerMembers(ms[1..])
  }

  /** Those around strings and names, and in the names. */
  function Frame(t: Tree): nat {
    match t
    case Text(s) => 2
    case List(items) => FrameItems(items)
    case Record(pad, members) => Quotes(pad) + FrameMembers(members)
  }

  function FrameItems(ts: seq<Tree>): nat {
    if ts == [] then 0 else Frame(ts[0]) + FrameItems(ts[1..])
  }

  function FrameMember(m: Member): nat {
    2 + Quotes(m.name) + Frame(m.value)
  }

  function FrameMembers(ms: seq<Member>): nat {
    if ms == [] then 0 else FrameMember(ms[0]) + FrameMembers(ms[1..])
  }

  lemma One(u: Unit)
    ensures Quotes([u]) == if u == QUOTE then 1 else 0
  {
    assert [u][1..] == [];
  }

  /** Brackets and other single units around a text. */
  lemma Around(a: Unit, t: Json.Text, b: Unit)
    requires a != QUOTE && b != QUOTE
    ensures Quotes([a] + t + [b]) == Quotes(t)
  {
    One(a);
    One(b);
    QuotesConcat([a] + t, [b]);
    QuotesConcat([a], t);
  }

  lemma QuotedCount(s: Json.Text)
    ensures Quotes(Quoted(s)) == 2 + Quotes(s)
  {
    One(QUOTE);
    QuotesConcat([QUOTE] + s, [QUOTE]);
    QuotesConcat([QUOTE], s);
  }

  lemma CommaCount(a: Json.Text, b: Json.Text)
    ensures Quotes(a + [COMMA] + b) == Quotes(a) + Quotes(b)
  {
    One(COMMA);
    QuotesConcat(a + [COMMA], b);
    QuotesConcat(a, [COMMA]);
  }

  lemma {:induction false} CountTree(t: Tree)
    ensures Quotes(Render(t)) == Frame(t) + Inner(t)
    decreases t, 1
  {
    match t
    case Text(s) => QuotedCount(Shown(s));
    case List(items) =>
      CountItems(items);
      Around(LBRACKET, RenderItems(items), RBRACKET);
    case Record(pad, members) =>
      CountMembers(members);
      QuotesConcat(pad, RenderMembers(members));
      Around(LBRACE, pad + RenderMembers(members), RBRACE);
      assert [LBRACE] + (pad + RenderMembers(members)) + [RBRACE] == Render(t);
  }

  lemma {:induction false} CountItems(ts: seq<Tree>)
    ensures Quotes(RenderItems(ts)) == FrameItems(ts) + InnerItems(ts)
    decreases ts, 0
  {
    if ts != [] {
      CountTree(ts[0]);
      CountItems(ts[1..]);
      CommaCount(Render(ts[0]), RenderItems(ts[1..]));
    }
  }

  lemma CountMember(m: Member)
    requires Quotes(Render(m.value)) == Frame(m.value) + Inner(m.value)
    ensures Quotes(RenderMember(m)) == FrameMember(m) + Inner(m.value)
  {
    QuotedCount(m.name);
    One(COLON);
    QuotesConcat(Quoted(m.name) + [COLON], Render(m.value));
    QuotesConcat(Quoted(m.name), [COLON]);
  }

  lemma {:induction false} CountMembers(ms: seq<Member>)
    ensures Quotes(RenderMembers(ms)) == FrameMembers(ms) + InnerMembers(ms)
    decreases ms, 0
  {
    if ms != [] {
      CountTree(ms[0].value);
      CountMember(ms[0]);
      CountMembers(ms[1..]);
      CommaCount(RenderMember(ms[0]), RenderMembers(ms[1..]));
    }
  }

  lemma {:induction false} QuotesZero(t: Json.Text)
    ensures Quotes(t) == 0 <==> QUOTE !in t
    decreases |t|
  {
    if t != [] {
      QuotesZero(t[1..]);
      assert t == [t[0]] + t[1..];
    }
  }

  lemma {:induction false} InnerZero(t: Tree)
    ensures Inner(t) == 0 <==> Every(t, NoQuote)
    decreases t, 1
  {
    match t
    case Text(s) => QuotesZero(Shown(s));
    case List(items) => InnerItemsZero(items);
    case Record(_, members) => InnerMembersZero(members);
  }

  lemma {:induction false} InnerItemsZero(ts: seq<Tree>)
    ensures InnerItems(ts) == 0 <==> EveryItem(ts, NoQuote)
    decreases ts, 0
  {
    if ts != [] {
      InnerZero(ts[0]);
      InnerItemsZero(ts[1..]);
      assert ts == [ts[0]] + ts[1..];
    }
  }

  lemma {:induction false} InnerMembersZero(ms: seq<Member>)
    ensures InnerMembers(ms) == 0 <==> EveryMember(ms, NoQuote)
    decreases ms, 0
  {
    if ms != [] {
      InnerZero(ms[0].value);
      InnerMembersZero(ms[1..]);
      assert ms == [ms[0]] + ms[1..];
    }
  }

  // The marks of a record's layout, strings aside: eight for each item, and a constant.

  lemma {:induction false} FrameMapped(t: Tree, f: Missing -> Missing)
    ensures Frame(Mapped(t, f)) == Frame(t)
    decreases t, 1
  {
    match t
    case Text(_) =>
    case List(items) => FrameMappedItems(items, f);
    case Record(_, members) => FrameMappedMembers(members, f);
  }

  lemma {:induction false} FrameMappedItems(ts: seq<Tree>, f: Missing -> Missing)
    ensures FrameItems(MappedItems(ts, f)) == FrameItems(ts)
    decreases ts, 0
  {
    if ts != [] {
      FrameMapped(ts[0], f);
      FrameMappedItems(ts[1..], f);
      assert MappedItems(ts, f)[1..] == MappedItems(ts[1..], f);
    }
  }

  lemma {:induction false} FrameMappedMembers(ms: seq<Member>, f: Missing -> Missing)
    ensures FrameMembers(MappedMembers(ms, f)) == FrameMembers(ms)
    decreases ms, 0
  {
    if ms != [] {
      FrameMapped(ms[0].value, f);
      FrameMappedMembers(ms[1..], f);
      assert MappedMembers(ms, f)[1..] == MappedMembers(ms[1..], f);
    }
  }

  lemma NameCount(name: string)
    requires forall i | 0 <= i < |name| :: 'A' <= name[i] <= 'Z' || 'a' <= name[i] <= 'z'
    ensures Quotes(Ascii(name)) == 0
  {
    NamesClean(name);
    NoQuotes(Ascii(name));
  }

  lemma FrameOne(m: Member)
    ensures FrameMembers([m]) == FrameMember(m) && InnerMembers([m]) == Inner(m.value)
  {
    assert [m][1..] == [];
  }

  lemma {:induction false} FrameConcat(a: seq<Member>, b: seq<Member>)
    ensures FrameMembers(a + b) == FrameMembers(a) + FrameMembers(b)
    ensures InnerMembers(a + b) == InnerMembers(a) + InnerMembers(b)
    decreases |a|
  {
    if a == [] {
      assert a + b == b;
    } else {
      assert (a + b)[1..] == a[1..] + b;
      FrameConcat(a[1..], b);
    }
  }

  lemma ItemFrame(item: Item)
    ensures Frame(ItemTree(item)) == 8
  {
    var link, title := Field("Link", item.link), Field("Title", item.title);
    NameCount("Link");
    NameCount("Title");
    FrameOne(link);
    FrameOne(title);
    FrameConcat([link], [title]);
    assert [link] + [title] == [link, title];
  }

  lemma {:induction false} ItemsFrame(items: seq<Item>)
    ensures FrameItems(ItemTrees(items)) == 8 * |items|
    decreases |items|
  {
    if items != [] {
      ItemFrame(items[0]);
      ItemsFrame(items[1..]);
      assert ItemTrees(items)[1..] == ItemTrees(items[1..]);
    }
  }

  lemma NewsFrame(items: seq<Item>)
    ensures FrameMember(NewsMember(items)) == 4 + 8 * |items|
  {
    NameCount("News");
    NameCount("Item");
    ItemsFrame(items);
    One(0x20);
    FrameOne(Member(Ascii("Item"), List(ItemTrees(items))));
  }

  /** What is written before the news. */
  function Early(s: Stock): seq<Member> {
    [Field("Name", s.name), Field("Symbol", s.symbol), QuoteMember(s.quote)]
  }

  lemma EarlyFrame(s: Stock, s': Stock)
    ensures FrameMembers(Early(s)) == FrameMembers(Early(s'))
  {
    QuoteMapped(s.quote, Blank);
    QuoteMapped(s'.quote, Blank);
    FrameMappedMembers(Early(s), Blank);
    FrameMappedMembers(Early(s'), Blank);
    assert MappedMembers(Early(s), Blank) == MappedMembers(Early(s'), Blank);
  }

  /** The text in three parts. */
  function Front(s: Stock): Json.Text {
    Ascii("{\"result\":{") + (RenderMembers(Early(s)) + [COMMA])
  }

  function Back(s: Stock): Json.Text {
    [COMMA] + (RenderMember(Field("StockChartImageURL", s.chart)) + [RBRACE, RBRACE])
  }

  lemma InParts(s: Stock)
    ensures Render(Layout(s)) == Front(s) + (RenderMember(NewsMember(s.items)) + Back(s))
  {
    var all, start := ResultMembers(s), Ascii("{\"result\":{");
    ResultText(s);
    LastAdded(start, all);
    assert all[..3] == Early(s);
    assert SoFar(Early(s)) == RenderMembers(Early(s)) + [COMMA];
    PartsTogether(start + SoFar(Early(s)), RenderMember(all[3]), RenderMember(all[4]) + [RBRACE, RBRACE]);
  }

  lemma PartsTogether(a: Json.Text, b: Json.Text, c: Json.Text)
    ensures a + (b + [COMMA]) + c == a + (b + ([COMMA] + c))
  {
  }

  lemma FrontCount(s: Stock)
    ensures Quotes(Front(s)) == Quotes(Ascii("{\"result\":{")) + FrameMembers(Early(s)) + InnerMembers(Early(s))
  {
    CountMembers(Early(s));
    QuotesConcat(Ascii("{\"result\":{"), RenderMembers(Early(s)) + [COMMA]);
    QuotesConcat(RenderMembers(Early(s)), [COMMA]);
    One(COMMA);
  }

  lemma BackCount(s: Stock)
    ensures Quotes(Back(s)) == 4 + Quotes(Shown(s.chart))
  {
    var m := Field("StockChartImageURL", s.chart);
    CountTree(m.value);
    CountMember(m);
    NameCount("StockChartImageURL");
    One(COMMA);
    One(RBRACE);
    QuotesConcat([COMMA], RenderMember(m) + [RBRACE, RBRACE]);
    QuotesConcat(RenderMember(m), [RBRACE, RBRACE]);
    QuotesConcat([RBRACE], [RBRACE]);
    assert [RBRACE] + [RBRACE] == [RBRACE, RBRACE];
  }

  lemma NewsCount(items: seq<Item>)
    ensures Quotes(RenderMember(NewsMember(items))) == 4 + 8 * |items| + Inner(NewsMember(items).value)
  {
    CountTree(NewsMember(items).value);
    CountMember(NewsMember(items));
    NewsFrame(items);
  }

  /** The quotation marks of the text, in its three parts. */
  lemma Counted(s: Stock)
    ensures Quotes(Render(Layout(s))) == Quotes(Front(s)) + (4 + 8 * |s.items| + Inner(NewsMember(s.items).value))
                                         + (4 + Quotes(Shown(s.chart)))
    ensures Quotes(Front(s)) == Quotes(Ascii("{\"result\":{")) + FrameMembers(Early(s)) + InnerMembers(Early(s))
  {
    InParts(s);
    FrontCount(s);
    NewsCount(s.items);
    BackCount(s);
    QuotesConcat(Front(s), RenderMember(NewsMember(s.items)) + Back(s));
    QuotesConcat(RenderMember(NewsMember(s.items)), Back(s));
  }
}
