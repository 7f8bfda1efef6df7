/** The JSON that the stock servlet writes, `doGet` of `assignment8.java` from line 73 on. */
module StockJson {
  import opened Json
  import opened JsonLayout

  /** The children of the `Quote` element that are written. */
  datatype Quote = Quote(
    changeType: Missing, change: Missing, changeInPercent: Missing, lastTradePriceOnly: Missing,
    previousClose: Missing, daysLow: Missing, daysHigh: Missing, open: Missing,
    yearLow: Missing, yearHigh: Missing, bid: Missing, volume: Missing,
    ask: Missing, averageDailyVolume: Missing, oneYearTargetPrice: Missing, marketCapitalization: Missing)

  datatype Item = Item(title: Missing, link: Missing)

  /** What has been read from the XML document. */
  datatype Stock = Stock(name: Missing, symbol: Missing, quote: Quote, items: seq<Item>, chart: Missing)

  // The layout of the response.

  function Field(name: string, value: Missing): Member {
    Member(Ascii(name), Tree.Text(value))
  }

  function TradeMembers(q: Quote): seq<Member> {
    [Field("ChangeType", q.changeType), Field("Change", q.change),
     Field("ChangeInPercent", q.changeInPercent), Field("LastTradePriceOnly", q.lastTradePriceOnly)]
  }

  function DayMembers(q: Quote): seq<Member> {
    [Field("PreviousClose", q.previousClose), Field("DaysLow", q.daysLow),
     Field("DaysHigh", q.daysHigh), Field("Open", q.open)]
  }

  function YearMembers(q: Quote): seq<Member> {
    [Field("YearLow", q.yearLow), Field("YearHigh", q.yearHigh),
     Field("Bid", q.bid), Field("Volume", q.volume)]
  }

  function MarketMembers(q: Quote): seq<Member> {
    [Field("Ask", q.ask), Field("AverageDailyVolume", q.averageDailyVolume),
     Field("OneYearTargetPrice", q.oneYearTargetPrice), Field("MarketCapitalization", q.marketCapitalization)]
  }

  function QuoteMembers(q: Quote): seq<Member> {
    (TradeMembers(q) + DayMembers(q)) + (YearMembers(q) + MarketMembers(q))
  }

  function ItemTree(item: Item): Tree {
    Record([], [Field("Link", item.link), Field("Title", item.title)])
  }

  function ItemTrees(items: seq<Item>): (trees: seq<Tree>)
    ensures |trees| == |items| && forall i | 0 <= i < |items| :: trees[i] == ItemTree(items[i])
  {
    seq(|items|, i requires 0 <= i < |items| => ItemTree(items[i]))
  }

  function QuoteMember(q: Quote): Member {
    Member(Ascii("Quote"), Record([], QuoteMembers(q)))
  }

  function NewsMember(items: seq<Item>): Member {
    Member(Ascii("News"), Record([0x20], [Member(Ascii("Item"), List(ItemTrees(items)))]))
  }

  function ResultMembers(s: Stock): seq<Member> {
    [Field("Name", s.name), Field("Symbol", s.symbol), QuoteMember(s.quote), NewsMember(s.items),
     Field("StockChartImageURL", s.chart)]
  }

  function Layout(s: Stock): Tree {
    Record([], [Member(Ascii("result"), Record([], ResultMembers(s)))])
  }

  // Text put together.

  lemma {:induction false} RenderMembersSnoc(ms: seq<Member>, m: Member)
    ensures RenderMembers(ms + [m]) == (if ms == [] then [] else RenderMembers(ms) + [COMMA]) + RenderMember(m)
    decreases |ms|
  {
    var all := ms + [m];
    if ms == [] {
      assert all == [m];
      assert [] + RenderMember(m) == RenderMember(m);
    } else {
      assert all[1..] == ms[1..] + [m];
      RenderMembersSnoc(ms[1..], m);
      if |ms| > 1 {
        assert RenderMembers(all)
            == RenderMember(ms[0]) + [COMMA] + (RenderMembers(ms[1..]) + [COMMA] + RenderMember(m));
      }
    }
  }

  lemma {:induction false} RenderItemsSnoc(ts: seq<Tree>, t: Tree)
    ensures RenderItems(ts + [t]) == (if ts == [] then [] else RenderItems(ts) + [COMMA]) + Render(t)
    decreases |ts|
  {
    var all := ts + [t];
    if ts == [] {
      assert all == [t];
      assert [] + Render(t) == Render(t);
    } else {
      assert all[1..] == ts[1..] + [t];
      RenderItemsSnoc(ts[1..], t);
      if |ts| > 1 {
        assert RenderItems(all) == Render(ts[0]) + [COMMA] + (RenderItems(ts[1..]) + [COMMA] + Render(t));
      }
    }
  }

  lemma AsciiConcat(a: string, b: string)
    ensures Ascii(a + b) == Ascii(a) + Ascii(b)
  {
  }

  /** What has been written of an object: some members, and the comma after them. */
  function SoFar(ms: seq<Member>): Json.Text {
    if ms == [] then [] else RenderMembers(ms) + [COMMA]
  }

  /** `jsonString+="\"Name\":\""+Name+"\","`; for the last field of an object, without the comma. */
  method AddField(json: Json.Text, name: string, value: Missing, comma: bool,
                  ghost start: Json.Text, ghost all: seq<Member>, ghost k: nat)
    returns (json': Json.Text)
    requires k < |all| && all[k] == Field(name, value) && json == start + SoFar(all[..k])
    ensures json' == start + if comma then SoFar(all[..k + 1]) else RenderMembers(all[..k + 1])
  {
    json' := json + (Ascii("\"" + name + "\":\"") + Shown(value) + Ascii(if comma then "\"," else "\""));
    FieldAdded(name, value, comma);
    MemberAdded(start, all, k, comma);
  }

  lemma FieldAdded(name: string, value: Missing, comma: bool)
    ensures Ascii("\"" + name + "\":\"") + Shown(value) + Ascii(if comma then "\"," else "\"")
            == RenderMember(Field(name, value)) + if comma then [COMMA] else []
  {
    FieldText(name, value);
    assert Ascii(if comma then "\"," else "\"") == [QUOTE] + if comma then [COMMA] else [];
  }

  /** One more member of an object. */
  lemma MemberAdded(start: Json.Text, all: seq<Member>, k: nat, comma: bool)
    requires k < |all|
    ensures start + SoFar(all[..k]) + (RenderMember(all[k]) + if comma then [COMMA] else [])
            == start + if comma then SoFar(all[..k + 1]) else RenderMembers(all[..k + 1])
  {
    assert all[..k] + [all[k]] == all[..k + 1];
    RenderMembersSnoc(all[..k], all[k]);
    Regroup(start, SoFar(all[..k]), RenderMember(all[k]), if comma then [COMMA] else []);
    if !comma {
      assert SoFar(all[..k]) + RenderMember(all[k]) + [] == RenderMembers(all[..k + 1]);
    }
  }

  lemma RegroupNews(a: Json.Text, o: Json.Text, i: Json.Text, c: Json.Text, p: Json.Text, h: Json.Text, e: Json.Text)
    ensures a + o + i + (c + p + h + e) == a + (o + i + c) + (p + h + e)
  {
  }

  lemma Regroup(a: Json.Text, b: Json.Text, c: Json.Text, d: Json.Text)
    ensures a + b + (c + d) == a + (b + c + d)
  {
  }

  lemma FieldText(name: string, value: Missing)
    ensures Ascii("\"" + name + "\":\"") + Shown(value) + [QUOTE] == RenderMember(Field(name, value))
  {
    AsciiConcat("\"" + name, "\":\"");
    AsciiConcat("\"", name);
    assert Ascii("\"") == [QUOTE] && Ascii("\":\"") == [QUOTE, COLON, QUOTE];
  }

  /** Four fields of an object, each with a comma unless it is the last of all. */
  method AddFour(json: Json.Text, n1: string, v1: Missing, n2: string, v2: Missing,
                 n3: string, v3: Missing, n4: string, v4: Missing, last: bool,
                 ghost start: Json.Text, ghost all: seq<Member>, ghost k: nat)
    returns (json': Json.Text)
    requires k + 4 <= |all| && json == start + SoFar(all[..k])
    requires all[k..k + 4] == [Field(n1, v1), Field(n2, v2), Field(n3, v3), Field(n4, v4)]
    ensures json' == start + if last then RenderMembers(all[..k + 4]) else SoFar(all[..k + 4])
  {
    ghost var part := all[k..k + 4];
    assert all[k] == part[0] && all[k + 1] == part[1] && all[k + 2] == part[2] && all[k + 3] == part[3];
    json' := AddField(json, n1, v1, true, start, all, k);
    json' := AddField(json', n2, v2, true, start, all, k + 1);
    json' := AddField(json', n3, v3, true, start, all, k + 2);
    json' := AddField(json', n4, v4, !last, start, all, k + 3);
  }

  lemma FourFours(a: seq<Member>, b: seq<Member>, c: seq<Member>, d: seq<Member>)
    requires |a| == |b| == |c| == |d| == 4
    ensures var all := (a + b) + (c + d);
            |all| == 16 && all[0..4] == a && all[4..8] == b && all[8..12] == c && all[12..16] == d
  {
  }

  method AddPrices(json: Json.Text, q: Quote, ghost all: seq<Member>) returns (json': Json.Text)
    requires |all| == 16 && all[0..4] == TradeMembers(q) && all[4..8] == DayMembers(q)
    ensures json' == json + SoFar(all[..8])
  {
    assert all[..0] == [] && json + [] == json;
    json' := AddFour(json, "ChangeType", q.changeType, "Change", q.change,
                     "ChangeInPercent", q.changeInPercent, "LastTradePriceOnly", q.lastTradePriceOnly,
                     false, json, all, 0);
    json' := AddFour(json', "PreviousClose", q.previousClose, "DaysLow", q.daysLow,
                     "DaysHigh", q.daysHigh, "Open", q.open, false, json, all, 4);
  }

  method AddFigures(json: Json.Text, q: Quote, ghost start: Json.Text, ghost all: seq<Member>)
    returns (json': Json.Text)
    requires |all| == 16 && all[8..12] == YearMembers(q) && all[12..16] == MarketMembers(q)
    requires json == start + SoFar(all[..8])
    ensures json' == start + RenderMembers(all)
  {
    json' := AddFour(json, "YearLow", q.yearLow, "YearHigh", q.yearHigh,
                     "Bid", q.bid, "Volume", q.volume, false, start, all, 8);
    json' := AddFour(json', "Ask", q.ask, "AverageDailyVolume", q.averageDailyVolume,
                     "OneYearTargetPrice", q.oneYearTargetPrice, "MarketCapitalization", q.marketCapitalization,
                     true, start, all, 12);
    assert all[..16] == all;
  }

  method AddQuote(json: Json.Text, q: Quote) returns (json': Json.Text)
    ensures json' == json + RenderMembers(QuoteMembers(q))
  {
    ghost var all := QuoteMembers(q);
    FourFours(TradeMembers(q), DayMembers(q), YearMembers(q), MarketMembers(q));
    json' := AddPrices(json, q, all);
    json' := AddFigures(json', q, json, all);
  }

  lemma LinkText()
    ensures Ascii("{\"Link\":\"") == [LBRACE] + (Quoted(Ascii("Link")) + [COLON, QUOTE])
  {
  }

  lemma TitleText()
    ensures Ascii("\",\"Title\":\"") == [QUOTE, COMMA] + (Quoted(Ascii("Title")) + [COLON, QUOTE])
  {
  }

  lemma EndText()
    ensures Ascii("\"}") == [QUOTE, RBRACE]
  {
  }

  lemma ItemText(item: Item)
    ensures Ascii("{\"Link\":\"") + Shown(item.link) + Ascii("\",\"Title\":\"") + Shown(item.title) + Ascii("\"}")
            == Render(ItemTree(item))
  {
    LinkText();
    TitleText();
    EndText();
    ItemLayout(Field("Link", item.link), Field("Title", item.title));
    ItemRegrouped(Ascii("Link"), Shown(item.link), Ascii("Title"), Shown(item.title));
  }

  lemma ItemRegrouped(link: Json.Text, l: Json.Text, title: Json.Text, t: Json.Text)
    ensures [LBRACE] + (Quoted(link) + [COLON, QUOTE]) + l + ([QUOTE, COMMA] + (Quoted(title) + [COLON, QUOTE])) + t
            + [QUOTE, RBRACE]
            == [LBRACE] + (Quoted(link) + [COLON] + Quoted(l)) + [COMMA]
               + (Quoted(title) + [COLON] + Quoted(t)) + [RBRACE]
  {
  }

  lemma ItemLayout(a: Member, b: Member)
    ensures Render(Record([], [a, b])) == [LBRACE] + RenderMember(a) + [COMMA] + RenderMember(b) + [RBRACE]
  {
    assert [a, b][1..] == [b];
    assert RenderMembers([a, b]) == RenderMember(a) + [COMMA] + RenderMembers([b]);
  }

  /** The loop over the items, with the comma between two of them. */
  method AddItems(json: Json.Text, Title: array<Missing>, Link: array<Missing>, items: seq<Item>)
    returns (json': Json.Text)
    requires Title.Length == Link.Length == |items|
    requires forall i | 0 <= i < |items| :: Title[i] == items[i].title && Link[i] == items[i].link
    ensures json' == json + RenderItems(ItemTrees(items))
  {
    json' := json;
    ghost var trees := ItemTrees(items);
    for i := 0 to |items|
      invariant json' == json + RenderItems(trees[..i]) + if 0 < i < |items| then [COMMA] else []
    {
      ItemText(items[i]);
      ItemAdded(json, trees, i);
      json' := json' + (Ascii("{\"Link\":\"") + Shown(Link[i])
                        + Ascii("\",\"Title\":\"") + Shown(Title[i]) + Ascii("\"}"));
      if i < |items| - 1 {
        json' := json' + Ascii(",");
        assert Ascii(",") == [COMMA];
      }
    }
    assert trees[..|items|] == trees;
  }

  lemma ItemAdded(start: Json.Text, trees: seq<Tree>, i: int)
    requires 0 <= i < |trees|
    ensures start + RenderItems(trees[..i]) + (if 0 < i < |trees| then [COMMA] else []) + Render(trees[i])
            == start + RenderItems(trees[..i + 1])
  {
    assert trees[..i] + [trees[i]] == trees[..i + 1];
    RenderItemsSnoc(trees[..i], trees[i]);
  }

  /** The statements up to the news. */
  method WriteEarly(s: Stock, ghost all: seq<Member>) returns (jsonString: Json.Text)
    requires |all| > 3 && all[0] == Field("Name", s.name) && all[1] == Field("Symbol", s.symbol)
    requires all[2] == QuoteMember(s.quote)
    ensures jsonString == Ascii("{\"result\":{") + SoFar(all[..3])
  {
    jsonString := Ascii("{\"result\":{");
    ghost var start := jsonString;
    assert all[..0] == [] && start + [] == start;
    jsonString := AddField(jsonString, "Name", s.name, true, start, all, 0);
    jsonString := AddField(jsonString, "Symbol", s.symbol, true, start, all, 1);
    jsonString := jsonString + Ascii("\"Quote\":{");
    jsonString := AddQuote(jsonString, s.quote);
    jsonString := jsonString + Ascii("},");
    QuoteAdded(start, all, s.quote);
  }

  /** The statements that build the string. */
  method WriteJson(s: Stock, Title: array<Missing>, Link: array<Missing>) returns (jsonString: Json.Text)
    requires Title.Length == Link.Length == |s.items|
    requires forall i | 0 <= i < |s.items| :: Title[i] == s.items[i].title && Link[i] == s.items[i].link
    ensures jsonString == Render(Layout(s))
  {
    ghost var all := ResultMembers(s);
    jsonString := WriteEarly(s, all);
    jsonString := jsonString + Ascii("\"News\":{ \"Item\":[");
    jsonString := AddItems(jsonString, Title, Link, s.items);
    jsonString := jsonString + (Ascii("]},") + Ascii("\"StockChartImageURL\":\"") + Shown(s.chart) + Ascii("\"}}"));
    NewsAdded(Ascii("{\"result\":{"), all, s.items, s.chart);
    ResultText(s);
  }

  /** `Title` and `Link` filled from the items, and the JSON string built. */
  method DoGet(s: Stock) returns (jsonString: Json.Text)
    ensures jsonString == Render(Layout(s))
  {
    var n := |s.items|;
    var Title := new Missing[n](_ => NullRef);
    var Link := new Missing[n](_ => NullRef);
    for i := 0 to n
      invariant forall j | 0 <= j < i :: Title[j] == s.items[j].title && Link[j] == s.items[j].link
    {
      Title[i] := s.items[i].title;
      Link[i] := s.items[i].link;
    }
    jsonString := WriteJson(s, Title, Link);
  }

  /** An object member up to its opening brace. */
  lemma OpenText(name: string)
    ensures Ascii("\"" + name + "\":{") == Quoted(Ascii(name)) + [COLON] + [LBRACE]
  {
    AsciiConcat("\"" + name, "\":{");
    AsciiConcat("\"", name);
    assert Ascii("\"") == [QUOTE] && Ascii("\":{") == [QUOTE, COLON, LBRACE];
  }

  lemma QuoteAdded(start: Json.Text, all: seq<Member>, q: Quote)
    requires |all| > 2 && all[2] == QuoteMember(q)
    ensures start + SoFar(all[..2]) + Ascii("\"Quote\":{") + RenderMembers(QuoteMembers(q)) + Ascii("},")
            == start + SoFar(all[..3])
  {
    OpenText("Quote");
    assert "\"" + "Quote" + "\":{" == "\"Quote\":{";
    assert Ascii("},") == [RBRACE, COMMA];
    assert Ascii("\"Quote\":{") + RenderMembers(QuoteMembers(q)) + Ascii("},") == RenderMember(all[2]) + [COMMA];
    MemberAdded(start, all, 2, true);
    assert start + SoFar(all[..2]) + Ascii("\"Quote\":{") + RenderMembers(QuoteMembers(q)) + Ascii("},")
        == start + SoFar(all[..2]) + (Ascii("\"Quote\":{") + RenderMembers(QuoteMembers(q)) + Ascii("},"));
  }

  /** A record with one member. */
  lemma OneMemberRecord(name: string, pad: Json.Text, m: Member)
    ensures RenderMember(Member(Ascii(name), Record(pad, [m])))
            == Quoted(Ascii(name)) + [COLON] + [LBRACE] + pad + RenderMember(m) + [RBRACE]
  {
    assert RenderMembers([m]) == RenderMember(m);
  }

  lemma NewsText(items: seq<Item>)
    ensures Ascii("\"News\":{ \"Item\":[") + RenderItems(ItemTrees(items)) + Ascii("]},")
            == RenderMember(NewsMember(items)) + [COMMA]
  {
    var m := Member(Ascii("Item"), List(ItemTrees(items)));
    OneMemberRecord("News", [0x20], m);
    NewsOpenText();
    assert Ascii("]},") == [RBRACKET] + [RBRACE] + [COMMA];
    NewsParts(Quoted(Ascii("News")) + [COLON] + [LBRACE], Quoted(Ascii("Item")) + [COLON],
              RenderItems(ItemTrees(items)));
  }

  lemma NewsParts(news: Json.Text, item: Json.Text, items: Json.Text)
    ensures news + ([0x20] + item + [LBRACKET]) + items + ([RBRACKET] + [RBRACE] + [COMMA])
            == news + [0x20] + (item + ([LBRACKET] + items + [RBRACKET])) + [RBRACE] + [COMMA]
  {
  }

  lemma NewsOpenText()
    ensures Ascii("\"News\":{ \"Item\":[")
            == (Quoted(Ascii("News")) + [COLON] + [LBRACE]) + ([0x20] + (Quoted(Ascii("Item")) + [COLON]) + [LBRACKET])
  {
    OpenText("News");
    ItemOpenText();
    AsciiConcat("\"News\":{", " \"Item\":[");
    assert "\"" + "News" + "\":{" == "\"News\":{" && "\"News\":{" + " \"Item\":[" == "\"News\":{ \"Item\":[";
    assert [0x20] + Quoted(Ascii("Item")) + [COLON] + [LBRACKET]
        == [0x20] + (Quoted(Ascii("Item")) + [COLON]) + [LBRACKET];
  }

  lemma ItemOpenText()
    ensures Ascii(" \"Item\":[") == [0x20] + Quoted(Ascii("Item")) + [COLON] + [LBRACKET]
  {
    AsciiConcat(" \"" + "Item", "\":[");
    AsciiConcat(" \"", "Item");
    assert " \"" + "Item" + "\":[" == " \"Item\":[";
    assert Ascii(" \"") == [0x20, QUOTE] && Ascii("\":[") == [QUOTE, COLON, LBRACKET];
  }

  lemma ChartText(chart: Missing)
    ensures Ascii("\"StockChartImageURL\":\"") + Shown(chart) + Ascii("\"}}")
            == RenderMember(Field("StockChartImageURL", chart)) + [RBRACE, RBRACE]
  {
    ChartOpenText();
    assert Ascii("\"}}") == [QUOTE] + [RBRACE, RBRACE];
    ValueClosed(Quoted(Ascii("StockChartImageURL")), Shown(chart));
  }

  lemma ChartOpenText()
    ensures Ascii("\"StockChartImageURL\":\"") == Quoted(Ascii("StockChartImageURL")) + [COLON, QUOTE]
  {
  }

  lemma ValueClosed(name: Json.Text, value: Json.Text)
    ensures name + [COLON, QUOTE] + value + ([QUOTE] + [RBRACE, RBRACE])
            == (name + [COLON] + Quoted(value)) + [RBRACE, RBRACE]
  {
  }

  lemma NewsAdded(start: Json.Text, all: seq<Member>, items: seq<Item>, chart: Missing)
    requires |all| == 5 && all[3] == NewsMember(items) && all[4] == Field("StockChartImageURL", chart)
    ensures start + SoFar(all[..3]) + Ascii("\"News\":{ \"Item\":[") + RenderItems(ItemTrees(items))
            + (Ascii("]},") + Ascii("\"StockChartImageURL\":\"") + Shown(chart) + Ascii("\"}}"))
            == start + RenderMembers(all) + [RBRACE, RBRACE]
  {
    NewsText(items);
    ChartText(chart);
    RegroupNews(start + SoFar(all[..3]), Ascii("\"News\":{ \"Item\":["), RenderItems(ItemTrees(items)), Ascii("]},"),
                Ascii("\"StockChartImageURL\":\""), Shown(chart), Ascii("\"}}"));
    LastAdded(start, all);
  }

  lemma LastAdded(start: Json.Text, all: seq<Member>)
    requires |all| == 5
    ensures start + SoFar(all[..3]) + (RenderMember(all[3]) + [COMMA]) + (RenderMember(all[4]) + [RBRACE, RBRACE])
            == start + RenderMembers(all) + [RBRACE, RBRACE]
  {
    MemberAdded(start, all, 3, true);
    MemberAdded(start, all, 4, false);
    assert all[..5] == all;
    BracesLast(start + SoFar(all[..4]), RenderMember(all[4]));
  }

  lemma BracesLast(a: Json.Text, b: Json.Text)
    ensures a + (b + [RBRACE, RBRACE]) == a + (b + []) + [RBRACE, RBRACE]
  {
  }

  lemma ResultOpenText()
    ensures Ascii("{\"result\":{") == [LBRACE] + (Quoted(Ascii("result")) + [COLON] + [LBRACE])
  {
    OpenText("result");
    AsciiConcat("{", "\"result\":{");
    assert "\"" + "result" + "\":{" == "\"result\":{" && "{" + "\"result\":{" == "{\"result\":{";
    assert Ascii("{") == [LBRACE];
  }

  lemma ResultText(s: Stock)
    ensures Ascii("{\"result\":{") + RenderMembers(ResultMembers(s)) + [RBRACE, RBRACE] == Render(Layout(s))
  {
    var result := Member(Ascii("result"), Record([], ResultMembers(s)));
    ResultOpenText();
    assert RenderMembers([result]) == RenderMember(result);
    ResultParts(Quoted(Ascii("result")) + [COLON], RenderMembers(ResultMembers(s)));
    assert Render(result.value) == [LBRACE] + [] + RenderMembers(ResultMembers(s)) + [RBRACE];
    assert Layout(s) == Record([], [result]);
    assert Render(Layout(s)) == [LBRACE] + [] + RenderMember(result) + [RBRACE];
  }

  lemma ResultParts(name: Json.Text, members: Json.Text)
    ensures [LBRACE] + (name + [LBRACE]) + members + [RBRACE, RBRACE]
            == [LBRACE] + [] + (name + ([LBRACE] + [] + members + [RBRACE])) + [RBRACE]
  {
  }
}
