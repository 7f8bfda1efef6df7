/** Reading back what the stock servlet writes. */
module StockReader {
  import opened Json
  import opened JsonLayout
  import opened StockJson

  // One statement about all the strings of a record.

  predicate EveryOfQuote(q: Quote, p: Missing -> bool) {
    && p(q.changeType) && p(q.change) && p(q.changeInPercent) && p(q.lastTradePriceOnly)
    && p(q.previousClose) && p(q.daysLow) && p(q.daysHigh) && p(q.open)
    && p(q.yearLow) && p(q.yearHigh) && p(q.bid) && p(q.volume)
    && p(q.ask) && p(q.averageDailyVolume) && p(q.oneYearTargetPrice) && p(q.marketCapitalization)
  }

  predicate EveryOfItems(items: seq<Item>, p: Missing -> bool) {
    forall i | 0 <= i < |items| :: p(items[i].title) && p(items[i].link)
  }

  predicate EveryOfStock(s: Stock, p: Missing -> bool) {
    p(s.name) && p(s.symbol) && EveryOfQuote(s.quote, p) && EveryOfItems(s.items, p) && p(s.chart)
  }

  predicate PlainStock(s: Stock) {
    EveryOfStock(s, Plain)
  }

  /** The names that are written need no escapes. */
  lemma NamesClean(name: string)
    requires forall i | 0 <= i < |name| :: 'A' <= name[i] <= 'Z' || 'a' <= name[i] <= 'z'
    ensures Clean(Ascii(name))
  {
  }

  ghost predicate MembersLaid(ms: seq<Member>) {
    forall m | m in ms :: Clean(m.name) && WellLaid(m.value)
  }

  lemma FieldLaid(name: string, value: Missing, p: Missing -> bool)
    requires forall i | 0 <= i < |name| :: 'A' <= name[i] <= 'Z' || 'a' <= name[i] <= 'z'
    ensures MembersLaid([Field(name, value)])
    ensures Every(Field(name, value).value, p) <==> p(value)
  {
    NamesClean(name);
  }

  predicate EveryMember(ms: seq<Member>, p: Missing -> bool) {
    forall m | m in ms :: Every(m.value, p)
  }

  predicate EveryItem(ts: seq<Tree>, p: Missing -> bool) {
    forall t | t in ts :: Every(t, p)
  }

  lemma LaidConcat(a: seq<Member>, b: seq<Member>, p: Missing -> bool)
    ensures MembersLaid(a + b) <==> MembersLaid(a) && MembersLaid(b)
    ensures EveryMember(a + b, p) <==> EveryMember(a, p) && EveryMember(b, p)
  {
    assert forall m | m in a :: m in a + b;
    assert forall m | m in b :: m in a + b;
  }

  /** Four fields of an object. */
  lemma FourLaid(a: Member, b: Member, c: Member, d: Member, p: Missing -> bool)
    requires MembersLaid([a]) && MembersLaid([b]) && MembersLaid([c]) && MembersLaid([d])
    ensures MembersLaid([a, b, c, d])
    ensures EveryMember([a, b, c, d], p)
            <==> Every(a.value, p) && Every(b.value, p) && Every(c.value, p) && Every(d.value, p)
  {
    assert a in [a] && b in [b] && c in [c] && d in [d];
    assert a in [a, b, c, d] && b in [a, b, c, d] && c in [a, b, c, d] && d in [a, b, c, d];
  }

  lemma TradeLaid(q: Quote, p: Missing -> bool)
    ensures MembersLaid(TradeMembers(q))
    ensures EveryMember(TradeMembers(q), p)
            <==> p(q.changeType) && p(q.change) && p(q.changeInPercent) && p(q.lastTradePriceOnly)
  {
    FieldLaid("ChangeType", q.changeType, p);
    FieldLaid("Change", q.change, p);
    FieldLaid("ChangeInPercent", q.changeInPercent, p);
    FieldLaid("LastTradePriceOnly", q.lastTradePriceOnly, p);
    FourLaid(Field("ChangeType", q.changeType), Field("Change", q.change),
             Field("ChangeInPercent", q.changeInPercent), Field("LastTradePriceOnly", q.lastTradePriceOnly), p);
  }

  lemma DayLaid(q: Quote, p: Missing -> bool)
    ensures MembersLaid(DayMembers(q))
    ensures EveryMember(DayMembers(q), p)
            <==> p(q.previousClose) && p(q.daysLow) && p(q.daysHigh) && p(q.open)
  {
    FieldLaid("PreviousClose", q.previousClose, p);
    FieldLaid("DaysLow", q.daysLow, p);
    FieldLaid("DaysHigh", q.daysHigh, p);
    FieldLaid("Open", q.open, p);
    FourLaid(Field("PreviousClose", q.previousClose), Field("DaysLow", q.daysLow),
             Field("DaysHigh", q.daysHigh), Field("Open", q.open), p);
  }

  lemma YearLaid(q: Quote, p: Missing -> bool)
    ensures MembersLaid(YearMembers(q))
    ensures EveryMember(YearMembers(q), p)
            <==> p(q.yearLow) && p(q.yearHigh) && p(q.bid) && p(q.volume)
  {
    FieldLaid("YearLow", q.yearLow, p);
    FieldLaid("YearHigh", q.yearHigh, p);
    FieldLaid("Bid", q.bid, p);
    FieldLaid("Volume", q.volume, p);
    FourLaid(Field("YearLow", q.yearLow), Field("YearHigh", q.yearHigh),
             Field("Bid", q.bid), Field("Volume", q.volume), p);
  }

  lemma MarketLaid(q: Quote, p: Missing -> bool)
    ensures MembersLaid(MarketMembers(q))
    ensures EveryMember(MarketMembers(q), p)
            <==> p(q.ask) && p(q.averageDailyVolume) && p(q.oneYearTargetPrice) && p(q.marketCapitalization)
  {
    FieldLaid("Ask", q.ask, p);
    FieldLaid("AverageDailyVolume", q.averageDailyVolume, p);
    FieldLaid("OneYearTargetPrice", q.oneYearTargetPrice, p);
    FieldLaid("MarketCapitalization", q.marketCapitalization, p);
    FourLaid(Field("Ask", q.ask), Field("AverageDailyVolume", q.averageDailyVolume),
             Field("OneYearTargetPrice", q.oneYearTargetPrice),
             Field("MarketCapitalization", q.marketCapitalization), p);
  }

  lemma QuoteLaid(q: Quote, p: Missing -> bool)
    ensures MembersLaid(QuoteMembers(q))
    ensures EveryMember(QuoteMembers(q), p) <==> EveryOfQuote(q, p)
  {
    TradeLaid(q, p);
    DayLaid(q, p);
    YearLaid(q, p);
    MarketLaid(q, p);
    FourParts(TradeMembers(q), DayMembers(q), YearMembers(q), MarketMembers(q), p);
  }

  lemma FourParts(a: seq<Member>, b: seq<Member>, c: seq<Member>, d: seq<Member>, p: Missing -> bool)
    requires MembersLaid(a) && MembersLaid(b) && MembersLaid(c) && MembersLaid(d)
    ensures MembersLaid((a + b) + (c + d))
    ensures EveryMember((a + b) + (c + d), p)
            <==> EveryMember(a, p) && EveryMember(b, p) && EveryMember(c, p) && EveryMember(d, p)
  {
    LaidConcat(a, b, p);
    LaidConcat(c, d, p);
    LaidConcat(a + b, c + d, p);
  }

  lemma ItemLaid(item: Item, p: Missing -> bool)
    ensures WellLaid(ItemTree(item))
    ensures Every(ItemTree(item), p) <==> p(item.title) && p(item.link)
  {
    var link, title := Field("Link", item.link), Field("Title", item.title);
    FieldLaid("Link", item.link, p);
    FieldLaid("Title", item.title, p);
    assert link in [link, title] && title in [link, title];
  }

  lemma ItemsLaid(items: seq<Item>, p: Missing -> bool)
    ensures forall t | t in ItemTrees(items) :: WellLaid(t)
    ensures EveryItem(ItemTrees(items), p) <==> EveryOfItems(items, p)
  {
    var trees := ItemTrees(items);
    forall i | 0 <= i < |items|
      ensures WellLaid(trees[i]) && (Every(trees[i], p) <==> p(items[i].title) && p(items[i].link))
    {
      ItemLaid(items[i], p);
    }
    if EveryItem(trees, p) {
      forall i | 0 <= i < |items|
        ensures p(items[i].title) && p(items[i].link)
      {
        assert trees[i] in trees;
      }
    }
  }

  lemma NewsLaid(items: seq<Item>, p: Missing -> bool)
    ensures MembersLaid([NewsMember(items)])
    ensures Every(NewsMember(items).value, p) <==> EveryOfItems(items, p)
  {
    NamesClean("News");
    NamesClean("Item");
    ItemsLaid(items, p);
    var m := Member(Ascii("Item"), List(ItemTrees(items)));
    assert m in [m];
  }

  lemma OneLaid(pad: Json.Text, m: Member, p: Missing -> bool)
    requires (forall u | u in pad :: IsWs(u)) && Clean(m.name) && WellLaid(m.value)
    ensures MembersLaid([m]) && WellLaid(Record(pad, [m]))
    ensures EveryMember([m], p) <==> Every(m.value, p)
    ensures Every(Record(pad, [m]), p) <==> Every(m.value, p)
  {
    assert m in [m];
  }

  lemma FiveLaid(a: Member, b: Member, c: Member, d: Member, e: Member, p: Missing -> bool)
    requires MembersLaid([a]) && MembersLaid([b]) && MembersLaid([c]) && MembersLaid([d]) && MembersLaid([e])
    ensures MembersLaid([a, b, c, d, e])
    ensures EveryMember([a, b, c, d, e], p)
            <==> Every(a.value, p) && Every(b.value, p) && Every(c.value, p) && Every(d.value, p) && Every(e.value, p)
  {
    FourLaid(a, b, c, d, p);
    LaidConcat([a, b, c, d], [e], p);
    assert [a, b, c, d] + [e] == [a, b, c, d, e];
    assert e in [e];
  }

  lemma RecordLaid(ms: seq<Member>, p: Missing -> bool)
    requires MembersLaid(ms)
    ensures WellLaid(Record([], ms)) && (Every(Record([], ms), p) <==> EveryMember(ms, p))
  {
  }

  lemma RecordMemberLaid(name: Json.Text, ms: seq<Member>, p: Missing -> bool)
    requires Clean(name) && MembersLaid(ms)
    ensures MembersLaid([Member(name, Record([], ms))])
    ensures Every(Record([], ms), p) <==> EveryMember(ms, p)
  {
    RecordLaid(ms, p);
    OneLaid([], Member(name, Record([], ms)), p);
  }

  lemma QuoteNameClean()
    ensures Clean(Ascii("Quote"))
  {
    NamesClean("Quote");
  }

  lemma QuoteMemberLaid(q: Quote, p: Missing -> bool)
    ensures MembersLaid([QuoteMember(q)])
    ensures Every(QuoteMember(q).value, p) <==> EveryOfQuote(q, p)
  {
    QuoteNameClean();
    QuoteLaid(q, p);
    RecordMemberLaid(Ascii("Quote"), QuoteMembers(q), p);
  }

  lemma ChartLaid(chart: Missing, p: Missing -> bool)
    ensures MembersLaid([Field("StockChartImageURL", chart)])
    ensures Every(Field("StockChartImageURL", chart).value, p) <==> p(chart)
  {
    FieldLaid("StockChartImageURL", chart, p);
  }

  lemma ResultLaid(s: Stock, p: Missing -> bool)
    ensures MembersLaid(ResultMembers(s))
    ensures EveryMember(ResultMembers(s), p) <==> EveryOfStock(s, p)
  {
    FieldLaid("Name", s.name, p);
    FieldLaid("Symbol", s.symbol, p);
    QuoteMemberLaid(s.quote, p);
    NewsLaid(s.items, p);
    ChartLaid(s.chart, p);
    FiveLaid(Field("Name", s.name), Field("Symbol", s.symbol), QuoteMember(s.quote), NewsMember(s.items),
             Field("StockChartImageURL", s.chart), p);
  }

  lemma WholeLaid(ms: seq<Member>, p: Missing -> bool)
    requires MembersLaid(ms)
    ensures WellLaid(Record([], [Member(Ascii("result"), Record([], ms))]))
    ensures Every(Record([], [Member(Ascii("result"), Record([], ms))]), p) <==> EveryMember(ms, p)
  {
    NamesClean("result");
    RecordLaid(ms, p);
    OneLaid([], Member(Ascii("result"), Record([], ms)), p);
  }

  lemma LayoutLaid(s: Stock, p: Missing -> bool)
    ensures WellLaid(Layout(s))
    ensures Every(Layout(s), p) <==> EveryOfStock(s, p)
  {
    ResultLaid(s, p);
    WholeLaid(ResultMembers(s), p);
  }

  /** The response, the line end of `println` after it, is one JSON text that is read as the very
      record written, exactly when every string of the record is there and needs no escapes. */
  lemma ReadBackIff(s: Stock, eol: Json.Text)
    requires eol == [0x0A] || eol == [0x0D, 0x0A]
    ensures ReadText(Render(Layout(s)) + eol) == Got(Meant(Layout(s)), []) <==> PlainStock(s)
  {
    LayoutLaid(s, Plain);
    TextBackIff(Layout(s), eol);
  }

  // The record in the value read.

  /** The member of an object by its name; when a name comes twice the later one counts. */
  function Get(v: Value, name: string): Value {
    if v.Obj? then Lookup(v.members, Ascii(name)) else Null
  }

  function Lookup(members: seq<(Json.Text, Value)>, name: Json.Text): Value {
    if members == [] then Null
    else
      var (n, v) := members[|members| - 1];
      if n == name then v else Lookup(members[..|members| - 1], name)
  }

  function TextOf(v: Value): Missing {
    if v.Str? then Given(v.s) else NullRef
  }

  function QuoteOf(v: Value): Quote {
    Quote(TextOf(Get(v, "ChangeType")), TextOf(Get(v, "Change")), TextOf(Get(v, "ChangeInPercent")),
          TextOf(Get(v, "LastTradePriceOnly")), TextOf(Get(v, "PreviousClose")), TextOf(Get(v, "DaysLow")),
          TextOf(Get(v, "DaysHigh")), TextOf(Get(v, "Open")), TextOf(Get(v, "YearLow")), TextOf(Get(v, "YearHigh")),
          TextOf(Get(v, "Bid")), TextOf(Get(v, "Volume")), TextOf(Get(v, "Ask")),
          TextOf(Get(v, "AverageDailyVolume")), TextOf(Get(v, "OneYearTargetPrice")),
          TextOf(Get(v, "MarketCapitalization")))
  }

  function ItemOf(v: Value): Item {
    Item(TextOf(Get(v, "Title")), TextOf(Get(v, "Link")))
  }

  function ItemsOf(v: Value): seq<Item> {
    if v.Arr? then seq(|v.items|, i requires 0 <= i < |v.items| => ItemOf(v.items[i])) else []
  }

  /** The record in the response, every part by its name, as the page takes it. */
  function StockOf(v: Value): Stock {
    var result := Get(v, "result");
    Stock(TextOf(Get(result, "Name")), TextOf(Get(result, "Symbol")), QuoteOf(Get(result, "Quote")),
          ItemsOf(Get(Get(result, "News"), "Item")), TextOf(Get(result, "StockChartImageURL")))
  }

  lemma {:induction false} MeantMembersAt(ms: seq<Member>, k: nat)
    requires k < |ms|
    ensures |MeantMembers(ms)| == |ms| && MeantMembers(ms)[k] == (ms[k].name, Meant(ms[k].value))
    decreases |ms|
  {
    if k > 0 {
      MeantMembersAt(ms[1..], k - 1);
    } else if |ms| > 1 {
      MeantMembersAt(ms[1..], 0);
    }
  }

  lemma {:induction false} MeantItemsAt(ts: seq<Tree>)
    ensures |MeantItems(ts)| == |ts|
    ensures forall k | 0 <= k < |ts| :: MeantItems(ts)[k] == Meant(ts[k])
    decreases |ts|
  {
    if ts != [] {
      MeantItemsAt(ts[1..]);
      assert forall k | 1 <= k < |ts| :: ts[k] == ts[1..][k - 1];
    }
  }

  /** No other member has the name of the `k`th. */
  ghost predicate OnlyName(ms: seq<Member>, k: nat) {
    k < |ms| && forall j | 0 <= j < |ms| && j != k :: ms[j].name != ms[k].name
  }

  lemma {:induction false} LookupOnly(members: seq<(Json.Text, Value)>, k: nat)
    requires k < |members|
    requires forall j | k < j < |members| :: members[j].0 != members[k].0
    ensures Lookup(members, members[k].0) == members[k].1
    decreases |members|
  {
    if k < |members| - 1 {
      LookupOnly(members[..|members| - 1], k);
    }
  }

  lemma GetMeant(pad: Json.Text, ms: seq<Member>, k: nat, name: string)
    requires OnlyName(ms, k) && ms[k].name == Ascii(name)
    ensures Get(Meant(Record(pad, ms)), name) == Meant(ms[k].value)
  {
    MeantNames(ms);
    MeantMembersAt(ms, k);
    LookupOnly(MeantMembers(ms), k);
  }

  lemma MeantNames(ms: seq<Member>)
    ensures |MeantMembers(ms)| == |ms|
    ensures forall k | 0 <= k < |ms| :: MeantMembers(ms)[k].0 == ms[k].name
  {
    if ms != [] {
      MeantMembersAt(ms, 0);
    }
    forall k | 0 <= k < |ms|
      ensures MeantMembers(ms)[k].0 == ms[k].name
    {
      MeantMembersAt(ms, k);
    }
  }

  lemma TextBack(pad: Json.Text, ms: seq<Member>, k: nat, name: string, value: Missing)
    requires OnlyName(ms, k) && ms[k] == Field(name, value)
    ensures TextOf(Get(Meant(Record(pad, ms)), name)) == value
  {
    GetMeant(pad, ms, k, name);
  }

  // The names are all different: most have a length of their own, the others a first letter.

  /** Where among the members of "Quote" a name stands. */
  function QuotePlace(name: Json.Text): nat {
    if name == [] then 16
    else
      match |name|
      case 10 => 0
      case 6 => if name[0] == 'C' as int then 1 else 11
      case 15 => 2
      case 18 => if name[0] == 'L' as int then 3 else if name[0] == 'A' as int then 13 else 14
      case 13 => 4
      case 7 => if name[0] == 'D' as int then 5 else 8
      case 8 => if name[0] == 'D' as int then 6 else 9
      case 4 => 7
      case 3 => if name[0] == 'B' as int then 10 else 12
      case 20 => 15
      case _ => 16
  }

  lemma TradeNames(q: Quote)
    ensures forall k | 0 <= k < 4 :: QuotePlace(TradeMembers(q)[k].name) == k
  {
    assert |TradeMembers(q)| == 4;
  }

  lemma DayNames(q: Quote)
    ensures forall k | 0 <= k < 4 :: QuotePlace(DayMembers(q)[k].name) == 4 + k
  {
    assert |DayMembers(q)| == 4;
  }

  lemma YearNames(q: Quote)
    ensures forall k | 0 <= k < 4 :: QuotePlace(YearMembers(q)[k].name) == 8 + k
  {
    assert |YearMembers(q)| == 4;
  }

  lemma MarketNames(q: Quote)
    ensures forall k | 0 <= k < 4 :: QuotePlace(MarketMembers(q)[k].name) == 12 + k
  {
    assert |MarketMembers(q)| == 4;
  }

  lemma QuoteNames(q: Quote)
    ensures |QuoteMembers(q)| == 16
    ensures forall k | 0 <= k < 16 :: OnlyName(QuoteMembers(q), k)
    ensures forall k | 0 <= k < 4 ::
              && QuoteMembers(q)[k] == TradeMembers(q)[k] && QuoteMembers(q)[4 + k] == DayMembers(q)[k]
              && QuoteMembers(q)[8 + k] == YearMembers(q)[k] && QuoteMembers(q)[12 + k] == MarketMembers(q)[k]
  {
    var ms := QuoteMembers(q);
    TradeNames(q);
    DayNames(q);
    YearNames(q);
    MarketNames(q);
    FourFours(TradeMembers(q), DayMembers(q), YearMembers(q), MarketMembers(q));
    forall k | 0 <= k < 16
      ensures QuotePlace(ms[k].name) == k
    {
      QuoteAt(TradeMembers(q), DayMembers(q), YearMembers(q), MarketMembers(q), k);
    }
  }

  lemma QuoteAt(a: seq<Member>, b: seq<Member>, c: seq<Member>, d: seq<Member>, k: nat)
    requires |a| == |b| == |c| == |d| == 4 && k < 16
    ensures ((a + b) + (c + d))[k]
            == if k < 4 then a[k] else if k < 8 then b[k - 4] else if k < 12 then c[k - 8] else d[k - 12]
  {
  }

  lemma ItemNames(item: Item)
    ensures var ms := [Field("Link", item.link), Field("Title", item.title)];
            OnlyName(ms, 0) && OnlyName(ms, 1)
  {
    assert |Ascii("Link")| == 4 && |Ascii("Title")| == 5;
  }

  lemma ResultNames(s: Stock)
    ensures |ResultMembers(s)| == 5 && forall k | 0 <= k < 5 :: OnlyName(ResultMembers(s), k)
  {
    var ms := ResultMembers(s);
    assert |ms[0].name| == 4 && ms[0].name[1] == 'a' as int && |ms[1].name| == 6;
    assert |ms[2].name| == 5 && |ms[3].name| == 4 && ms[3].name[1] == 'e' as int && |ms[4].name| == 18;
  }

  // What stands under each name.

  lemma QuoteBack(q: Quote)
    ensures QuoteOf(Meant(Record([], QuoteMembers(q)))) == q
  {
    QuoteNames(q);
    EarlyBack(q);
    LateBack(q);
  }

  lemma EarlyBack(q: Quote)
    ensures var v := Meant(Record([], QuoteMembers(q)));
            && TextOf(Get(v, "ChangeType")) == q.changeType && TextOf(Get(v, "Change")) == q.change
            && TextOf(Get(v, "ChangeInPercent")) == q.changeInPercent
            && TextOf(Get(v, "LastTradePriceOnly")) == q.lastTradePriceOnly
            && TextOf(Get(v, "PreviousClose")) == q.previousClose && TextOf(Get(v, "DaysLow")) == q.daysLow
            && TextOf(Get(v, "DaysHigh")) == q.daysHigh && TextOf(Get(v, "Open")) == q.open
  {
    var ms := QuoteMembers(q);
    QuoteNames(q);
    TextBack([], ms, 0, "ChangeType", q.changeType);
    TextBack([], ms, 1, "Change", q.change);
    TextBack([], ms, 2, "ChangeInPercent", q.changeInPercent);
    TextBack([], ms, 3, "LastTradePriceOnly", q.lastTradePriceOnly);
    TextBack([], ms, 4, "PreviousClose", q.previousClose);
    TextBack([], ms, 5, "DaysLow", q.daysLow);
    TextBack([], ms, 6, "DaysHigh", q.daysHigh);
    TextBack([], ms, 7, "Open", q.open);
  }

  lemma LateBack(q: Quote)
    ensures var v := Meant(Record([], QuoteMembers(q)));
            && TextOf(Get(v, "YearLow")) == q.yearLow && TextOf(Get(v, "YearHigh")) == q.yearHigh
            && TextOf(Get(v, "Bid")) == q.bid && TextOf(Get(v, "Volume")) == q.volume
            && TextOf(Get(v, "Ask")) == q.ask && TextOf(Get(v, "AverageDailyVolume")) == q.averageDailyVolume
            && TextOf(Get(v, "OneYearTargetPrice")) == q.oneYearTargetPrice
            && TextOf(Get(v, "MarketCapitalization")) == q.marketCapitalization
  {
    var ms := QuoteMembers(q);
    QuoteNames(q);
    TextBack([], ms, 8, "YearLow", q.yearLow);
    TextBack([], ms, 9, "YearHigh", q.yearHigh);
    TextBack([], ms, 10, "Bid", q.bid);
    TextBack([], ms, 11, "Volume", q.volume);
    TextBack([], ms, 12, "Ask", q.ask);
    TextBack([], ms, 13, "AverageDailyVolume", q.averageDailyVolume);
    TextBack([], ms, 14, "OneYearTargetPrice", q.oneYearTargetPrice);
    TextBack([], ms, 15, "MarketCapitalization", q.marketCapitalization);
  }

  lemma ItemsBackAs(items: seq<Item>)
    ensures ItemsOf(Meant(List(ItemTrees(items)))) == items
  {
    var trees := ItemTrees(items);
    MeantItemsAt(trees);
    forall i | 0 <= i < |items|
      ensures ItemOf(Meant(trees[i])) == items[i]
    {
      var ms := [Field("Link", items[i].link), Field("Title", items[i].title)];
      ItemNames(items[i]);
      TextBack([], ms, 0, "Link", items[i].link);
      TextBack([], ms, 1, "Title", items[i].title);
    }
  }

  lemma OneBack(pad: Json.Text, name: string, value: Tree)
    ensures Get(Meant(Record(pad, [Member(Ascii(name), value)])), name) == Meant(value)
  {
    GetMeant(pad, [Member(Ascii(name), value)], 0, name);
  }

  /** The value meant has every field under its name, and every item in order. */
  lemma StockBack(s: Stock)
    ensures StockOf(Meant(Layout(s))) == s
  {
    var ms := ResultMembers(s);
    OneBack([], "result", Record([], ms));
    ResultNames(s);
    TextBack([], ms, 0, "Name", s.name);
    TextBack([], ms, 1, "Symbol", s.symbol);
    GetMeant([], ms, 2, "Quote");
    QuoteBack(s.quote);
    GetMeant([], ms, 3, "News");
    OneBack([0x20], "Item", List(ItemTrees(s.items)));
    ItemsBackAs(s.items);
    TextBack([], ms, 4, "StockChartImageURL", s.chart);
  }

  /** Different records of plain strings are written differently, and each is read back whole. */
  lemma Recovered(s: Stock, eol: Json.Text)
    requires PlainStock(s) && (eol == [0x0A] || eol == [0x0D, 0x0A])
    ensures ReadText(Render(Layout(s)) + eol).Got?
    ensures StockOf(ReadText(Render(Layout(s)) + eol).value) == s
  {
    ReadBackIff(s, eol);
    StockBack(s);
  }

  /** A string that is there, under a name. */
  ghost predicate Holds(v: Value, name: string, value: Missing) {
    v.Obj? && value.Given? && Get(v, name) == Str(value.s)
  }

  /** The response, the line end of `println` after it: one JSON text, in which a plain record has each of its
      strings under its own name. */
  method Respond(s: Stock, eol: Json.Text) returns (response: Json.Text)
    requires eol == [0x0A] || eol == [0x0D, 0x0A]
    ensures PlainStock(s) ==> ReadText(response).Got? && ReadText(response).rest == []
    ensures PlainStock(s) ==>
              var result := Get(ReadText(response).value, "result");
              && Holds(result, "Name", s.name) && Holds(result, "Symbol", s.symbol)
              && Holds(result, "StockChartImageURL", s.chart)
    ensures PlainStock(s) ==>
              var quote := Get(Get(ReadText(response).value, "result"), "Quote");
              && Holds(quote, "ChangeType", s.quote.changeType) && Holds(quote, "Change", s.quote.change)
              && Holds(quote, "ChangeInPercent", s.quote.changeInPercent)
              && Holds(quote, "LastTradePriceOnly", s.quote.lastTradePriceOnly)
              && Holds(quote, "PreviousClose", s.quote.previousClose)
              && Holds(quote, "DaysLow", s.quote.daysLow) && Holds(quote, "DaysHigh", s.quote.daysHigh)
              && Holds(quote, "Open", s.quote.open)
              && Holds(quote, "YearLow", s.quote.yearLow) && Holds(quote, "YearHigh", s.quote.yearHigh)
              && Holds(quote, "Bid", s.quote.bid) && Holds(quote, "Volume", s.quote.volume)
              && Holds(quote, "Ask", s.quote.ask)
              && Holds(quote, "AverageDailyVolume", s.quote.averageDailyVolume)
              && Holds(quote, "OneYearTargetPrice", s.quote.oneYearTargetPrice)
              && Holds(quote, "MarketCapitalization", s.quote.marketCapitalization)
    ensures PlainStock(s) ==>
              var items := Get(Get(Get(ReadText(response).value, "result"), "News"), "Item");
              && items.Arr? && |items.items| == |s.items|
              && forall i | 0 <= i < |s.items| ::
                   Holds(items.items[i], "Link", s.items[i].link) && Holds(items.items[i], "Title", s.items[i].title)
  {
    var json := DoGet(s);
    response := json + eol;
    if PlainStock(s) {
      ReadBackIff(s, eol);
      ResultHolds(s);
      QuoteHolds(s);
      ItemsHold(s);
    }
  }

  lemma ResultHolds(s: Stock)
    requires PlainStock(s)
    ensures var result := Get(Meant(Layout(s)), "result");
            && Holds(result, "Name", s.name) && Holds(result, "Symbol", s.symbol)
            && Holds(result, "StockChartImageURL", s.chart)
  {
    StockBack(s);
  }

  lemma QuoteHolds(s: Stock)
    requires PlainStock(s)
    ensures var quote := Get(Get(Meant(Layout(s)), "result"), "Quote");
            && Holds(quote, "ChangeType", s.quote.changeType) && Holds(quote, "Change", s.quote.change)
            && Holds(quote, "ChangeInPercent", s.quote.changeInPercent)
            && Holds(quote, "LastTradePriceOnly", s.quote.lastTradePriceOnly)
            && Holds(quote, "PreviousClose", s.quote.previousClose)
            && Holds(quote, "DaysLow", s.quote.daysLow) && Holds(quote, "DaysHigh", s.quote.daysHigh)
            && Holds(quote, "Open", s.quote.open)
            && Holds(quote, "YearLow", s.quote.yearLow) && Holds(quote, "YearHigh", s.quote.yearHigh)
            && Holds(quote, "Bid", s.quote.bid) && Holds(quote, "Volume", s.quote.volume)
            && Holds(quote, "Ask", s.quote.ask)
            && Holds(quote, "AverageDailyVolume", s.quote.averageDailyVolume)
            && Holds(quote, "OneYearTargetPrice", s.quote.oneYearTargetPrice)
            && Holds(quote, "MarketCapitalization", s.quote.marketCapitalization)
  {
    StockBack(s);
    OneBack([], "result", Record([], ResultMembers(s)));
    ResultNames(s);
    GetMeant([], ResultMembers(s), 2, "Quote");
  }

  lemma ItemsHold(s: Stock)
    requires PlainStock(s)
    ensures var items := Get(Get(Get(Meant(Layout(s)), "result"), "News"), "Item");
            && items.Arr? && |items.items| == |s.items|
            && forall i | 0 <= i < |s.items| ::
                 Holds(items.items[i], "Link", s.items[i].link) && Holds(items.items[i], "Title", s.items[i].title)
  {
    var items := Get(Get(Get(Meant(Layout(s)), "result"), "News"), "Item");
    OneBack([], "result", Record([], ResultMembers(s)));
    ResultNames(s);
    GetMeant([], ResultMembers(s), 3, "News");
    OneBack([0x20], "Item", List(ItemTrees(s.items)));
    ItemsBackAs(s.items);
    forall i | 0 <= i < |s.items|
      ensures Holds(items.items[i], "Link", s.items[i].link) && Holds(items.items[i], "Title", s.items[i].title)
    {
      assert ItemOf(items.items[i]) == s.items[i];
    }
  }

  lemma Injective(s: Stock, s': Stock)
    requires PlainStock(s) && PlainStock(s') && Render(Layout(s)) == Render(Layout(s'))
    ensures s == s'
  {
    Recovered(s, [0x0A]);
    Recovered(s', [0x0A]);
  }

  /** A missing string is written as the string "null" is: the two records cannot be told apart. */
  lemma MissingCollides(s: Stock)
    ensures Render(Layout(s.(chart := NullRef))) == Render(Layout(s.(chart := Given(Ascii("null")))))
  {
    var a, b := ResultMembers(s.(chart := NullRef)), ResultMembers(s.(chart := Given(Ascii("null"))));
    assert a[..4] == b[..4] && a == a[..4] + [a[4]] && b == b[..4] + [b[4]];
    RenderMembersSnoc(a[..4], a[4]);
    RenderMembersSnoc(b[..4], b[4]);
    ResultText(s.(chart := NullRef));
    ResultText(s.(chart := Given(Ascii("null"))));
  }
}
