/** Exactly when no two records are written the same way. */
module StockDetermined {
  import opened Json
  import opened JsonLayout
  import opened StockJson
  import opened StockReader
  import opened StockText
  import opened StockCount

  /** No string of the record, as it is shown, has a quotation mark. */
  predicate QuoteFree(s: Stock) {
    EveryOfStock(s, NoQuote)
  }

  /** The string is there, and is not the word that stands for a missing one. */
  predicate Certain(s: Missing) {
    s.Given? && s.s != Ascii("null")
  }

  function TextOfStock(s: Stock): Json.Text {
    Render(Layout(s))
  }

  // What is read after a number of quotation marks.

  function Rest(t: Json.Text): Json.Text {
    if t == [] then [] else if t[0] == QUOTE then t[1..] else Rest(t[1..])
  }

  function After(t: Json.Text, n: nat): Json.Text
    decreases n
  {
    if n == 0 then t else After(Rest(t), n - 1)
  }

  lemma {:induction false} RestConcat(a: Json.Text, b: Json.Text)
    ensures Quotes(a) == 0 ==> Rest(a + b) == Rest(b)
    ensures Quotes(a) > 0 ==> Rest(a + b) == Rest(a) + b && Quotes(Rest(a)) == Quotes(a) - 1
    decreases |a|
  {
    if a == [] {
      assert a + b == b;
    } else {
      assert (a + b)[1..] == a[1..] + b;
      RestConcat(a[1..], b);
    }
  }

  lemma {:induction false} AfterConcat(a: Json.Text, b: Json.Text, k: nat)
    requires k > 0
    ensures After(a + b, Quotes(a) + k) == After(b, k)
    decreases Quotes(a)
  {
    RestConcat(a, b);
    if Quotes(a) > 0 {
      AfterConcat(Rest(a), b, k);
    }
  }

  /** Pieces with a quotation mark after each. */
  function Joined(pieces: seq<Json.Text>, end: Json.Text): Json.Text {
    if pieces == [] then end else pieces[0] + ([QUOTE] + Joined(pieces[1..], end))
  }

  lemma {:induction false} AfterJoined(pieces: seq<Json.Text>, end: Json.Text, n: nat)
    requires n <= |pieces| && forall i | 0 <= i < |pieces| :: QUOTE !in pieces[i]
    ensures After(Joined(pieces, end), n) == Joined(pieces[n..], end)
    decreases n
  {
    if n > 0 {
      var more := Joined(pieces[1..], end);
      QuotesZero(pieces[0]);
      RestConcat(pieces[0], [QUOTE] + more);
      assert ([QUOTE] + more)[1..] == more;
      AfterJoined(pieces[1..], end, n - 1);
      assert pieces[1..][n - 1..] == pieces[n..];
    }
  }

  // No text of a record with one item is that of a record with none.

  function NewsPieces(): (r: seq<Json.Text>)
    ensures |r| == 3
  {
    [[], Ascii("News"), [COLON, LBRACE, 0x20]]
  }

  /** From the name of the item list on. */
  function ItemPieces(item: Item): (r: seq<Json.Text>)
    ensures |r| == 9
  {
    [Ascii("Item"), [COLON, LBRACKET, LBRACE], Ascii("Link"), [COLON], Shown(item.link), [COMMA],
     Ascii("Title"), [COLON], Shown(item.title)]
  }

  lemma JoinedCons(x: Json.Text, pieces: seq<Json.Text>, end: Json.Text)
    ensures Joined([x] + pieces, end) == x + ([QUOTE] + Joined(pieces, end))
  {
    assert ([x] + pieces)[1..] == pieces;
  }

  lemma JoinedThree(x: Json.Text, y: Json.Text, z: Json.Text, end: Json.Text)
    ensures Joined([x, y, z], end) == x + ([QUOTE] + (y + ([QUOTE] + (z + ([QUOTE] + end)))))
  {
    assert [x, y, z] == [x] + [y, z] && [y, z] == [y] + [z] && [z] == [z] + [];
    JoinedCons(x, [y, z], end);
    JoinedCons(y, [z], end);
    JoinedCons(z, [], end);
  }

  lemma {:induction false} JoinedConcat(a: seq<Json.Text>, b: seq<Json.Text>, end: Json.Text)
    ensures Joined(a + b, end) == Joined(a, Joined(b, end))
    decreases |a|
  {
    if a == [] {
      assert a + b == b;
    } else {
      assert (a + b)[1..] == a[1..] + b;
      JoinedConcat(a[1..], b, end);
    }
  }

  /** The news from the name of the item list on. */
  function ListText(items: seq<Item>, w: Json.Text): Json.Text {
    Ascii("Item") + ([QUOTE] + ([COLON, LBRACKET] + (RenderItems(ItemTrees(items)) + ([RBRACKET, RBRACE] + w))))
  }

  lemma NewsSpelled(items: seq<Item>, w: Json.Text)
    ensures RenderMember(NewsMember(items)) + w == Joined(NewsPieces(), ListText(items, w))
  {
    var m := Member(Ascii("Item"), List(ItemTrees(items)));
    OneMemberRecord("News", [0x20], m);
    JoinedThree([], Ascii("News"), [COLON, LBRACE, 0x20], ListText(items, w));
    NewsRegrouped(Ascii("News"), Ascii("Item"), RenderItems(ItemTrees(items)), w);
  }

  lemma NewsRegrouped(news: Json.Text, item: Json.Text, items: Json.Text, w: Json.Text)
    ensures Quoted(news) + [COLON] + [LBRACE] + [0x20] + (Quoted(item) + [COLON] + ([LBRACKET] + items + [RBRACKET]))
            + [RBRACE] + w
            == [] + ([QUOTE] + (news + ([QUOTE] + ([COLON, LBRACE, 0x20] + ([QUOTE]
               + (item + ([QUOTE] + ([COLON, LBRACKET] + (items + ([RBRACKET, RBRACE] + w))))))))))
  {
  }

  lemma OneSpelled(item: Item, w: Json.Text)
    ensures ListText([item], w) == Joined(ItemPieces(item), [RBRACE, RBRACKET, RBRACE] + w)
  {
    var link, title := Field("Link", item.link), Field("Title", item.title);
    var end := [RBRACE, RBRACKET, RBRACE] + w;
    ItemLayout(link, title);
    assert ItemTrees([item]) == [ItemTree(item)];
    var a, b, c := [Ascii("Item"), [COLON, LBRACKET, LBRACE], Ascii("Link")], [[COLON], Shown(item.link), [COMMA]],
                   [Ascii("Title"), [COLON], Shown(item.title)];
    assert ItemPieces(item) == a + (b + c);
    JoinedConcat(a, b + c, end);
    JoinedConcat(b, c, end);
    JoinedThree(Ascii("Title"), [COLON], Shown(item.title), end);
    JoinedThree([COLON], Shown(item.link), [COMMA], Joined(c, end));
    JoinedThree(Ascii("Item"), [COLON, LBRACKET, LBRACE], Ascii("Link"), Joined(b, Joined(c, end)));
    OneRegrouped(Ascii("Item"), Ascii("Link"), Shown(item.link), Ascii("Title"), Shown(item.title), w);
  }

  lemma OneRegrouped(item: Json.Text, link: Json.Text, l: Json.Text, title: Json.Text, t: Json.Text, w: Json.Text)
    ensures item + ([QUOTE] + ([COLON, LBRACKET] + ([LBRACE] + (Quoted(link) + [COLON] + Quoted(l)) + [COMMA]
              + (Quoted(title) + [COLON] + Quoted(t)) + [RBRACE] + ([RBRACKET, RBRACE] + w))))
            == item + ([QUOTE] + ([COLON, LBRACKET, LBRACE] + ([QUOTE] + (link + ([QUOTE]
               + ([COLON] + ([QUOTE] + (l + ([QUOTE] + ([COMMA] + ([QUOTE]
               + (title + ([QUOTE] + ([COLON] + ([QUOTE] + (t + ([QUOTE]
               + ([RBRACE, RBRACKET, RBRACE] + w))))))))))))))))))
  {
  }

  /** What an empty list of items goes on with. */
  predicate GoesOnEmpty(t: Json.Text) {
    |t| >= 3 && t[0] == COLON && t[2] == RBRACKET
  }

  /** A piece that is the list's name is followed by something else than an empty list. */
  lemma NotEmptyNext(item: Item, w: Json.Text, n: nat)
    requires n <= 8 && ItemPieces(item)[n] == Ascii("Item")
    ensures !GoesOnEmpty(Joined(ItemPieces(item)[n + 1..], [RBRACE, RBRACKET, RBRACE] + w))
  {
    var pieces, end := ItemPieces(item), [RBRACE, RBRACKET, RBRACE] + w;
    assert Ascii("Item")[0] == 0x49 && Ascii("Link")[0] == 0x4C && Ascii("Title")[0] == 0x54;
    assert n == 0 || n == 4 || n == 8;
    var more := pieces[n + 1..];
    if n == 8 {
      assert Joined(more, end) == end;
    } else {
      assert more[0] == pieces[n + 1];
      assert Joined(more, end) == more[0] + ([QUOTE] + Joined(more[1..], end));
    }
  }

  lemma PiecesQuoteFree(item: Item)
    requires NoQuote(item.link) && NoQuote(item.title)
    ensures forall i | 0 <= i < 9 :: QUOTE !in ItemPieces(item)[i]
  {
    NamesClean("Item");
    NamesClean("Link");
    NamesClean("Title");
  }

  /** Nowhere in the news with one item does an empty list of items follow. */
  lemma NoEmptyList(item: Item, w: Json.Text, n: nat, w': Json.Text)
    requires n <= 8 && NoQuote(item.link) && NoQuote(item.title)
    ensures After(ListText([item], w), n) != ListText([], w')
  {
    var pieces, end := ItemPieces(item), [RBRACE, RBRACKET, RBRACE] + w;
    PiecesQuoteFree(item);
    OneSpelled(item, w);
    AfterJoined(pieces, end, n);
    var more := Joined(pieces[n + 1..], end);
    assert pieces[n..] == [pieces[n]] + pieces[n + 1..];
    JoinedCons(pieces[n], pieces[n + 1..], end);
    NotNext(pieces[n], more, w');
    if pieces[n] == Ascii("Item") {
      NotEmptyNext(item, w, n);
    }
  }

  lemma NotNext(piece: Json.Text, more: Json.Text, w': Json.Text)
    requires QUOTE !in piece
    ensures piece + ([QUOTE] + more) == ListText([], w') ==> piece == Ascii("Item") && GoesOnEmpty(more)
  {
    var empty := [COLON, LBRACKET] + (RenderItems(ItemTrees([])) + ([RBRACKET, RBRACE] + w'));
    NamesClean("Item");
    if piece + ([QUOTE] + more) == Ascii("Item") + ([QUOTE] + empty) {
      QuoteEnds(piece, more, Ascii("Item"), empty);
    }
  }

  lemma InnerParts(s: Stock)
    ensures Inner(Layout(s)) == InnerMembers(Early(s)) + Inner(NewsMember(s.items).value) + Quotes(Shown(s.chart))
  {
    var news, chart := NewsMember(s.items), Field("StockChartImageURL", s.chart);
    assert ResultMembers(s) == Early(s) + ([news] + [chart]);
    FrameConcat(Early(s), [news] + [chart]);
    FrameConcat([news], [chart]);
    FrameOne(news);
    FrameOne(chart);
    FrameOne(Member(Ascii("result"), Record([], ResultMembers(s))));
  }

  /** Texts that are the same have as many quotation marks: what one record has in its strings, the
      other has around more items. */
  lemma SameCounts(s: Stock, s': Stock)
    requires TextOfStock(s) == TextOfStock(s')
    ensures 8 * |s.items| + Inner(Layout(s)) == 8 * |s'.items| + Inner(Layout(s'))
  {
    Counted(s);
    Counted(s');
    EarlyFrame(s, s');
    InnerParts(s);
    InnerParts(s');
  }

  lemma QuoteFreeInner(s: Stock)
    ensures QuoteFree(s) <==> Inner(Layout(s)) == 0
  {
    InnerZero(Layout(s));
    LayoutLaid(s, NoQuote);
  }

  lemma SingleVersusNone(s: Stock, s': Stock)
    requires QuoteFree(s) && |s.items| == 1 && |s'.items| == 0
    ensures TextOfStock(s) != TextOfStock(s')
  {
    if TextOfStock(s) == TextOfStock(s') {
      var n := Quotes(Front(s')) - Quotes(Front(s));
      FrontsApart(s, s');
      ListAfter(s, n);
      ListAfter(s', 0);
      Items(s, s');
      NoEmptyList(s.items[0], Back(s), n, Back(s'));
    }
  }

  lemma Items(s: Stock, s': Stock)
    requires |s.items| == 1 && |s'.items| == 0
    ensures s.items == [s.items[0]] && s'.items == []
  {
  }

  lemma ListAfter(s: Stock, n: nat)
    ensures After(TextOfStock(s), Quotes(Front(s)) + 3 + n) == After(ListText(s.items, Back(s)), n)
  {
    AfterNews(s, 3 + n);
    PiecesAfter(s.items, Back(s), n);
  }

  lemma FrontsApart(s: Stock, s': Stock)
    requires QuoteFree(s) && |s.items| == 1 && |s'.items| == 0 && TextOfStock(s) == TextOfStock(s')
    ensures 0 <= Quotes(Front(s')) - Quotes(Front(s)) <= 8
  {
    QuoteFreeInner(s);
    InnerParts(s);
    Counted(s);
    Counted(s');
    EarlyFrame(s, s');
  }

  lemma AfterNews(s: Stock, k: nat)
    requires k > 0
    ensures After(TextOfStock(s), Quotes(Front(s)) + k) == After(RenderMember(NewsMember(s.items)) + Back(s), k)
  {
    InParts(s);
    AfterConcat(Front(s), RenderMember(NewsMember(s.items)) + Back(s), k);
  }

  lemma PiecesAfter(items: seq<Item>, w: Json.Text, n: nat)
    ensures After(RenderMember(NewsMember(items)) + w, 3 + n) == After(ListText(items, w), n)
  {
    NamesClean("News");
    NewsSpelled(items, w);
    AfterJoined(NewsPieces(), ListText(items, w), 3);
    AfterAfter(RenderMember(NewsMember(items)) + w, 3, n);
  }

  lemma {:induction false} AfterAfter(t: Json.Text, m: nat, n: nat)
    ensures After(t, m + n) == After(After(t, m), n)
    decreases m
  {
    if m > 0 {
      AfterAfter(Rest(t), m - 1, n);
    }
  }

  // When two records are written the same way.

  lemma ShownAlike(s: Stock, s': Stock)
    ensures Mapped(Layout(s), Filled) == Mapped(Layout(s'), Filled)
            <==> MappedStock(s, Filled) == MappedStock(s', Filled)
  {
    LayoutMapped(s, Filled);
    LayoutMapped(s', Filled);
    if Layout(MappedStock(s, Filled)) == Layout(MappedStock(s', Filled)) {
      LayoutInjective(MappedStock(s, Filled), MappedStock(s', Filled));
    }
  }

  /** A missing string is written as the string "null" is. */
  lemma FilledCollide(s: Stock, s': Stock)
    requires MappedStock(s, Filled) == MappedStock(s', Filled)
    ensures TextOfStock(s) == TextOfStock(s')
  {
    ShownAlike(s, s');
    RenderFilled(Layout(s));
    RenderFilled(Layout(s'));
  }

  /** Records without quotation marks are written the same way exactly when they are the same once
      every missing string is taken for the string "null". */
  lemma SameTextIff(s: Stock, s': Stock)
    requires QuoteFree(s) && QuoteFree(s')
    ensures TextOfStock(s) == TextOfStock(s') <==> MappedStock(s, Filled) == MappedStock(s', Filled)
  {
    if MappedStock(s, Filled) == MappedStock(s', Filled) {
      FilledCollide(s, s');
    } else if TextOfStock(s) == TextOfStock(s') {
      SameCounts(s, s');
      QuoteFreeInner(s);
      QuoteFreeInner(s');
      SameItemsAgree(s, s');
    }
  }

  lemma SameItemsAgree(s: Stock, s': Stock)
    requires QuoteFree(s) && QuoteFree(s') && |s.items| == |s'.items| && TextOfStock(s) == TextOfStock(s')
    ensures MappedStock(s, Filled) == MappedStock(s', Filled)
  {
    LayoutsAlike(s, s');
    LayoutLaid(s, NoQuote);
    LayoutLaid(s', NoQuote);
    TextsAgree(Layout(s), Layout(s'), [], []);
    ShownAlike(s, s');
  }

  // Records whose text no other record has.

  /** The string "null" taken for a missing one. */
  function Emptied(s: Missing): Missing {
    if s == Given(Ascii("null")) then NullRef else s
  }

  predicate CertainStock(s: Stock) {
    EveryOfStock(s, Certain)
  }

  /** `Filled` and `Emptied` both leave a record alone only if it is certain. */
  lemma CertainIff(s: Stock)
    ensures CertainStock(s) <==> MappedStock(s, Filled) == s && MappedStock(s, Emptied) == s
  {
    CertainItems(s.items);
    assert forall x: Missing :: Certain(x) <==> Filled(x) == x && Emptied(x) == x;
  }

  lemma CertainItems(items: seq<Item>)
    ensures EveryOfItems(items, Certain) <==> MappedList(items, Filled) == items && MappedList(items, Emptied) == items
  {
    assert forall x: Missing :: Certain(x) <==> Filled(x) == x && Emptied(x) == x;
    if MappedList(items, Filled) == items && MappedList(items, Emptied) == items {
      forall i | 0 <= i < |items|
        ensures Certain(items[i].title) && Certain(items[i].link)
      {
        assert MappedList(items, Filled)[i] == items[i] && MappedList(items, Emptied)[i] == items[i];
      }
    }
  }

  lemma MappedTwice(s: Stock, f: Missing -> Missing)
    requires forall x: Missing :: Filled(f(x)) == Filled(x)
    ensures MappedStock(MappedStock(s, f), Filled) == MappedStock(s, Filled)
  {
    assert MappedQuote(MappedQuote(s.quote, f), Filled) == MappedQuote(s.quote, Filled);
    assert MappedList(MappedList(s.items, f), Filled) == MappedList(s.items, Filled);
  }

  /** Taking "null" for missing, or missing for "null", does not show. */
  lemma MappedCollide(s: Stock)
    ensures TextOfStock(MappedStock(s, Filled)) == TextOfStock(s)
    ensures TextOfStock(MappedStock(s, Emptied)) == TextOfStock(s)
  {
    MappedTwice(s, Filled);
    MappedTwice(s, Emptied);
    FilledCollide(MappedStock(s, Filled), s);
    FilledCollide(MappedStock(s, Emptied), s);
  }

  lemma CertainAlone(s: Stock, s': Stock)
    requires CertainStock(s) && MappedStock(s, Filled) == MappedStock(s', Filled)
    ensures s' == s
  {
    CertainIff(s);
    assert forall x: Missing, y: Missing :: Certain(x) && Filled(y) == x ==> y == x;
    forall i | 0 <= i < |s'.items|
      ensures s'.items[i] == s.items[i]
    {
      assert MappedList(s'.items, Filled)[i] == s.items[i];
      assert Certain(s.items[i].title) && Certain(s.items[i].link);
    }
  }

  /** Among records without quotation marks, a text is one record's alone exactly when no string of
      the record is missing or "null". */
  lemma AloneAmongQuoteFreeIff(s: Stock)
    requires QuoteFree(s)
    ensures (forall s' | QuoteFree(s') && TextOfStock(s') == TextOfStock(s) :: s' == s) <==> CertainStock(s)
  {
    if CertainStock(s) {
      forall s' | QuoteFree(s') && TextOfStock(s') == TextOfStock(s)
        ensures s' == s
      {
        SameTextIff(s, s');
        CertainAlone(s, s');
      }
    } else {
      CertainIff(s);
      MappedCollide(s);
      MappedQuoteFree(s);
    }
  }

  lemma MappedQuoteFree(s: Stock)
    requires QuoteFree(s)
    ensures QuoteFree(MappedStock(s, Filled)) && QuoteFree(MappedStock(s, Emptied))
  {
    assert forall x: Missing :: Shown(Filled(x)) == Shown(x) && Shown(Emptied(x)) == Shown(x);
    EveryMapped(s, Filled, NoQuote);
    EveryMapped(s, Emptied, NoQuote);
  }

  lemma EveryMapped(s: Stock, f: Missing -> Missing, p: Missing -> bool)
    requires EveryOfStock(s, p) && forall x: Missing :: p(x) ==> p(f(x))
    ensures EveryOfStock(MappedStock(s, f), p)
  {
    assert EveryOfQuote(MappedQuote(s.quote, f), p);
    assert EveryOfItems(MappedList(s.items, f), p);
  }

  /** Two items can be written as one, whose title has the rest in it. */
  function Merged(a: Item, b: Item): Item {
    var link := Quoted(Ascii("Link")) + [COLON] + Quoted(Shown(b.link));
    var title := Quoted(Ascii("Title")) + [COLON] + [QUOTE] + Shown(b.title);
    Item(Given(Shown(a.title) + ([QUOTE, RBRACE, COMMA, LBRACE] + link + [COMMA] + title)), a.link)
  }

  function MergedStock(s: Stock): Stock
    requires |s.items| >= 2
  {
    s.(items := [Merged(s.items[0], s.items[1])] + s.items[2..])
  }

  lemma ItemsCollide(s: Stock)
    requires |s.items| >= 2
    ensures TextOfStock(MergedStock(s)) == TextOfStock(s) && MergedStock(s) != s
  {
    var a, b, more := s.items[0], s.items[1], s.items[2..];
    assert s.items == [a] + ([b] + more);
    MergedText(a, b);
    ListsCollide(ItemTree(a), ItemTree(b), ItemTree(Merged(a, b)), ItemTrees(more));
    TreesOf(a, b, more);
    InParts(s);
    InParts(MergedStock(s));
    SameNews(s.items, MergedStock(s).items);
  }

  lemma TreesOf(a: Item, b: Item, more: seq<Item>)
    ensures ItemTrees([a] + ([b] + more)) == [ItemTree(a)] + ([ItemTree(b)] + ItemTrees(more))
    ensures ItemTrees([Merged(a, b)] + more) == [ItemTree(Merged(a, b))] + ItemTrees(more)
  {
  }

  lemma SameNews(items: seq<Item>, items': seq<Item>)
    requires RenderItems(ItemTrees(items)) == RenderItems(ItemTrees(items'))
    ensures RenderMember(NewsMember(items)) == RenderMember(NewsMember(items'))
  {
    OneMemberRecord("News", [0x20], Member(Ascii("Item"), List(ItemTrees(items))));
    OneMemberRecord("News", [0x20], Member(Ascii("Item"), List(ItemTrees(items'))));
  }

  lemma MergedText(a: Item, b: Item)
    ensures Render(ItemTree(Merged(a, b))) == Render(ItemTree(a)) + [COMMA] + Render(ItemTree(b))
  {
    ItemLayout(Field("Link", a.link), Field("Title", a.title));
    ItemLayout(Field("Link", b.link), Field("Title", b.title));
    ItemLayout(Field("Link", a.link), Field("Title", Merged(a, b).title));
    MergedRegrouped(RenderMember(Field("Link", a.link)), Ascii("Title"), Shown(a.title),
                    Quoted(Ascii("Link")) + [COLON] + Quoted(Shown(b.link)), Shown(b.title));
  }

  lemma MergedRegrouped(link: Json.Text, title: Json.Text, t: Json.Text, link': Json.Text, t': Json.Text)
    ensures var rest := [QUOTE, RBRACE, COMMA, LBRACE] + link' + [COMMA] + (Quoted(title) + [COLON] + [QUOTE] + t');
            [LBRACE] + link + [COMMA] + (Quoted(title) + [COLON] + Quoted(t + rest)) + [RBRACE]
            == ([LBRACE] + link + [COMMA] + (Quoted(title) + [COLON] + Quoted(t)) + [RBRACE]) + [COMMA]
               + ([LBRACE] + link' + [COMMA] + (Quoted(title) + [COLON] + Quoted(t')) + [RBRACE])
  {
  }

  lemma ListsCollide(a: Tree, b: Tree, c: Tree, more: seq<Tree>)
    requires Render(c) == Render(a) + [COMMA] + Render(b)
    ensures RenderItems([c] + more) == RenderItems([a] + ([b] + more))
  {
    assert ([c] + more)[1..] == more && ([b] + more)[1..] == more && ([a] + ([b] + more))[1..] == [b] + more;
  }

  /** A record without quotation marks has a text that no other record at all has, exactly when no
      string of it is missing or "null" and it has no more than one item. */
  lemma AloneIff(s: Stock)
    requires QuoteFree(s)
    ensures (forall s' | TextOfStock(s') == TextOfStock(s) :: s' == s) <==> CertainStock(s) && |s.items| <= 1
  {
    if !CertainStock(s) {
      CertainIff(s);
      MappedCollide(s);
    } else if |s.items| >= 2 {
      ItemsCollide(s);
    } else {
      forall s' | TextOfStock(s') == TextOfStock(s)
        ensures s' == s
      {
        QuoteFreeInner(s);
        SameCounts(s, s');
        if |s.items| == 1 && |s'.items| == 0 {
          SingleVersusNone(s, s');
        }
        QuoteFreeInner(s');
        SameTextIff(s, s');
        CertainAlone(s, s');
      }
    }
  }

  /** Where quotation marks are not kept out, whole fields can move: these two records are written
      the same way, whatever the three texts are. */
  lemma FieldsCollide(s: Stock, a: Json.Text, b: Json.Text, c: Json.Text)
    ensures var between := [QUOTE, COMMA] + Quoted(Ascii("Symbol")) + [COLON, QUOTE];
            TextOfStock(s.(name := Given(a), symbol := Given(b + between + c)))
            == TextOfStock(s.(name := Given(a + between + b), symbol := Given(c)))
  {
    var between := [QUOTE, COMMA] + Quoted(Ascii("Symbol")) + [COLON, QUOTE];
    var s1 := s.(name := Given(a), symbol := Given(b + between + c));
    var s2 := s.(name := Given(a + between + b), symbol := Given(c));
    NameSymbolText(s1);
    NameSymbolText(s2);
    BetweenRegrouped(Quoted(Ascii("Name")) + [COLON], a, b, c, Ascii("Symbol"));
    InParts(s1);
    InParts(s2);
  }

  lemma NameSymbolText(s: Stock)
    ensures RenderMembers(Early(s))
            == (Quoted(Ascii("Name")) + [COLON] + Quoted(Shown(s.name))) + [COMMA]
               + (Quoted(Ascii("Symbol")) + [COLON] + Quoted(Shown(s.symbol)))
               + ([COMMA] + RenderMember(QuoteMember(s.quote)))
  {
    var name, symbol, quote := Field("Name", s.name), Field("Symbol", s.symbol), QuoteMember(s.quote);
    assert Early(s)[1..] == [symbol, quote] && [symbol, quote][1..] == [quote];
    assert RenderMembers([symbol, quote]) == RenderMember(symbol) + [COMMA] + RenderMember(quote);
    assert Early(s)[0] == name;
    assert RenderMembers(Early(s)) == RenderMember(name) + [COMMA] + RenderMembers([symbol, quote]);
    assert RenderMember(name) == Quoted(Ascii("Name")) + [COLON] + Quoted(Shown(s.name));
    assert RenderMember(symbol) == Quoted(Ascii("Symbol")) + [COLON] + Quoted(Shown(s.symbol));
    ThreeRegrouped(RenderMember(name) + [COMMA], RenderMember(symbol), RenderMember(quote));
  }

  lemma ThreeRegrouped(a: Json.Text, b: Json.Text, c: Json.Text)
    ensures a + (b + [COMMA] + c) == a + b + ([COMMA] + c)
  {
  }

  lemma BetweenRegrouped(name: Json.Text, a: Json.Text, b: Json.Text, c: Json.Text, symbol: Json.Text)
    ensures var between := [QUOTE, COMMA] + Quoted(symbol) + [COLON, QUOTE];
            (name + Quoted(a)) + [COMMA] + (Quoted(symbol) + [COLON] + Quoted(b + between + c))
            == (name + Quoted(a + between + b)) + [COMMA] + (Quoted(symbol) + [COLON] + Quoted(c))
  {
  }
}
