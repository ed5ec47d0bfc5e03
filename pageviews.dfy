/** `WikipediaCollector.get_english_pageviews`: the Wikimedia per-article
    daily pageviews of an English Wikipedia article over one year, summed. */
module Pageviews {
  import opened PyJson
  import opened PyStr

  /** The year whose data is incomplete: its range ends at a fixed day. */
  const PartialYear := 2025

  /** The variable part of the request path
      `.../per-article/en.wikipedia/all-access/all-agents/{article}/daily/{start}/{end}`. */
  datatype Query = Query(article: string, start: string, end: string)

  /** Lines 130-137: the first and last day of the requested range. */
  function DateRange(year: int): (range: (string, string))
  {
    if year == PartialYear then ("20250101", "20250109")
    else (IntToDecimal(year) + "0101", IntToDecimal(year) + "1231")
  }

  /** Every year other than 2025 asks for its own January 1 to December 31,
      so two different years never share a range. */
  lemma DateRangeOfYear(year: int, other: int)
    requires year != PartialYear && other != PartialYear && year != other
    ensures DateRange(year).0 != DateRange(other).0
    ensures DateRange(year).1 != DateRange(other).1
    ensures |DateRange(year).0| >= 5 && DateRange(year).0[|DateRange(year).0| - 4..] == "0101"
    ensures |DateRange(year).1| >= 5 && DateRange(year).1[|DateRange(year).1| - 4..] == "1231"
  {
    var y, o := IntToDecimal(year), IntToDecimal(other);
    if y + "0101" == o + "0101" || y + "1231" == o + "1231" {
      var s := if y + "0101" == o + "0101" then "0101" else "1231";
      assert |y| == |o|;
      assert y == (y + s)[..|y|] == (o + s)[..|o|] == o;
      IntToDecimalInjective(year, other);
      assert false;
    }
  }

  /** `english_title.replace(' ', '_')`. */
  function TitleToken(title: string): (token: string)
  {
    Replace(title, ' ', '_')
  }

  /** The path token has no space, keeps every other character in place, and
      gives the title back when the title had no underscore. */
  lemma TitleTokenProperties(title: string)
    ensures |TitleToken(title)| == |title|
    ensures ' ' !in TitleToken(title)
    ensures forall i :: 0 <= i < |title| && title[i] != ' ' ==> TitleToken(title)[i] == title[i]
    ensures '_' !in title ==> Replace(TitleToken(title), '_', ' ') == title
  {
    ReplaceRoundTrip(title, ' ', '_');
  }

  /** `item.get('views', 0)` as a summand of `sum`: an int, or a bool counting
      as 0 or 1; anything else (or an item that is not a dict) raises. */
  function ViewsOf(item: Json): Try<int>
  {
    var views :- Get(item, "views", JInt(0));
    match views
    case JInt(n) => Ok(n)
    case JBool(b) => Ok(if b then 1 else 0)
    case _ => Raised
  }

  /** `sum(item.get('views', 0) for item in items)`. */
  function SumViews(items: seq<Json>): Try<int>
  {
    if items == [] then Ok(0)
    else
      var first :- ViewsOf(items[0]);
      var rest :- SumViews(items[1..]);
      Ok(first + rest)
  }

  /** Summing is additive over a split of the item list: the total of a
      concatenation is the sum of the totals, and it raises when either part
      does. */
  lemma {:induction false} SumViewsAppend(xs: seq<Json>, ys: seq<Json>)
    ensures SumViews(xs + ys) ==
              if SumViews(xs).Ok? && SumViews(ys).Ok? then Ok(SumViews(xs).value + SumViews(ys).value)
              else Raised
  {
    if xs != [] {
      assert (xs + ys)[0] == xs[0];
      assert (xs + ys)[1..] == xs[1..] + ys;
      SumViewsAppend(xs[1..], ys);
    } else {
      assert xs + ys == ys;
    }
  }

  /** An item without `views` counts as 0. */
  lemma MissingViewsCountZero(item: seq<(string, Json)>)
    requires Lookup(item, "views").None?
    ensures ViewsOf(JObj(item)) == Ok(0)
  {
  }

  /** When every item is a dict whose `views` is a non-negative int (or
      missing), the total is non-negative. */
  lemma {:induction false} SumViewsNonNegative(items: seq<Json>)
    requires forall i :: 0 <= i < |items| ==> ViewsOf(items[i]).Ok? && ViewsOf(items[i]).value >= 0
    ensures SumViews(items).Ok? && SumViews(items).value >= 0
  {
    if items != [] {
      SumViewsNonNegative(items[1..]);
    }
  }

  /** The total of a decoded pageviews answer: `data.get('items', [])` must be
      a list to be summed; iterating anything else either yields nothing or
      raises, and both give 0, as does a sum that raises. */
  function TotalViews(data: Json): int
  {
    match Get(data, "items", JArr([]))
    case Ok(JArr(items)) =>
      (match SumViews(items) case Ok(n) => n case Raised => 0)
    case _ => 0
  }

  /** `get_english_pageviews` as written: the title is turned into a path
      token at line 140, before the `try`, so a title that is not a string
      raises out of the function; inside the `try` every failure gives 0. */
  function PageviewsAsWritten(title: Json, year: int, api: Query -> Fetch): Try<int>
  {
    if !title.JStr? then Raised
    else
      var range := DateRange(year);
      match api(Query(TitleToken(title.s), range.0, range.1))
      case Failed => Ok(0)
      case Body(data) => Ok(TotalViews(data))
  }

  /** `get_english_pageviews` with its evident intent of never failing: a
      title that cannot become a path token gives 0 like any other error. */
  function EnglishPageviews(title: Json, year: int, api: Query -> Fetch): int
  {
    if !title.JStr? then 0
    else
      var range := DateRange(year);
      match api(Query(TitleToken(title.s), range.0, range.1))
      case Failed => 0
      case Body(data) => TotalViews(data)
  }

  /** The corrected function agrees with the code as written wherever the
      code returns, and it always returns. */
  lemma PageviewsCorrection(title: Json, year: int, api: Query -> Fetch)
    ensures PageviewsAsWritten(title, year, api).Ok? <==> title.JStr?
    ensures PageviewsAsWritten(title, year, api).Ok? ==>
              PageviewsAsWritten(title, year, api).value == EnglishPageviews(title, year, api)
    ensures !title.JStr? ==> EnglishPageviews(title, year, api) == 0
  {
  }

  /** A Wikidata site link whose title is the number 1 (truthy, so the
      article is not skipped) makes line 140 raise AttributeError. */
  lemma NonStringTitleRaises(api: Query -> Fetch)
    ensures Truthy(JInt(1))
    ensures PageviewsAsWritten(JInt(1), PartialYear, api) == Raised
  {
  }

  /** A failed request (404 or any other error) yields 0. A dict answer
      yields the sum of the views of its `items` list, or 0 when summing
      raises; `items` that are missing or not a list, and an answer that is
      not a dict, yield 0. */
  lemma PageviewsOfAnswer(title: string, year: int, api: Query -> Fetch)
    ensures var range := DateRange(year);
            var q := Query(TitleToken(title), range.0, range.1);
            && (api(q) == Failed ==> EnglishPageviews(JStr(title), year, api) == 0)
            && (api(q).Body? && api(q).data.JObj? ==>
                  EnglishPageviews(JStr(title), year, api) ==
                    match Lookup(api(q).data.members, "items")
                    case Some(JArr(items)) =>
                      (match SumViews(items) case Ok(n) => n case Raised => 0)
                    case _ => 0)
            && (api(q).Body? && !api(q).data.JObj? ==> EnglishPageviews(JStr(title), year, api) == 0)
  {
  }

  /** Items `[{date: 20250101, views: 10}, {date: 20250102, views: 0}]` sum to
      10. */
  lemma TwoDaysOfViews()
    ensures SumViews([JObj([("date", JStr("20250101")), ("views", JInt(10))]),
                      JObj([("date", JStr("20250102")), ("views", JInt(0))])]) == Ok(10)
  {
    var day1 := [("date", JStr("20250101")), ("views", JInt(10))];
    var day2 := [("date", JStr("20250102")), ("views", JInt(0))];
    var items := [JObj(day1), JObj(day2)];
    assert Lookup(day1, "views") == Some(JInt(10)) by { assert day1[1..][0] == ("views", JInt(10)); }
    assert Lookup(day2, "views") == Some(JInt(0)) by { assert day2[1..][0] == ("views", JInt(0)); }
    assert items[1..] == [JObj(day2)] && items[1..][1..] == [];
    assert SumViews(items[1..]) == Ok(0);
  }
}
