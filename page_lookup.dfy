/** `WikipediaCollector.get_wikidata_id`: the Hebrew Wikipedia query API
    answers with `query.pages`, a dict from page id to page data in which the
    id `-1` marks a missing page. The first other page's
    `pageprops.wikibase_item` is the Wikidata id. */
module PageLookup {
  import opened PyJson

  /** The id the API uses for a page that does not exist. */
  const MissingPageId := "-1"

  /** `page_data.get('pageprops', {}).get('wikibase_item')`, or `None` when a
      step raises (the surrounding `except` returns `None`). */
  function WikibaseItem(page: Json): Json
  {
    match Get(page, "pageprops", EmptyObj)
    case Raised => JNull
    case Ok(props) =>
      match Get(props, "wikibase_item", JNull)
      case Raised => JNull
      case Ok(item) => item
  }

  /** The result of the scan over `pages.items()`: the item of the first page
      whose id is not `-1`, or `None` when every page is missing. */
  function FirstExisting(pages: seq<(string, Json)>): Json
  {
    if pages == [] then JNull
    else if pages[0].0 != MissingPageId then WikibaseItem(pages[0].1)
    else FirstExisting(pages[1..])
  }

  /** The scan returns the item of page `i` when every page before `i` is
      missing and page `i` is not. */
  lemma {:induction false} FirstExistingAt(pages: seq<(string, Json)>, i: nat)
    requires i < |pages| && pages[i].0 != MissingPageId
    requires forall j :: 0 <= j < i ==> pages[j].0 == MissingPageId
    ensures FirstExisting(pages) == WikibaseItem(pages[i].1)
  {
    if i > 0 {
      FirstExistingAt(pages[1..], i - 1);
    }
  }

  /** When every page is missing the scan yields `None`. */
  lemma {:induction false} AllMissing(pages: seq<(string, Json)>)
    requires forall j :: 0 <= j < |pages| ==> pages[j].0 == MissingPageId
    ensures FirstExisting(pages) == JNull
  {
    if pages != [] {
      AllMissing(pages[1..]);
    }
  }

  /** Pages after the first existing one are never consulted. */
  lemma {:induction false} LaterPagesIgnored(pages: seq<(string, Json)>, more: seq<(string, Json)>)
    requires exists j :: 0 <= j < |pages| && pages[j].0 != MissingPageId
    ensures FirstExisting(pages + more) == FirstExisting(pages)
  {
    if pages[0].0 == MissingPageId {
      var j :| 0 <= j < |pages| && pages[j].0 != MissingPageId;
      assert j > 0 && pages[1..][j - 1].0 != MissingPageId;
      assert (pages + more)[1..] == pages[1..] + more;
      LaterPagesIgnored(pages[1..], more);
    }
  }

  /** What `get_wikidata_id` returns for a given answer of the query API. */
  function WikidataIdOf(response: Fetch): Json
  {
    match response
    case Failed => JNull
    case Body(data) =>
      match PagesOf(data)
      case Ok(JObj(pages)) => FirstExisting(pages)
      case _ => JNull
  }

  /** `data.get('query', {}).get('pages', {})`. */
  function PagesOf(data: Json): Try<Json>
  {
    var query :- Get(data, "query", EmptyObj);
    Get(query, "pages", EmptyObj)
  }

  /** A query answer holding one page with the given id and Wikidata item. */
  function SinglePageAnswer(pageId: string, item: Json): Fetch
  {
    var page := JObj([("pageprops", JObj([("wikibase_item", item)]))]);
    Body(JObj([("query", JObj([("pages", JObj([(pageId, page)]))]))]))
  }

  /** One existing page: its item is the id; one missing page: `None`. */
  lemma SinglePage(pageId: string, item: Json)
    ensures WikidataIdOf(SinglePageAnswer(pageId, item)) == if pageId != MissingPageId then item else JNull
  {
    var page := JObj([("pageprops", JObj([("wikibase_item", item)]))]);
    var pages := [(pageId, page)];
    assert PagesOf(SinglePageAnswer(pageId, item).data) == Ok(JObj(pages));
    assert Lookup(page.members, "pageprops") == Some(JObj([("wikibase_item", item)]));
    assert WikibaseItem(page) == item;
    assert pages[1..] == [];
    assert FirstExisting(pages) == if pageId != MissingPageId then item else JNull;
  }

  /** Lines 32-44: scan `pages.items()` in order and return at the first page
      that exists; a failed request, a malformed answer or no existing page
      gives `None`. */
  method GetWikidataId(response: Fetch) returns (id: Json)
    ensures id == WikidataIdOf(response)
  {
    if response.Failed? {
      return JNull;
    }
    var pages := PagesOf(response.data);
    if pages.Raised? || !pages.value.JObj? {
      return JNull;
    }
    var items := pages.value.members;
    var i := 0;
    while i < |items|
      invariant 0 <= i <= |items|
      invariant FirstExisting(items[i..]) == FirstExisting(items)
    {
      var (pageId, pageData) := items[i];
      if pageId != MissingPageId {
        return WikibaseItem(pageData);
      }
      assert items[i..][1..] == items[i + 1..];
      i := i + 1;
    }
    return JNull;
  }
}
