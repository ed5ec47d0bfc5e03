/** `WikipediaCollector.get_wikidata_info`: from a Wikidata entity document,
    the English article title (`sitelinks.enwiki.title`) and a start and end
    date found by an ordered fallback over the time properties P580 (start
    time), P582 (end time), P585 (point in time), P571 (inception) and P576
    (dissolved, abolished or demolished). */
module Entity {
  import opened PyJson
  import opened WikidataTime

  const StartTime := "P580"
  const EndTime := "P582"
  const PointInTime := "P585"
  const Inception := "P571"
  const Dissolution := "P576"

  /** The dict returned by `get_wikidata_info`. */
  datatype WikidataInfo = WikidataInfo(englishTitle: Json, startDate: Option<string>, endDate: Option<string>)

  /** The answer when anything in the `try` block raised. */
  const NoInfo := WikidataInfo(JNull, None, None)

  datatype Dates = Dates(start: Option<string>, end: Option<string>)

  /** `self._extract_date(claims.get(prop, []))` for a claims dict. */
  function ClaimDate(claims: seq<(string, Json)>, prop: string): Option<string>
  {
    ExtractDate(match Lookup(claims, prop) case Some(v) => v case None => JArr([]))
  }

  /** Lines 62-81, step by step: each later step runs only while the date it
      fills is still falsy. */
  function ResolveDates(claims: seq<(string, Json)>): Dates
  {
    var start := ClaimDate(claims, StartTime);
    var end := ClaimDate(claims, EndTime);
    var (start, end) :=
      if !Present(start) && !Present(end) then
        var point := ClaimDate(claims, PointInTime);
        if Present(point) then (point, point) else (start, end)
      else (start, end);
    var start := if !Present(start) then ClaimDate(claims, Inception) else start;
    var end := if !Present(end) then ClaimDate(claims, Dissolution) else end;
    Dates(start, end)
  }

  /** Python's `a or b` on two optional dates. */
  function Or(a: Option<string>, b: Option<string>): Option<string>
  {
    if Present(a) then a else b
  }

  /** The fallback chain as Python `or` expressions: start is
      `P580 or (P585 unless P582) or P571`, end is
      `P582 or (P585 unless P580) or P576`. */
  lemma ResolveDatesAsOrChain(claims: seq<(string, Json)>)
    ensures var p580, p582, p585 := ClaimDate(claims, StartTime), ClaimDate(claims, EndTime), ClaimDate(claims, PointInTime);
            var d := ResolveDates(claims);
            && d.start == Or(Or(p580, if Present(p582) then None else p585), ClaimDate(claims, Inception))
            && d.end == Or(Or(p582, if Present(p580) then None else p585), ClaimDate(claims, Dissolution))
  {
  }

  /** A start time always wins over every other property for the start, and
      an end time for the end: a date once found is never overwritten. */
  lemma ExplicitTimesWin(claims: seq<(string, Json)>)
    ensures Present(ClaimDate(claims, StartTime)) ==> ResolveDates(claims).start == ClaimDate(claims, StartTime)
    ensures Present(ClaimDate(claims, EndTime)) ==> ResolveDates(claims).end == ClaimDate(claims, EndTime)
  {
  }

  /** The point in time is consulted only when neither start nor end time is
      present, and then becomes both dates. */
  lemma PointInTimeBothEnds(claims: seq<(string, Json)>)
    ensures var d := ResolveDates(claims);
            var point := ClaimDate(claims, PointInTime);
            (!Present(ClaimDate(claims, StartTime)) && !Present(ClaimDate(claims, EndTime)) && Present(point))
              <==> (Present(point) && d.start == point && d.end == point &&
                    !Present(ClaimDate(claims, StartTime)) && !Present(ClaimDate(claims, EndTime)))
    ensures Present(ClaimDate(claims, StartTime)) || Present(ClaimDate(claims, EndTime)) ==>
              ResolveDates(claims) == Dates(Or(ClaimDate(claims, StartTime), ClaimDate(claims, Inception)),
                                            Or(ClaimDate(claims, EndTime), ClaimDate(claims, Dissolution)))
  {
  }

  /** A falsy result is whatever the last fallback produced: `None` or `""`
      from P571 for the start, from P576 for the end. */
  lemma FalsyFromLastFallback(claims: seq<(string, Json)>)
    ensures !Present(ResolveDates(claims).start) ==> ResolveDates(claims).start == ClaimDate(claims, Inception)
    ensures !Present(ResolveDates(claims).end) ==> ResolveDates(claims).end == ClaimDate(claims, Dissolution)
  {
  }

  /** The successful part of the `try` block: the entity is
      `data['entities'][id]`, and a claims value that is not a dict makes the
      first `claims.get` raise. */
  function EntityInfo(id: Json, data: Json): Try<WikidataInfo>
  {
    var entities :- Get(data, "entities", EmptyObj);
    var entity :- GetByValue(entities, id, EmptyObj);
    var claims :- Get(entity, "claims", EmptyObj);
    // `entity` is a dict once its `claims` were read, so this `get` succeeds.
    var sitelinks := Get(entity, "sitelinks", EmptyObj).value;
    var title :- EnglishTitle(sitelinks);
    if !claims.JObj? then Raised
    else
      var dates := ResolveDates(claims.members);
      Ok(WikidataInfo(title, dates.start, dates.end))
  }

  /** `sitelinks.get('enwiki', {}).get('title')`. */
  function EnglishTitle(sitelinks: Json): Try<Json>
  {
    var enwiki :- Get(sitelinks, "enwiki", EmptyObj);
    Get(enwiki, "title", JNull)
  }

  /** What `get_wikidata_info` returns for an id and the entity API's answer:
      any failure gives all three fields `None`. */
  function WikidataInfoOf(id: Json, response: Fetch): WikidataInfo
  {
    match response
    case Failed => NoInfo
    case Body(data) =>
      match EntityInfo(id, data)
      case Ok(info) => info
      case Raised => NoInfo
  }

  /** Either everything is `None` (some step raised), or the title is the
      `enwiki` site link's title and the dates are those of the fallback chain
      over the entity's claims, independently of each other. */
  lemma WikidataInfoShape(id: Json, response: Fetch)
    ensures var info := WikidataInfoOf(id, response);
            || info == NoInfo
            || exists entity: Json, sitelinks: Json, claims: seq<(string, Json)> ::
                 && response.Body?
                 && Get(response.data, "entities", EmptyObj).Ok?
                 && GetByValue(Get(response.data, "entities", EmptyObj).value, id, EmptyObj) == Ok(entity)
                 && Get(entity, "sitelinks", EmptyObj) == Ok(sitelinks)
                 && Get(entity, "claims", EmptyObj) == Ok(JObj(claims))
                 && EnglishTitle(sitelinks) == Ok(info.englishTitle)
                 && ResolveDates(claims) == Dates(info.startDate, info.endDate)
  {
    var info := WikidataInfoOf(id, response);
    if info != NoInfo {
      var entities := Get(response.data, "entities", EmptyObj).value;
      var entity := GetByValue(entities, id, EmptyObj).value;
      var sitelinks := Get(entity, "sitelinks", EmptyObj).value;
      var claims := Get(entity, "claims", EmptyObj).value;
      assert EnglishTitle(sitelinks) == Ok(info.englishTitle);
      assert ResolveDates(claims.members) == Dates(info.startDate, info.endDate);
    }
  }

  /** A well-formed answer gives the `enwiki` site link's title, whatever the
      dates, and the fallback chain's dates, whatever the title. */
  lemma WikidataInfoSucceeds(id: Json, response: Fetch, entity: Json, sitelinks: Json,
                             claims: seq<(string, Json)>, title: Json)
    requires response.Body?
    requires Get(response.data, "entities", EmptyObj).Ok?
    requires GetByValue(Get(response.data, "entities", EmptyObj).value, id, EmptyObj) == Ok(entity)
    requires Get(entity, "sitelinks", EmptyObj) == Ok(sitelinks)
    requires Get(entity, "claims", EmptyObj) == Ok(JObj(claims))
    requires EnglishTitle(sitelinks) == Ok(title)
    ensures WikidataInfoOf(id, response) ==
              WikidataInfo(title, ResolveDates(claims).start, ResolveDates(claims).end)
  {
  }

  /** Every step that raises inside the `try` at lines 50-91, and a failed
      request, give all three fields `None`. */
  lemma WikidataInfoFails(id: Json, response: Fetch)
    requires || response.Failed?
             || Get(response.data, "entities", EmptyObj).Raised?
             || GetByValue(Get(response.data, "entities", EmptyObj).value, id, EmptyObj).Raised?
             || (var entity := GetByValue(Get(response.data, "entities", EmptyObj).value, id, EmptyObj).value;
                 || Get(entity, "claims", EmptyObj).Raised?
                 || !Get(entity, "claims", EmptyObj).value.JObj?
                 || EnglishTitle(Get(entity, "sitelinks", EmptyObj).value).Raised?)
    ensures WikidataInfoOf(id, response) == NoInfo
  {
  }

  /** An entity answer holding only the entity `id`. */
  function EntityAnswer(id: string, entity: Json): Fetch
  {
    Body(JObj([("entities", JObj([(id, entity)]))]))
  }

  /** An entity whose only key is `sitelinks` with an `enwiki` title: the
      title is taken as it is, whatever its type, and there are no dates. */
  lemma SitelinkOnly(id: string, title: Json)
    ensures var entity := JObj([("sitelinks", JObj([("enwiki", JObj([("title", title)]))]))]);
            WikidataInfoOf(JStr(id), EntityAnswer(id, entity)) == WikidataInfo(title, None, None)
  {
    var entity := JObj([("sitelinks", JObj([("enwiki", JObj([("title", title)]))]))]);
    var data := EntityAnswer(id, entity).data;
    assert GetByValue(JObj([(id, entity)]), JStr(id), EmptyObj) == Ok(entity);
    assert Get(entity, "claims", EmptyObj) == Ok(EmptyObj) by {
      assert Lookup(entity.members, "claims") == None;
    }
    assert EnglishTitle(Get(entity, "sitelinks", EmptyObj).value) == Ok(title);
    assert ResolveDates([]) == Dates(None, None);
  }

  /** An id that is not a string never finds an entity: a `None`, bool or
      number key yields `{}` (no title, no dates), a list or dict key raises. */
  lemma NonStringId(id: Json, response: Fetch)
    requires !id.JStr?
    ensures WikidataInfoOf(id, response).englishTitle == JNull
    ensures WikidataInfoOf(id, response).startDate == None
    ensures WikidataInfoOf(id, response).endDate == None
  {
    assert ResolveDates([]) == Dates(None, None);
  }
}
