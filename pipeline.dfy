/** `WikipediaCollector.process_article` and `process_file`: each non-blank
    input line is a Hebrew Wikipedia title; a title with a Wikidata id and an
    English article becomes one record, and the records are collected in input
    order. The three web APIs are oracles: each maps a request to its decoded
    answer. */
module Pipeline {
  import opened PyJson
  import opened PyStr
  import opened PageLookup
  import opened Entity
  import opened Pageviews

  /** The answers of the Hebrew Wikipedia query API (by title), of Wikidata's
      entity documents (by id) and of the pageviews API (by path). */
  datatype Upstream = Upstream(search: string -> Fetch, entity: Json -> Fetch, pageviews: Query -> Fetch)

  /** One output object: `hebrew_article`, `start_date`, `end_date`,
      `english_article`, `english_pageviews_2025`. */
  datatype ArticleRecord = ArticleRecord(
    hebrewArticle: string,
    startDate: Option<string>,
    endDate: Option<string>,
    englishArticle: Json,
    englishPageviews2025: int)

  /** What `process_article` does for a title, as written: `Ok(None)` when
      the title is skipped, `Ok(Some(record))` otherwise, and `Raised` when
      the pageviews step raises at line 140 (an English title that is not a
      string), which nothing in lines 160-196 catches. */
  function ArticleAsWritten(title: string, api: Upstream): Try<Option<ArticleRecord>>
  {
    var id := WikidataIdOf(api.search(title));
    if !Truthy(id) then Ok(None)
    else
      var info := WikidataInfoOf(id, api.entity(id));
      if !Truthy(info.englishTitle) then Ok(None)
      else
        var pageviews :- PageviewsAsWritten(info.englishTitle, PartialYear, api.pageviews);
        Ok(Some(ArticleRecord(title, info.startDate, info.endDate, info.englishTitle, pageviews)))
  }

  /** `process_article` with the corrected pageviews step, which never
      raises. */
  function ArticleOf(title: string, api: Upstream): Option<ArticleRecord>
  {
    var id := WikidataIdOf(api.search(title));
    if !Truthy(id) then None
    else
      var info := WikidataInfoOf(id, api.entity(id));
      if !Truthy(info.englishTitle) then None
      else
        Some(ArticleRecord(title, info.startDate, info.endDate, info.englishTitle,
                           EnglishPageviews(info.englishTitle, PartialYear, api.pageviews)))
  }

  /** A title is skipped exactly when it has no (truthy) Wikidata id or its
      entity has no (truthy) English title; it raises exactly when the English
      title is truthy but not a string; otherwise the record carries the
      title, the entity's dates and English title, and the 2025 pageviews. */
  lemma ArticleSkipRules(title: string, api: Upstream)
    ensures var id := WikidataIdOf(api.search(title));
            var info := WikidataInfoOf(id, api.entity(id));
            var r := ArticleAsWritten(title, api);
            && (r == Ok(None) <==> !Truthy(id) || !Truthy(info.englishTitle))
            && (r.Raised? <==> Truthy(id) && Truthy(info.englishTitle) && !info.englishTitle.JStr?)
            && (r.Ok? && r.value.Some? ==>
                  r.value.value ==
                    ArticleRecord(title, info.startDate, info.endDate, info.englishTitle,
                                  EnglishPageviews(info.englishTitle, PartialYear, api.pageviews)))
  {
    var id := WikidataIdOf(api.search(title));
    var info := WikidataInfoOf(id, api.entity(id));
    PageviewsCorrection(info.englishTitle, PartialYear, api.pageviews);
  }

  /** The corrected article agrees with the one as written wherever that one
      returns; where it raises, the corrected one is a record with 0
      pageviews. */
  lemma ArticleCorrection(title: string, api: Upstream)
    ensures ArticleAsWritten(title, api).Ok? ==> ArticleAsWritten(title, api).value == ArticleOf(title, api)
    ensures ArticleAsWritten(title, api).Raised? ==>
              ArticleOf(title, api).Some? && ArticleOf(title, api).value.englishPageviews2025 == 0
  {
    var id := WikidataIdOf(api.search(title));
    var info := WikidataInfoOf(id, api.entity(id));
    PageviewsCorrection(info.englishTitle, PartialYear, api.pageviews);
  }

  /** Lines 160-196 (progress messages and the half-second pause left out). */
  method ProcessArticle(title: string, api: Upstream) returns (result: Try<Option<ArticleRecord>>)
    ensures result == ArticleAsWritten(title, api)
  {
    var id := GetWikidataId(api.search(title));
    if !Truthy(id) {
      return Ok(None);
    }
    var info := WikidataInfoOf(id, api.entity(id));
    if !Truthy(info.englishTitle) {
      return Ok(None);
    }
    var pageviews := PageviewsAsWritten(info.englishTitle, PartialYear, api.pageviews);
    if pageviews.Raised? {
      return Raised;
    }
    result := Ok(Some(ArticleRecord(title, info.startDate, info.endDate, info.englishTitle, pageviews.value)));
  }

  /** The comprehension's contribution for one line: its stripped text,
      unless that is empty. */
  function TitleOf(line: string): seq<string>
  {
    if Strip(line) != "" then [Strip(line)] else []
  }

  /** The pieces `f` gives for each line, concatenated in line order. */
  function ConcatMap(f: string -> seq<string>, lines: seq<string>): seq<string>
  {
    if lines == [] then [] else f(lines[0]) + ConcatMap(f, lines[1..])
  }

  /** `[line.strip() for line in f if line.strip()]`. */
  function Titles(lines: seq<string>): seq<string>
  {
    ConcatMap(TitleOf, lines)
  }

  /** Every title is a stripped, non-blank line, and there are no more
      titles than lines. */
  lemma {:induction false} TitlesWellFormed(lines: seq<string>)
    ensures forall k :: 0 <= k < |Titles(lines)| ==>
              Titles(lines)[k] != "" && Strip(Titles(lines)[k]) == Titles(lines)[k]
    ensures |Titles(lines)| <= |lines|
  {
    if lines != [] {
      TitlesWellFormed(lines[1..]);
      StripSlice(lines[0]);
      var head := TitleOf(lines[0]);
      var rest := Titles(lines[1..]);
      assert Titles(lines) == head + rest;
      forall k | 0 <= k < |Titles(lines)|
        ensures Titles(lines)[k] != "" && Strip(Titles(lines)[k]) == Titles(lines)[k]
      {
        if k >= |head| {
          assert Titles(lines)[k] == rest[k - |head|];
        }
      }
    }
  }

  /** Mapping two blocks of lines gives the pieces of the first block
      followed by those of the second. */
  lemma {:induction false} ConcatMapAppend(f: string -> seq<string>, lines: seq<string>, more: seq<string>)
    ensures ConcatMap(f, lines + more) == ConcatMap(f, lines) + ConcatMap(f, more)
  {
    if lines != [] {
      ConcatMapAppend(f, lines[1..], more);
      assert (lines + more)[0] == lines[0];
      assert (lines + more)[1..] == lines[1..] + more;
    } else {
      assert lines + more == more;
    }
  }

  /** The titles of two blocks of lines are those of the first block followed
      by those of the second: input order is kept. */
  lemma TitlesAppend(lines: seq<string>, more: seq<string>)
    ensures Titles(lines + more) == Titles(lines) + Titles(more)
  {
    ConcatMapAppend(TitleOf, lines, more);
  }

  /** A line is dropped exactly when it is all whitespace. */
  lemma BlankLinesDropped(line: string)
    ensures Titles([line]) == [] <==> forall i :: 0 <= i < |line| ==> IsSpace(line[i])
    ensures Titles([line]) != [] ==> Titles([line]) == [Strip(line)]
  {
    StripBlank(line);
    assert [line][1..] == [];
    assert Titles([line]) == TitleOf(line) + Titles([]);
  }

  function Emitted(result: Option<ArticleRecord>): seq<ArticleRecord>
  {
    match result
    case Some(record) => [record]
    case None => []
  }

  /** `process_article` against fixed upstream answers, as a function of the
      title. */
  function ArticleFor(api: Upstream): string -> Option<ArticleRecord>
  {
    title => ArticleOf(title, api)
  }

  /** The results after processing `titles` in order, appending every
      outcome that is not `None`. */
  function Collect(titles: seq<string>, outcome: string -> Option<ArticleRecord>): seq<ArticleRecord>
  {
    if titles == [] then []
    else Collect(titles[..|titles| - 1], outcome) + Emitted(outcome(titles[|titles| - 1]))
  }

  /** Processing two blocks of titles gives the results of the first block
      followed by those of the second: input order is kept. */
  lemma {:induction false} CollectAppend(titles: seq<string>, more: seq<string>, outcome: string -> Option<ArticleRecord>)
    ensures Collect(titles + more, outcome) == Collect(titles, outcome) + Collect(more, outcome)
  {
    if more == [] {
      assert titles + more == titles;
    } else {
      var all := titles + more;
      assert all[..|all| - 1] == titles + more[..|more| - 1];
      assert all[|all| - 1] == more[|more| - 1];
      CollectAppend(titles, more[..|more| - 1], outcome);
    }
  }

  /** There are at most as many results as titles; each result is the outcome
      of one of the titles; and every title with an outcome contributes it. */
  lemma {:induction false} CollectProperties(titles: seq<string>, outcome: string -> Option<ArticleRecord>)
    ensures |Collect(titles, outcome)| <= |titles|
    ensures forall k :: 0 <= k < |Collect(titles, outcome)| ==>
              exists t :: t in titles && outcome(t) == Some(Collect(titles, outcome)[k])
    ensures forall t :: t in titles && outcome(t).Some? ==> outcome(t).value in Collect(titles, outcome)
  {
    if titles != [] {
      var init, last := titles[..|titles| - 1], titles[|titles| - 1];
      CollectProperties(init, outcome);
      assert titles == init + [last];
      var results := Collect(titles, outcome);
      var before := Collect(init, outcome);
      assert results == before + Emitted(outcome(last));
      forall k | 0 <= k < |results|
        ensures exists t :: t in titles && outcome(t) == Some(results[k])
      {
        if k < |before| {
          assert results[k] == before[k];
          var t :| t in init && outcome(t) == Some(before[k]);
          assert t in titles;
        } else {
          assert outcome(last) == Some(results[k]);
        }
      }
      forall t | t in titles && outcome(t).Some?
        ensures outcome(t).value in results
      {
        if t != last {
          assert t in init;
        }
      }
    }
  }

  /** Every record written out is the record of one of the input titles, for
      that title, and has a truthy English title; every title that resolves is
      written out. */
  lemma RecordsOfTitles(titles: seq<string>, api: Upstream)
    ensures forall k :: 0 <= k < |Collect(titles, ArticleFor(api))| ==>
              var record := Collect(titles, ArticleFor(api))[k];
              && record.hebrewArticle in titles
              && ArticleOf(record.hebrewArticle, api) == Some(record)
              && Truthy(record.englishArticle)
    ensures forall t :: t in titles && ArticleOf(t, api).Some? ==> ArticleOf(t, api).value in Collect(titles, ArticleFor(api))
  {
    var results := Collect(titles, ArticleFor(api));
    CollectProperties(titles, ArticleFor(api));
    forall k | 0 <= k < |results|
      ensures results[k].hebrewArticle in titles
      ensures ArticleOf(results[k].hebrewArticle, api) == Some(results[k])
      ensures Truthy(results[k].englishArticle)
    {
      var t :| t in titles && ArticleFor(api)(t) == Some(results[k]);
      assert ArticleOf(t, api) == Some(results[k]);
    }
    forall t | t in titles && ArticleOf(t, api).Some?
      ensures ArticleOf(t, api).value in results
    {
      assert ArticleFor(api)(t) == ArticleOf(t, api);
    }
  }

  /** `process_article` as written, as a function of the title. */
  function AsWrittenFor(api: Upstream): string -> Try<Option<ArticleRecord>>
  {
    title => ArticleAsWritten(title, api)
  }

  /** The loop of lines 214-218 as written: `Ok(results)` when every title
      returns, and `Raised` as soon as one title raises, since the exception
      leaves `process_file` before the output is written. */
  function CollectAsWritten(titles: seq<string>, outcome: string -> Try<Option<ArticleRecord>>): Try<seq<ArticleRecord>>
  {
    if titles == [] then Ok([])
    else
      var before :- CollectAsWritten(titles[..|titles| - 1], outcome);
      var last :- outcome(titles[|titles| - 1]);
      Ok(before + Emitted(last))
  }

  /** The run raises exactly when one of the titles raises. */
  lemma {:induction false} CollectAsWrittenRaises(titles: seq<string>, outcome: string -> Try<Option<ArticleRecord>>)
    ensures CollectAsWritten(titles, outcome).Raised? <==> exists t :: t in titles && outcome(t).Raised?
  {
    if titles != [] {
      var init, last := titles[..|titles| - 1], titles[|titles| - 1];
      CollectAsWrittenRaises(init, outcome);
      assert titles == init + [last];
      if exists t :: t in titles && outcome(t).Raised? {
        var t :| t in titles && outcome(t).Raised?;
        if t != last {
          assert t in init;
        }
      }
    }
  }

  /** When the run returns, it wrote what the corrected run writes, provided
      the two agree on every title that returns. */
  lemma {:induction false} CollectAsWrittenReturns(titles: seq<string>, outcome: string -> Try<Option<ArticleRecord>>,
                                                   corrected: string -> Option<ArticleRecord>)
    requires forall t :: outcome(t).Ok? ==> outcome(t).value == corrected(t)
    ensures CollectAsWritten(titles, outcome).Ok? ==> CollectAsWritten(titles, outcome).value == Collect(titles, corrected)
  {
    if titles != [] {
      CollectAsWrittenReturns(titles[..|titles| - 1], outcome, corrected);
    }
  }

  /** The program as written writes the corrected results exactly when no
      title has an English title that is truthy but not a string; otherwise
      it raises and writes nothing. */
  lemma RunCorrection(titles: seq<string>, api: Upstream)
    ensures CollectAsWritten(titles, AsWrittenFor(api)).Raised? <==>
              exists t :: t in titles && ArticleAsWritten(t, api).Raised?
    ensures CollectAsWritten(titles, AsWrittenFor(api)).Ok? ==>
              CollectAsWritten(titles, AsWrittenFor(api)).value == Collect(titles, ArticleFor(api))
  {
    CollectAsWrittenRaises(titles, AsWrittenFor(api));
    forall t | AsWrittenFor(api)(t).Ok?
      ensures AsWrittenFor(api)(t).value == ArticleFor(api)(t)
    {
      ArticleCorrection(t, api);
    }
    CollectAsWrittenReturns(titles, AsWrittenFor(api), ArticleFor(api));
    if exists t :: t in titles && ArticleAsWritten(t, api).Raised? {
      var t :| t in titles && ArticleAsWritten(t, api).Raised?;
      assert AsWrittenFor(api)(t).Raised?;
    }
  }

  /** A skipped title followed by one with a record: the record is the only
      result. */
  lemma SkipThenRecord(a: string, b: string, outcome: string -> Try<Option<ArticleRecord>>, record: ArticleRecord)
    requires outcome(a) == Ok(None) && outcome(b) == Ok(Some(record))
    ensures CollectAsWritten([a, b], outcome) == Ok([record])
  {
    assert [a, b][..1] == [a] && [a, b][1] == b;
    assert [a][..0] == [] && [a][0] == a;
    var none: seq<ArticleRecord> := [];
    assert CollectAsWritten([], outcome) == Ok(none);
    assert none + Emitted(None) == none;
    assert CollectAsWritten([a], outcome) == Ok(none);
    assert none + [record] == [record];
  }

  /** Titles `A` and `B` where `A` has no Wikidata id and `B` resolves: the
      only result written is `B`'s record. */
  lemma SkippedThenResolved(a: string, b: string, api: Upstream)
    requires !Truthy(WikidataIdOf(api.search(a)))
    requires ArticleAsWritten(b, api).Ok? && ArticleAsWritten(b, api).value.Some?
    ensures CollectAsWritten([a, b], AsWrittenFor(api)) == Ok([ArticleAsWritten(b, api).value.value])
  {
    assert ArticleAsWritten(a, api) == Ok(None);
    SkipThenRecord(a, b, AsWrittenFor(api), ArticleAsWritten(b, api).value.value);
  }

  /** Lines 198-219 on the lines of the input file: `Ok(results)` is the list
      written out, `Raised` an exception leaving `process_file` (reading the
      file, the progress messages and the JSON formatting left out). */
  method ProcessFile(lines: seq<string>, api: Upstream) returns (written: Try<seq<ArticleRecord>>)
    ensures written == CollectAsWritten(Titles(lines), AsWrittenFor(api))
  {
    var titles := Titles(lines);
    var results := [];
    for i := 0 to |titles|
      invariant CollectAsWritten(titles[..i], AsWrittenFor(api)) == Ok(results)
    {
      var result := ProcessArticle(titles[i], api);
      assert result == AsWrittenFor(api)(titles[i]);
      assert titles[..i + 1][..i] == titles[..i];
      if result.Raised? {
        CollectAsWrittenRaises(titles, AsWrittenFor(api));
        return Raised;
      }
      ghost var expected := results + Emitted(result.value);
      assert CollectAsWritten(titles[..i + 1], AsWrittenFor(api)) == Ok(expected);
      if result.value.Some? {
        results := results + [result.value.value];
      }
      assert results == expected;
    }
    assert titles[..|titles|] == titles;
    return Ok(results);
  }

  /** An entity whose English site link has the title `1`: the title is
      truthy, so the article is not skipped, and the pageviews step as written
      raises an exception that nothing catches, so a run over any titles
      containing this one writes nothing. The corrected article is a record
      with 0 pageviews. */
  lemma NumericEnglishTitleEscapes(title: string, id: string, api: Upstream, titles: seq<string>)
    requires api.search(title) == SinglePageAnswer("1", JStr(id))
    requires api.entity(JStr(id)) ==
               EntityAnswer(id, JObj([("sitelinks", JObj([("enwiki", JObj([("title", JInt(1))]))]))]))
    requires id != "" && title in titles
    ensures WikidataIdOf(api.search(title)) == JStr(id)
    ensures WikidataInfoOf(JStr(id), api.entity(JStr(id))).englishTitle == JInt(1)
    ensures ArticleAsWritten(title, api) == Raised
    ensures CollectAsWritten(titles, AsWrittenFor(api)) == Raised
    ensures ArticleOf(title, api).Some? && ArticleOf(title, api).value.englishPageviews2025 == 0
  {
    SinglePage("1", JStr(id));
    assert "1" != MissingPageId;
    SitelinkOnly(id, JInt(1));
    assert ArticleAsWritten(title, api) == Raised;
    CollectAsWrittenRaises(titles, AsWrittenFor(api));
    assert AsWrittenFor(api)(title).Raised?;
  }
}
