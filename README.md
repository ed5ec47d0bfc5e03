# Wikipedia article data collector, modelled in Dafny

`CreateEventsJSON.py` reads Hebrew Wikipedia article titles, one per line. For
each title it does four things:

- looks up the title's Wikidata item;
- reads from the item a start date, an end date and the title of the English
  Wikipedia article;
- sums the English article's daily pageviews from 1 to 9 January 2025 (a
  range fixed in the code for the year 2025);
- writes one record per title that has both an item and an English article.

This project models the decision core of that program. Each web API is an
oracle: a function from the request to the already-decoded answer (`Fetch`).
The model covers:

- the normalisation of Wikidata time claims (`_extract_date`);
- the date fallback chain over the properties P580, P582, P585, P571 and P576
  (`get_wikidata_info`);
- the scan for the first existing page (`get_wikidata_id`);
- the date range, the path token and the sum of the pageviews
  (`get_english_pageviews`);
- the per-title skip rules and the in-order accumulation of records
  (`process_article`, `process_file`).

Modules:

- `PyJson` (`json.dfy`) covers decoded JSON values and Python truthiness. It
  also defines `Try`, for code that may raise, and the `.get` / `[0]` steps
  with the exceptions they raise on a value of the wrong type.
- `PyStr` (`pystr.dfy`) covers `lstrip`, `split`, `strip`, `replace` and
  decimal rendering, on single characters.
- `WikidataTime` (`wikidata_time.dfy`) covers `_extract_date`.
- `PageLookup` (`page_lookup.dfy`) covers `get_wikidata_id`. The method
  `GetWikidataId` keeps the source's loop with its early return.
- `Entity` (`entity.dfy`) covers `get_wikidata_info`.
- `Pageviews` (`pageviews.dfy`) covers `get_english_pageviews`.
- `Pipeline` (`pipeline.dfy`) covers `process_article` and `process_file` as
  written. `ProcessArticle` returns `Raised` where line 140 raises.
  `ProcessFile` keeps the source's `for` loop appending to `results` and
  returns `Raised` as soon as one title raises, since nothing is then
  written. It is proved equal to `CollectAsWritten`. `Collect`, over the
  corrected `ArticleOf`, is the reference run. `RunCorrection` proves that
  the program writes exactly the reference results unless some title has a
  truthy English title that is not a string.

Some properties one might expect of this program do not hold of the code,
and the model follows the code:

- A date the program emits is not always a well-formed `YYYY-MM-DD` date. For
  example, `+T00:00:00Z` gives `""` (see `WikidataTime.EmptyDate`), and a token
  is never checked for digits.
- The pageview total is not always non-negative. The code sums whatever ints
  or bools the answer holds, so `Pageviews.SumViewsNonNegative` needs
  non-negative items.
- A failure for one title is not always isolated: one English title that is
  not a string ends the whole run (see Findings).

## Model

| member | source | states |
|---|---|---|
| PyJson.Lookup | CreateEventsJSON.py:37 | a dict lookup finds the member with that key, the first one in order; it is absent exactly when no member has the key |
| PyJson.Get | CreateEventsJSON.py:37 | `.get(key, default)` raises exactly when the receiver is not a dict; a missing key gives the default, a present key gives its value |
| PyJson.GetByValue | CreateEventsJSON.py:55 | `.get(wikidata_id, {})` with a string id is a lookup; a list or dict id raises; a `None`, bool or number id gives the default |
| PyJson.First | CreateEventsJSON.py:100 | `claims[0]` succeeds exactly on a non-empty list and yields its head |
| PyJson.Truthy | CreateEventsJSON.py:166-177 | definition of Python truthiness of a decoded value (also used at lines 95 and 217); properties in `Pipeline.ArticleSkipRules`, `WikidataTime.ExtractDate` and `Pipeline.RecordsOfTitles` |
| PyJson.Present | CreateEventsJSON.py:69-81 | definition of the truth value of an `Optional[str]` date; properties in `Entity.ResolveDatesAsOrChain`, `Entity.PointInTimeBothEnds`, `Entity.FalsyFromLastFallback` and `WikidataTime.EmptyDate` |
| PyStr.Find | CreateEventsJSON.py:108 | the first occurrence of a character, or the length when there is none |
| PyStr.FindIs | CreateEventsJSON.py:108 | an index holding `c` with no `c` before it is what `Find` returns |
| PyStr.LStrip | CreateEventsJSON.py:108 | `lstrip('+')` removes exactly the leading `+` run and leaves a suffix of the input |
| PyStr.Split | CreateEventsJSON.py:108 | definition of `split(c)`; properties in `PyStr.SplitAtFirst`, `PyStr.JoinSplit` and `PyStr.SplitHasSecond` |
| PyStr.SplitAtFirst | CreateEventsJSON.py:108 | `split(c)[0]` is everything before the first `c`; the other pieces are the split of what follows it |
| PyStr.JoinSplit | CreateEventsJSON.py:112-116 | joining the pieces of `split(c)` with `c` gives the input back, and no piece contains `c` |
| PyStr.SplitHasSecond | CreateEventsJSON.py:115-116 | `parts[1]` exists exactly when the separator occurs |
| PyStr.TrimStart | CreateEventsJSON.py:204 | the leading-whitespace cut is no longer than the input and does not start with whitespace |
| PyStr.TrimStartSuffix | CreateEventsJSON.py:204 | the leading-whitespace cut is a suffix of the line, and everything removed is whitespace |
| PyStr.TrimEnd | CreateEventsJSON.py:204 | the trailing-whitespace cut is no longer than the input and does not end with whitespace |
| PyStr.TrimEndPrefix | CreateEventsJSON.py:204 | the trailing-whitespace cut is a prefix of the line, and everything removed is whitespace |
| PyStr.Strip | CreateEventsJSON.py:204 | definition of `strip()`; properties in `PyStr.StripSlice` and `PyStr.StripBlank` |
| PyStr.StripSlice | CreateEventsJSON.py:204 | `line.strip()` is a slice of the line with only whitespace cut on either side; it begins and ends with a non-space; stripping is idempotent |
| PyStr.StripBlank | CreateEventsJSON.py:204 | `line.strip()` is empty exactly when the line is all whitespace |
| PyStr.Replace | CreateEventsJSON.py:140 | `replace(' ', '_')` keeps the length and swaps exactly the spaces |
| PyStr.ReplaceRoundTrip | CreateEventsJSON.py:140 | no space is left after the replacement, and the replacement is undone when the title had no underscore |
| PyStr.IntToDecimal | CreateEventsJSON.py:136-137 | definition of `f"{year}"`; properties in `PyStr.ParseNatDigits` and `PyStr.IntToDecimalInjective` |
| PyStr.ParseNatDigits | CreateEventsJSON.py:136-137 | reading back the digits rendered for a number gives the number |
| PyStr.IntToDecimalInjective | CreateEventsJSON.py:136-137 | different years render as different strings |
| WikidataTime.DatePart | CreateEventsJSON.py:108 | definition of `lstrip('+').split('T')[0]`; properties in `WikidataTime.DatePartSlice` and `WikidataTime.DatePartOfShape` |
| WikidataTime.Normalize | CreateEventsJSON.py:108-118 | definition of the precision cases; properties in `WikidataTime.NormalizeYear`, `WikidataTime.NormalizeMonth`, `WikidataTime.NormalizeDay` and `WikidataTime.NormalizeFields` |
| WikidataTime.DatePartSlice | CreateEventsJSON.py:108 | the date part is the token without its leading `+` run, cut before the first `T`; it has no `T` and does not start with `+` |
| WikidataTime.NormalizeYear | CreateEventsJSON.py:111-113 | precision 9 gives the date part up to its first `-`, followed by `-01-01` |
| WikidataTime.NormalizeMonth | CreateEventsJSON.py:114-116 | precision 10 gives the first two `-` fields followed by `-01`, and raises when the date part has no `-` |
| WikidataTime.NormalizeDay | CreateEventsJSON.py:105-118 | any precision other than 9 and 10, including the default 11, gives the date part unchanged |
| WikidataTime.ClaimValue | CreateEventsJSON.py:100 | definition of the `.get` chain to the first claim's `value`; properties in `WikidataTime.ExtractClaim`, `WikidataTime.MalformedClaim` and `WikidataTime.NoTimeValue` |
| WikidataTime.ExtractFromFirst | CreateEventsJSON.py:98-121 | definition of the `try` block; properties in `WikidataTime.ExtractClaim`, `WikidataTime.NoTimeValue` and `WikidataTime.NonStringTime` |
| WikidataTime.ExtractDate | CreateEventsJSON.py:95-100 | claims that are not a list, or are an empty list, give `None`; the other shapes are covered by `WikidataTime.MalformedClaim`, `WikidataTime.NoTimeValue`, `WikidataTime.NonStringTime` and `WikidataTime.ExtractClaim` |
| WikidataTime.MalformedClaim | CreateEventsJSON.py:98-123 | a claim list whose `claims[0]`, `mainsnak` or `datavalue` is not a dict gives `None`, because the `.get` chain raises inside the `try` |
| WikidataTime.ExtractClaim | CreateEventsJSON.py:98-123 | any claim list whose first `value` dict has a string `time` gives that token normalised at the dict's precision (11 when missing), or `None` when that raises; other keys play no part |
| WikidataTime.ExtractTimeClaim | CreateEventsJSON.py:98-123 | the smallest such claim, `{time, precision?}`, gives its normalised date, or `None` when the normalisation raises; a missing precision counts as 11 |
| WikidataTime.FirstClaimOnly | CreateEventsJSON.py:100 | only the first claim decides the result |
| WikidataTime.NoTimeValue | CreateEventsJSON.py:100-102 | a `value` that is not a dict, or a dict without `time`, gives `None` |
| WikidataTime.NonStringTime | CreateEventsJSON.py:104-108 | a `time` that is not a string makes `lstrip` raise, and the result is `None` |
| WikidataTime.DatePartOfShape | CreateEventsJSON.py:108 | the date part of `+date T tail` is `date` |
| WikidataTime.DashFields | CreateEventsJSON.py:112-116 | the first two `-` fields of `y-m-d` are `y` and `m` |
| WikidataTime.NormalizeFields | CreateEventsJSON.py:108-118 | a token `+Y-M-DT...` normalises to `Y-01-01`, `Y-M-01` and `Y-M-D` at precisions 9, 10 and 11 |
| WikidataTime.ExtractFields | CreateEventsJSON.py:98-118 | any claim list whose first `value` dict holds `+Y-M-DT...` yields `Y-01-01` at precision 9, `Y-M-01` at precision 10 and `Y-M-D` at any other or no precision, so `+1789-07-14T00:00:00Z` gives `1789-01-01` at year precision |
| WikidataTime.MonthWithoutDash | CreateEventsJSON.py:114-123 | a month-precision token without `-` raises inside the `try`, and the result is `None` |
| WikidataTime.EmptyDate | CreateEventsJSON.py:117-118 | the day-precision token `+T...` gives `""`, which is not `None` but is falsy |
| PageLookup.WikibaseItem | CreateEventsJSON.py:40 | definition of `page_data.get('pageprops', {}).get('wikibase_item')`; properties in `PageLookup.SinglePage` and `PageLookup.GetWikidataId` |
| PageLookup.PagesOf | CreateEventsJSON.py:37 | definition of `data.get('query', {}).get('pages', {})`; properties in `PageLookup.SinglePage` and `PageLookup.GetWikidataId` |
| PageLookup.FirstExisting | CreateEventsJSON.py:38-43 | definition of the scan; properties in `PageLookup.FirstExistingAt`, `PageLookup.AllMissing` and `PageLookup.LaterPagesIgnored` |
| PageLookup.WikidataIdOf | CreateEventsJSON.py:32-44 | definition of `get_wikidata_id` on a decoded answer; properties in `PageLookup.SinglePage` and `PageLookup.GetWikidataId` |
| PageLookup.FirstExistingAt | CreateEventsJSON.py:38-40 | the result is the item of the first page whose id is not `-1` |
| PageLookup.AllMissing | CreateEventsJSON.py:38-44 | when every page id is `-1` the result is `None` |
| PageLookup.LaterPagesIgnored | CreateEventsJSON.py:38-40 | pages after the first existing one never change the result |
| PageLookup.SinglePage | CreateEventsJSON.py:37-44 | an answer holding one page gives that page's `wikibase_item`, or `None` when its id is `-1` |
| PageLookup.GetWikidataId | CreateEventsJSON.py:21-44 | the loop with its early return computes the first existing page's item, and `None` for a failed request or a malformed answer |
| Entity.ResolveDates | CreateEventsJSON.py:62-81 | definition of the fallback steps; properties in `Entity.ResolveDatesAsOrChain`, `Entity.ExplicitTimesWin`, `Entity.PointInTimeBothEnds` and `Entity.FalsyFromLastFallback` |
| Entity.ClaimDate | CreateEventsJSON.py:63-81 | definition of `self._extract_date(claims.get(prop, []))`; properties in `Entity.ResolveDatesAsOrChain`, `Entity.ExplicitTimesWin` and `Entity.PointInTimeBothEnds` |
| Entity.ResolveDatesAsOrChain | CreateEventsJSON.py:62-81 | start is `P580 or (P585 unless P582) or P571`; end is `P582 or (P585 unless P580) or P576` |
| Entity.ExplicitTimesWin | CreateEventsJSON.py:62-81 | a truthy P580 is the start and a truthy P582 is the end, whatever else the entity holds |
| Entity.PointInTimeBothEnds | CreateEventsJSON.py:68-81 | P585 is used exactly when both P580 and P582 are falsy and it is truthy, and then it is both dates; otherwise each date is its own property or the fallback |
| Entity.FalsyFromLastFallback | CreateEventsJSON.py:75-81 | a falsy start is what P571 gave, and a falsy end is what P576 gave |
| Entity.EnglishTitle | CreateEventsJSON.py:60 | definition of `sitelinks.get('enwiki', {}).get('title')`; properties in `Entity.WikidataInfoShape` and `Entity.SitelinkOnly` |
| Entity.EntityInfo | CreateEventsJSON.py:55-87 | definition of the `try` block; properties in `Entity.WikidataInfoShape`, `Entity.WikidataInfoSucceeds` and `Entity.WikidataInfoFails` |
| Entity.WikidataInfoOf | CreateEventsJSON.py:46-91 | definition of `get_wikidata_info` on a decoded answer; properties in `Entity.WikidataInfoSucceeds`, `Entity.WikidataInfoFails`, `Entity.WikidataInfoShape`, `Entity.SitelinkOnly` and `Entity.NonStringId` |
| Entity.WikidataInfoShape | CreateEventsJSON.py:50-91 | either all three fields are `None`, or the title is `sitelinks.enwiki.title` and the dates are the fallback chain over the entity's claims |
| Entity.WikidataInfoSucceeds | CreateEventsJSON.py:55-87 | a well-formed answer gives exactly the `enwiki` site link's title, whatever the dates, and the fallback chain's dates over the entity's claims, whatever the title |
| Entity.WikidataInfoFails | CreateEventsJSON.py:50-91 | a failed request, or a raise at any step of the `try` (entities, the entity, claims that are not a dict, the site link chain), gives all three fields `None` |
| Entity.SitelinkOnly | CreateEventsJSON.py:55-60 | an entity with only an `enwiki` site link gives that title, whatever its type, and no dates |
| Entity.NonStringId | CreateEventsJSON.py:55 | an id that is not a string finds no entity, and all three fields are `None` |
| Pageviews.DateRange | CreateEventsJSON.py:130-137 | definition of the range: `20250101`-`20250109` for 2025; properties of the other years in `Pageviews.DateRangeOfYear` |
| Pageviews.DateRangeOfYear | CreateEventsJSON.py:135-137 | a year other than 2025 asks for its own January 1 to December 31, and two years never share a range |
| Pageviews.TitleToken | CreateEventsJSON.py:140 | definition of `english_title.replace(' ', '_')`; properties in `Pageviews.TitleTokenProperties` |
| Pageviews.TitleTokenProperties | CreateEventsJSON.py:140 | the path token has the title's length, no space, every other character in place, and gives back a title that had no underscore |
| Pageviews.ViewsOf | CreateEventsJSON.py:147 | definition of one summand `item.get('views', 0)`; properties in `Pageviews.MissingViewsCountZero` |
| Pageviews.SumViews | CreateEventsJSON.py:147 | definition of the `sum`; properties in `Pageviews.SumViewsAppend`, `Pageviews.SumViewsNonNegative` and `Pageviews.TwoDaysOfViews` |
| Pageviews.TotalViews | CreateEventsJSON.py:145-148 | definition of the total of a decoded answer; properties in `Pageviews.PageviewsOfAnswer` |
| Pageviews.PageviewsAsWritten | CreateEventsJSON.py:125-158 | definition of `get_english_pageviews` as written; properties in `Pageviews.PageviewsCorrection` and `Pageviews.NonStringTitleRaises` |
| Pageviews.EnglishPageviews | CreateEventsJSON.py:125-158 | definition of `get_english_pageviews` with the corrected title step; properties in `Pageviews.PageviewsCorrection` and `Pageviews.PageviewsOfAnswer` |
| Pageviews.SumViewsAppend | CreateEventsJSON.py:147 | the total over two blocks of items is the sum of the totals, and it raises when either block raises |
| Pageviews.MissingViewsCountZero | CreateEventsJSON.py:147 | an item without `views` counts as 0 |
| Pageviews.SumViewsNonNegative | CreateEventsJSON.py:147 | items with non-negative views sum to a non-negative total |
| Pageviews.PageviewsCorrection | CreateEventsJSON.py:140-158 | the code as written returns exactly for string titles, and then agrees with the corrected function, which gives 0 otherwise |
| Pageviews.NonStringTitleRaises | CreateEventsJSON.py:140 | the truthy title `1` makes the code as written raise |
| Pageviews.PageviewsOfAnswer | CreateEventsJSON.py:142-158 | a failed request gives 0; a dict answer whose `items` is a list gives their sum, or 0 when summing raises; missing or non-list `items`, or an answer that is not a dict, give 0 |
| Pageviews.TwoDaysOfViews | CreateEventsJSON.py:147 | items with views 10 and 0 sum to 10 |
| Pipeline.ArticleAsWritten | CreateEventsJSON.py:160-196 | definition of `process_article` as written; properties in `Pipeline.ArticleSkipRules` and `Pipeline.ArticleCorrection` |
| Pipeline.ArticleOf | CreateEventsJSON.py:160-196 | definition of `process_article` with the corrected pageviews step; properties in `Pipeline.ArticleCorrection` and `Pipeline.RecordsOfTitles` |
| Pipeline.ArticleSkipRules | CreateEventsJSON.py:164-191 | a title is skipped exactly when its Wikidata id or its English title is falsy; it raises exactly when the English title is truthy but not a string; otherwise the record copies the title, the dates and the English title and adds the 2025 pageviews |
| Pipeline.ArticleCorrection | CreateEventsJSON.py:140-196 | where `process_article` as written returns, the corrected one returns the same; where it raises, the corrected one gives a record with 0 pageviews |
| Pipeline.ProcessArticle | CreateEventsJSON.py:160-196 | the method computes `process_article` as written, raising where line 140 raises |
| Pipeline.Titles | CreateEventsJSON.py:204 | definition of the comprehension; properties in `Pipeline.TitlesWellFormed`, `Pipeline.TitlesAppend` and `Pipeline.BlankLinesDropped` |
| Pipeline.TitlesWellFormed | CreateEventsJSON.py:204 | every title is a stripped, non-blank string, and there are no more titles than lines |
| Pipeline.ConcatMapAppend | CreateEventsJSON.py:204 | the comprehension over two blocks of lines is the concatenation of the comprehensions over each block |
| Pipeline.TitlesAppend | CreateEventsJSON.py:204 | titles keep the order of their lines |
| Pipeline.BlankLinesDropped | CreateEventsJSON.py:204 | a line is dropped exactly when it is all whitespace; otherwise it contributes its stripped text |
| Pipeline.Collect | CreateEventsJSON.py:214-218 | definition of the loop with an outcome that never raises (the reference run); properties in `Pipeline.CollectAppend` and `Pipeline.CollectProperties` |
| Pipeline.CollectAppend | CreateEventsJSON.py:214-218 | results keep the order of their titles: the results of two blocks are the concatenation of each block's results |
| Pipeline.CollectProperties | CreateEventsJSON.py:214-218 | there are at most as many results as titles; each result is the outcome of some title; every title with an outcome contributes it |
| Pipeline.RecordsOfTitles | CreateEventsJSON.py:185-191 | in the reference run each record belongs to an input title, is that title's record, and has a truthy English title; every resolving title is included |
| Pipeline.CollectAsWritten | CreateEventsJSON.py:214-218 | definition of the loop as written, raising as soon as a title raises; properties in `Pipeline.CollectAsWrittenRaises`, `Pipeline.CollectAsWrittenReturns` and `Pipeline.RunCorrection` |
| Pipeline.CollectAsWrittenRaises | CreateEventsJSON.py:214-218 | the run raises exactly when one of its titles raises |
| Pipeline.CollectAsWrittenReturns | CreateEventsJSON.py:214-218 | a run that returns wrote what the reference run writes, given that the two outcomes agree wherever the first returns |
| Pipeline.RunCorrection | CreateEventsJSON.py:140-218 | the program raises exactly when some title's `process_article` raises, and otherwise writes exactly the reference results |
| Pipeline.SkipThenRecord | CreateEventsJSON.py:214-218 | a skipped title followed by a title with a record writes only that record |
| Pipeline.SkippedThenResolved | CreateEventsJSON.py:164-218 | a title without a Wikidata id followed by one that resolves writes only the second title's record |
| Pipeline.ProcessFile | CreateEventsJSON.py:198-219 | the loop appends exactly the non-`None` records of the non-blank stripped lines, in order, and the method raises when any title raises |
| Pipeline.NumericEnglishTitleEscapes | CreateEventsJSON.py:140 | an English site link whose title is the number 1 passes the skip rules; `process_article` as written then raises, so a run over any titles containing this one writes nothing; the corrected record has 0 pageviews |

## Left out

- HTTP (`requests.Session`, headers, URL parameters, timeouts, `raise_for_status`): each API is a function from the request to a decoded answer or `Failed`.
- JSON decoding. A `JObj` stands for a decoded dict, so its keys are distinct and its members are in insertion order.
- Floating-point numbers in answers (a float `views` or `precision`): the `Json` datatype has no floats.
- The pageviews URL as a string: the request is the `Query` record of path token, start and end. A title holding `/`, `?` or `#` changes the path, query or fragment of the real request, because `requests` leaves those characters as they are; the model does not capture this.
- The 404 versus other `HTTPError` distinction at lines 150-158: both give 0 and differ only in the log text.
- `datetime.now()` at line 128: it is never used.
- Reading the input file and its `FileNotFoundError` and other error branches: the input is the sequence of its lines. Splitting the file into lines and newline translation are not modelled.
- Writing the output with `json.dump` and its formatting.
- `time.sleep(0.5)`, every progress and diagnostic `print`, the final summary counts, `main`, `sys.argv` and `sys.exit`.
- `PyJson.First`: a non-empty string or dict `claims` is modelled as raising at `claims[0]`. In the source, `claims[0]` of a string succeeds and the following `.get` raises. For a dict, `[0]` raises KeyError. Both end at the same `except`.
- `Pipeline.ProcessFile`: the method works on the already-decoded upstream answers. The order of the HTTP requests is not modelled, nor that titles after one that raises are never requested.

## Findings

| source | as written | input that shows it | evidently intended | confidence | as-written member | corrected member |
|---|---|---|---|---|---|---|
| CreateEventsJSON.py:140 | `english_title.replace(' ', '_')` runs before the `try` at line 142. A truthy English title that is not a string raises AttributeError out of `get_english_pageviews`, then `process_article` and `process_file`. This ends the run, and no output is written (`Pipeline.ArticleAsWritten`, `Pipeline.ProcessFile`). | a Wikidata entity whose `sitelinks.enwiki.title` is the number `1` (`Pipeline.NumericEnglishTitleEscapes`, `Pageviews.NonStringTitleRaises`) | any failure while fetching pageviews gives 0, and one title's failure does not stop the others (`Pipeline.ArticleOf`, `Pipeline.Collect`, related by `Pipeline.RunCorrection`) | not executed | Pageviews.PageviewsAsWritten | Pageviews.EnglishPageviews |
