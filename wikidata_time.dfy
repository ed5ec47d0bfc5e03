/** Normalisation of a Wikidata time claim (`WikipediaCollector._extract_date`):
    the first claim's `mainsnak.datavalue.value` must be a dict with a `time`
    token such as `+1789-07-14T00:00:00Z`; the token loses its leading `+`
    signs and everything from the first `T`, and is then cut down to the
    claim's precision (9 = year, 10 = month, anything else = day). */
module WikidataTime {
  import opened PyJson
  import opened PyStr

  const YearPrecision := 9
  const MonthPrecision := 10
  /** The precision assumed when a time value carries none. */
  const DayPrecision := 11

  /** `time_str.lstrip('+').split('T')[0]`. */
  function DatePart(token: string): string
  {
    Split(LStrip(token, '+'), 'T')[0]
  }

  /** The date part is the token without its leading `+` signs, cut before the
      first `T`. */
  lemma DatePartSlice(token: string)
    ensures var u := LStrip(token, '+');
            DatePart(token) == u[..Find(u, 'T')]
    ensures 'T' !in DatePart(token)
    ensures DatePart(token) == "" || DatePart(token)[0] != '+'
  {
    SplitAtFirst(LStrip(token, '+'), 'T');
  }

  /** Lines 111-118: cut the date part of a token to the given precision. A
      month-precision date part without `-` has no `parts[1]` (IndexError). */
  function Normalize(token: string, precision: Json): Try<string>
  {
    var date := DatePart(token);
    if precision == JInt(YearPrecision) then
      Ok(Split(date, '-')[0] + "-01-01")
    else if precision == JInt(MonthPrecision) then
      var parts := Split(date, '-');
      if |parts| < 2 then Raised else Ok(parts[0] + "-" + parts[1] + "-01")
    else
      Ok(date)
  }

  /** Year precision keeps the date part up to its first `-` and appends
      `-01-01`. */
  lemma NormalizeYear(token: string)
    ensures var d := DatePart(token);
            Normalize(token, JInt(YearPrecision)) == Ok(d[..Find(d, '-')] + "-01-01")
  {
    SplitAtFirst(DatePart(token), '-');
  }

  /** Month precision keeps the first two `-` fields of the date part and
      appends `-01`; without any `-` it raises. */
  lemma NormalizeMonth(token: string)
    ensures var d := DatePart(token);
            var k := Find(d, '-');
            Normalize(token, JInt(MonthPrecision)) ==
              if k == |d| then Raised
              else var rest := d[k + 1..]; Ok(d[..k] + "-" + rest[..Find(rest, '-')] + "-01")
  {
    var d := DatePart(token);
    SplitAtFirst(d, '-');
    if Find(d, '-') < |d| {
      SplitAtFirst(d[Find(d, '-') + 1..], '-');
    }
  }

  /** Any other precision value (including the default of 11, a missing or a
      non-numeric one) returns the date part unchanged. */
  lemma NormalizeDay(token: string, precision: Json)
    requires precision != JInt(YearPrecision) && precision != JInt(MonthPrecision)
    ensures Normalize(token, precision) == Ok(DatePart(token))
  {
  }

  /** The `value` dict of the first claim, reached through `.get` calls whose
      defaults are `{}`. */
  function ClaimValue(claims: Json): Try<Json>
  {
    var first :- First(claims);
    var mainsnak :- Get(first, "mainsnak", EmptyObj);
    var datavalue :- Get(mainsnak, "datavalue", EmptyObj);
    Get(datavalue, "value", EmptyObj)
  }

  /** The body of the `try` at lines 98-121: `Ok(None)` when the value is not
      a dict with a `time` key, `Raised` when a step fails. */
  function ExtractFromFirst(claims: Json): Try<Option<string>>
  {
    var value :- ClaimValue(claims);
    if value.JObj? && Lookup(value.members, "time").Some? then
      var time := Lookup(value.members, "time").value;
      var precision := match Lookup(value.members, "precision")
                       case Some(p) => p
                       case None => JInt(DayPrecision);
      if !time.JStr? then Raised
      else
        var date :- Normalize(time.s, precision);
        Ok(Some(date))
    else
      Ok(None)
  }

  /** `_extract_date(claims)`: `None` for falsy claims and whenever the `try`
      block raises or falls through. */
  function ExtractDate(claims: Json): (r: Option<string>)
    ensures !claims.JArr? || claims.items == [] ==> r == None
  {
    if !Truthy(claims) then None
    else
      match ExtractFromFirst(claims)
      case Ok(d) => d
      case Raised => None
  }

  /** Any claim list whose first claim's `value` is a dict with a string
      `time` yields that token normalised at the dict's `precision` (11 when
      it has none), or `None` when the normalisation raises. The other keys of
      the claim and of the dict (`snaktype`, `timezone`, `calendarmodel`, ...)
      play no part. */
  lemma ExtractClaim(claims: Json, v: seq<(string, Json)>, token: string)
    requires ClaimValue(claims) == Ok(JObj(v)) && Lookup(v, "time") == Some(JStr(token))
    ensures var p := match Lookup(v, "precision") case Some(p) => p case None => JInt(DayPrecision);
            ExtractDate(claims) == match Normalize(token, p) case Ok(d) => Some(d) case Raised => None
  {
    assert First(claims).Ok?;
    assert Truthy(claims);
    var p := match Lookup(v, "precision") case Some(p) => p case None => JInt(DayPrecision);
    assert ExtractFromFirst(claims) ==
             match Normalize(token, p) case Ok(d) => Ok(Some(d)) case Raised => Raised;
  }

  /** A claim whose value is `{"time": token}` plus an optional precision. */
  function TimeClaim(token: string, precision: Option<Json>): Json
  {
    var value := [("time", JStr(token))] +
                 match precision case Some(p) => [("precision", p)] case None => [];
    JObj([("mainsnak", JObj([("datavalue", JObj([("value", JObj(value))]))]))])
  }

  /** The smallest such claim, `{"time": token}` plus an optional precision,
      yields its normalised token, or `None` when the normalisation raises. */
  lemma ExtractTimeClaim(token: string, precision: Option<Json>)
    ensures var p := match precision case Some(p) => p case None => JInt(DayPrecision);
            ExtractDate(JArr([TimeClaim(token, precision)])) ==
              match Normalize(token, p) case Ok(d) => Some(d) case Raised => None
  {
    var claims := JArr([TimeClaim(token, precision)]);
    var members := [("time", JStr(token))] +
                   match precision case Some(p) => [("precision", p)] case None => [];
    assert ClaimValue(claims) == Ok(JObj(members));
    assert Lookup(members, "time") == Some(JStr(token));
    if precision.Some? {
      assert Lookup(members, "precision") == precision by {
        assert members[1..][0] == ("precision", precision.value);
      }
    } else {
      assert Lookup(members, "precision") == None;
    }
    ExtractClaim(claims, members, token);
  }

  /** Only `claims[0]` decides the result. */
  lemma FirstClaimOnly(claim: Json, rest: seq<Json>)
    ensures ExtractDate(JArr([claim] + rest)) == ExtractDate(JArr([claim]))
  {
    var all, one := JArr([claim] + rest), JArr([claim]);
    assert First(all) == Ok(claim) == First(one);
    assert ClaimValue(all) == ClaimValue(one);
    assert ExtractFromFirst(all) == ExtractFromFirst(one);
  }

  /** `None` when `claims[0]`, its `mainsnak` or its `datavalue` is not a
      dict: the `.get` chain raises inside the `try`. */
  lemma MalformedClaim(claims: Json)
    requires ClaimValue(claims).Raised?
    ensures ExtractDate(claims) == None
  {
  }

  /** `None` when the first claim's value is not a dict, or is a dict with no
      `time` key. */
  lemma NoTimeValue(claims: Json)
    requires ClaimValue(claims).Ok?
    requires var v := ClaimValue(claims).value;
             !v.JObj? || Lookup(v.members, "time").None?
    ensures ExtractDate(claims) == None
  {
  }

  /** `None` when the `time` entry is not a string (`lstrip` raises). */
  lemma NonStringTime(claims: Json)
    requires ClaimValue(claims).Ok?
    requires var v := ClaimValue(claims).value;
             v.JObj? && Lookup(v.members, "time").Some? && !Lookup(v.members, "time").value.JStr?
    ensures ExtractDate(claims) == None
  {
  }

  /** A field of a time token: no `-`, no `T`. */
  predicate Field(f: string) {
    '-' !in f && 'T' !in f
  }

  /** The date part of `+` followed by `date T tail` is `date`. */
  lemma DatePartOfShape(date: string, tail: string)
    requires 'T' !in date && (date == "" || date[0] != '+')
    ensures DatePart("+" + date + "T" + tail) == date
  {
    var u := date + "T" + tail;
    var token := "+" + date + "T" + tail;
    assert token == "+" + u;
    assert LStrip(token, '+') == u by {
      assert token[1..] == u;
      assert u[0] != '+';
    }
    FindIs(u, 'T', |date|);
    DatePartSlice(token);
    assert u[..|date|] == date;
  }

  /** The first two `-` fields of `y-m-d` are `y` and `m`. */
  lemma DashFields(y: string, m: string, d: string)
    requires '-' !in y && '-' !in m
    ensures var date := y + "-" + m + "-" + d;
            && Find(date, '-') == |y| && date[..|y|] == y
            && var rest := date[|y| + 1..];
               Find(rest, '-') == |m| && rest[..|m|] == m
  {
    var date := y + "-" + m + "-" + d;
    FindIs(date, '-', |y|);
    var rest := date[|y| + 1..];
    assert rest == m + "-" + d;
    FindIs(rest, '-', |m|);
  }

  /** For a token shaped `+Y-M-DT...`, year precision gives `Y-01-01`, month
      precision `Y-M-01` and day precision `Y-M-D`. */
  lemma NormalizeFields(y: string, m: string, d: string, tail: string)
    requires Field(y) && Field(m) && Field(d)
    requires y == "" || y[0] != '+'
    ensures var token := "+" + (y + "-" + m + "-" + d) + "T" + tail;
            && Normalize(token, JInt(YearPrecision)) == Ok(y + "-01-01")
            && Normalize(token, JInt(MonthPrecision)) == Ok(y + "-" + m + "-01")
            && Normalize(token, JInt(DayPrecision)) == Ok(y + "-" + m + "-" + d)
  {
    var date := y + "-" + m + "-" + d;
    var token := "+" + date + "T" + tail;
    assert 'T' !in date && (date == "" || date[0] != '+');
    DatePartOfShape(date, tail);
    DashFields(y, m, d);
    NormalizeYear(token);
    NormalizeMonth(token);
    NormalizeDay(token, JInt(DayPrecision));
  }

  /** A claim list whose first `value` dict holds a token shaped
      `+Y-M-DT...` yields `Y-01-01` at precision 9, `Y-M-01` at precision 10
      and `Y-M-D` at any other or no precision (so `+1789-07-14T00:00:00Z`
      gives `1789-01-01`, `1789-07-01` and `1789-07-14`). */
  lemma ExtractFields(claims: Json, v: seq<(string, Json)>, y: string, m: string, d: string, tail: string)
    requires Field(y) && Field(m) && Field(d)
    requires y == "" || y[0] != '+'
    requires ClaimValue(claims) == Ok(JObj(v))
    requires Lookup(v, "time") == Some(JStr("+" + (y + "-" + m + "-" + d) + "T" + tail))
    ensures Lookup(v, "precision") == Some(JInt(YearPrecision)) ==> ExtractDate(claims) == Some(y + "-01-01")
    ensures Lookup(v, "precision") == Some(JInt(MonthPrecision)) ==> ExtractDate(claims) == Some(y + "-" + m + "-01")
    ensures Lookup(v, "precision") != Some(JInt(YearPrecision)) && Lookup(v, "precision") != Some(JInt(MonthPrecision)) ==>
              ExtractDate(claims) == Some(y + "-" + m + "-" + d)
  {
    var token := "+" + (y + "-" + m + "-" + d) + "T" + tail;
    NormalizeFields(y, m, d, tail);
    NormalizeDay(token, JInt(DayPrecision));
    var p := match Lookup(v, "precision") case Some(p) => p case None => JInt(DayPrecision);
    if p != JInt(YearPrecision) && p != JInt(MonthPrecision) {
      NormalizeDay(token, p);
    }
    ExtractClaim(claims, v, token);
  }

  /** A month-precision token whose date part has no `-` (such as
      `+1789T00:00:00Z`) raises inside the `try`; the result is `None`. */
  lemma MonthWithoutDash(y: string, tail: string)
    requires Field(y) && (y == "" || y[0] != '+')
    ensures ExtractDate(JArr([TimeClaim("+" + y + "T" + tail, Some(JInt(MonthPrecision)))])) == None
  {
    var token := "+" + y + "T" + tail;
    DatePartOfShape(y, tail);
    FindIs(y, '-', |y|);
    NormalizeMonth(token);
    ExtractTimeClaim(token, Some(JInt(MonthPrecision)));
  }

  /** A day-precision token that is only a time of day (`+T...`) normalises
      to the empty string, which is not `None` but is falsy. */
  lemma EmptyDate(tail: string)
    ensures ExtractDate(JArr([TimeClaim("+T" + tail, None)])) == Some("")
    ensures !Present(ExtractDate(JArr([TimeClaim("+T" + tail, None)])))
  {
    var token := "+T" + tail;
    assert token == "+" + "" + "T" + tail;
    DatePartOfShape("", tail);
    NormalizeDay(token, JInt(DayPrecision));
    ExtractTimeClaim(token, None);
  }
}
