/**
 * The two server-side copies of the pipeline: the Netlify function
 * `handler` with its `fetchCoinGeckoDailyClose`, and the Express route
 * `GET /api/daily-close` with its own `fetchCoinGeckoDailyClose`.
 *
 * A request is read, validated, and only then sent on to CoinGecko; the
 * two CoinGecko answers are inputs of the model, and the requests the
 * handler issues are returned in order. The two deployments differ in the
 * default symbol, in the entry filter of the reducer and in one fallback
 * of the error message.
 */
module Handler {
  import opened Options
  import opened Text
  import opened Calendar
  import opened UtcDates
  import opened Resolver
  import opened DailyReducer
  import opened Pipeline

  datatype Deployment = Netlify | Express

  /** The query-string parameters; None stands for a missing one. */
  datatype Query = Query(symbol: Option<string>, start: Option<string>, end: Option<string>,
                         convert: Option<string>)

  /** `err.response` of an axios error: the upstream status and the body's error fields. */
  datatype ErrorResponse = ErrorResponse(status: int, dataError: Option<string>,
                                         statusErrorMessage: Option<string>)

  /**
   * Something thrown inside the `try`: an axios error carries the upstream
   * `response`; the not-found Error of the Netlify copy carries `statusCode`.
   */
  datatype Thrown = Thrown(response: Option<ErrorResponse>, statusCode: Option<int>, message: string)

  /** An axios request's outcome: the body's array field (None if not an array), or a throw. */
  datatype Reply<T> = Answered(items: Option<seq<T>>) | Failed(err: Thrown)

  /** What `fetchCoinGeckoDailyClose` resolves to or rejects with. */
  datatype Outcome = Done(series: Series) | Threw(err: Thrown)

  datatype Body = ErrorBody(error: string) | SeriesBody(series: Series)

  datatype Response = Response(status: int, body: Body)

  const MissingParams: string := "Query params required: symbol, start, end"
  const BadDateFormat: string := "Dates must be in YYYY-MM-DD format"
  const StartAfterEndMessage: string := "Start date must be before or equal to End date"

  function DefaultSymbol(dep: Deployment): string {
    match dep
    case Netlify => "AI3"
    case Express => "BTC"
  }

  /** The Netlify copy skips non-finite entries; the Express copy keeps every entry. */
  function VariantOf(dep: Deployment): Variant {
    match dep
    case Netlify => SkipNonFinite
    case Express => KeepAll
  }

  /**
   * `String(params.symbol || default).toUpperCase()`: never empty, already
   * upper-case, and the deployment's default when the parameter is missing
   * or empty.
   */
  function SymbolParam(dep: Deployment, q: Query): (s: string)
    ensures s != "" && ToUpper(s) == s
    ensures q.symbol.Some? && q.symbol.value != "" ==> s == ToUpper(q.symbol.value)
    ensures q.symbol.None? || q.symbol.value == "" ==> s == DefaultSymbol(dep)
  {
    var raw := ParamOr(q.symbol, DefaultSymbol(dep));
    CaseKeepsEmptiness(raw);
    ToUpperIdempotent(raw);
    var d := DefaultSymbol(dep);
    assert ToUpper(d) == d by {
      assert forall i :: 0 <= i < |d| ==> UpperChar(d[i]) == d[i];
    }
    ToUpper(raw)
  }

  /**
   * `String(params.start || '').trim()` and the same for `end`: empty when
   * the parameter is missing, otherwise the parameter without its leading
   * and trailing white space.
   */
  function DateParam(p: Option<string>): (r: string)
    ensures p.None? ==> r == ""
    ensures p.Some? ==> exists lo :: IsTrimmedAt(p.value, lo, r)
    ensures r != "" ==> !IsTrimmable(r[0]) && !IsTrimmable(r[|r| - 1])
  {
    Trim(ParamOr(p, ""))
  }

  /**
   * `String(params.convert || 'USD').toUpperCase()`: never empty, already
   * upper-case, and `USD` when the parameter is missing or empty.
   */
  function ConvertParam(q: Query): (r: string)
    ensures r != "" && ToUpper(r) == r
    ensures q.convert.Some? && q.convert.value != "" ==> r == ToUpper(q.convert.value)
    ensures q.convert.None? || q.convert.value == "" ==> r == "USD"
  {
    var raw := ParamOr(q.convert, "USD");
    CaseKeepsEmptiness(raw);
    ToUpperIdempotent(raw);
    assert ToUpper("USD") == "USD" by {
      assert forall i :: 0 <= i < |"USD"| ==> UpperChar("USD"[i]) == "USD"[i];
    }
    ToUpper(raw)
  }

  /**
   * The message of the 400 answer, in the order the checks run, or None when
   * the request passes: one of the three messages, the format message only
   * for present dates of which one fails the regex, and the order message
   * only for dates that match the regex.
   */
  function Rejection(dep: Deployment, q: Query): (r: Option<string>)
    ensures r.Some? ==> r.value == MissingParams || r.value == BadDateFormat || r.value == StartAfterEndMessage
    ensures r == Some(BadDateFormat) ==> DateParam(q.start) != "" && DateParam(q.end) != ""
    ensures r == Some(BadDateFormat) ==>
      !MatchesDateRegex(DateParam(q.start)) || !MatchesDateRegex(DateParam(q.end))
    ensures r == Some(StartAfterEndMessage) ==>
      MatchesDateRegex(DateParam(q.start)) && MatchesDateRegex(DateParam(q.end))
  {
    var symbol, start, end := SymbolParam(dep, q), DateParam(q.start), DateParam(q.end);
    if symbol == "" || start == "" || end == "" then Some(MissingParams)
    else if !MatchesDateRegex(start) || !MatchesDateRegex(end) then Some(BadDateFormat)
    else if StartAfterEnd(start, end) then Some(StartAfterEndMessage)
    else None
  }

  /** A date parameter that is missing, empty or only whitespace. */
  predicate Blank(p: Option<string>) {
    p.None? || forall i :: 0 <= i < |p.value| ==> IsTrimmable(p.value[i])
  }

  /**
   * What validation means: the first check fires exactly when a date is
   * missing or blank (the symbol always has a default); the format message
   * comes exactly when both are present and one lacks the YYYY-MM-DD form;
   * the order message exactly when both have it and the start is after the
   * end; a request passes exactly when both dates have the YYYY-MM-DD form
   * and, where both name real dates, the start is not after the end.
   */
  lemma RejectionMeaning(dep: Deployment, q: Query)
    ensures Rejection(dep, q) == Some(MissingParams) <==> Blank(q.start) || Blank(q.end)
    ensures Rejection(dep, q) == Some(BadDateFormat) <==>
      !Blank(q.start) && !Blank(q.end)
      && (!MatchesDateRegex(DateParam(q.start)) || !MatchesDateRegex(DateParam(q.end)))
    ensures Rejection(dep, q) == Some(StartAfterEndMessage) <==>
      !Blank(q.start) && !Blank(q.end)
      && MatchesDateRegex(DateParam(q.start)) && MatchesDateRegex(DateParam(q.end))
      && StartAfterEnd(DateParam(q.start), DateParam(q.end))
    ensures Rejection(dep, q).None? <==>
      var start, end := DateParam(q.start), DateParam(q.end);
      MatchesDateRegex(start) && MatchesDateRegex(end)
      && (ParseDay(start).Some? && ParseDay(end).Some? ==>
        MakeDay(DateFields(start)) <= MakeDay(DateFields(end)))
  {
    BlankMeaning(q.start);
    BlankMeaning(q.end);
    StartAfterEndMeaning(DateParam(q.start), DateParam(q.end));
  }

  lemma BlankMeaning(p: Option<string>)
    ensures DateParam(p) == "" <==> Blank(p)
  {
    if p.Some? && p.value == "" {
      assert Blank(p);
    }
  }

  /** `err.response?.status || 500`. */
  function ErrorStatus(err: Thrown): (status: int)
    ensures status != 0
    ensures err.response.None? ==> status == 500
    ensures err.response.Some? && err.response.value.status != 0 ==> status == err.response.value.status
    ensures err.response.Some? && err.response.value.status == 0 ==> status == 500
  {
    match err.response
    case Some(r) => if r.status != 0 then r.status else 500
    case None => 500
  }

  /** The upstream body's `error` text, empty when there is none. */
  function DataError(err: Thrown): string {
    if err.response.Some? then FieldText(err.response.value.dataError) else ""
  }

  /** The upstream body's `status.error_message` text, empty when there is none. */
  function StatusErrorMessage(err: Thrown): string {
    if err.response.Some? then FieldText(err.response.value.statusErrorMessage) else ""
  }

  /**
   * Netlify: `err.response?.data?.error || err.message || 'Unknown error'`;
   * Express also tries `err.response?.data?.status?.error_message` second.
   * The message is never empty: the first non-empty text in that order.
   */
  function ErrorMessage(dep: Deployment, err: Thrown): (m: string)
    ensures m != ""
    ensures DataError(err) != "" ==> m == DataError(err)
    ensures DataError(err) == "" && dep == Express && StatusErrorMessage(err) != "" ==>
      m == StatusErrorMessage(err)
    ensures DataError(err) == "" && (dep == Netlify || StatusErrorMessage(err) == "") ==>
      m == (if err.message != "" then err.message else "Unknown error")
  {
    var upstream := if dep == Express then StatusErrorMessage(err) else "";
    OrElse(DataError(err), OrElse(upstream, OrElse(err.message, "Unknown error")))
  }

  /**
   * The error a missing coin throws. The Netlify copy marks it with
   * `statusCode = 404`, but it has no `response`, so it is answered with 500.
   */
  function NotFoundError(dep: Deployment, symbol: string): (err: Thrown)
    ensures ErrorStatus(err) == 500
    ensures ErrorMessage(dep, err) == "Symbol " + symbol + " not found on CoinGecko"
    ensures dep == Netlify ==> err.statusCode == Some(404)
  {
    Thrown(None, if dep == Netlify then Some(404) else None, "Symbol " + symbol + " not found on CoinGecko")
  }

  /**
   * `respond(200, result)` or the `catch` block's `respond(status, { error })`:
   * a series exactly when the fetch succeeded, answered with 200; otherwise
   * the error's status (`err.response?.status || 500`) and its message in the
   * deployment's order, which is never empty.
   */
  function ResponseOf(dep: Deployment, outcome: Outcome): (r: Response)
    ensures r.body.SeriesBody? <==> outcome.Done?
    ensures outcome.Done? ==> r == Response(200, SeriesBody(outcome.series))
    ensures outcome.Threw? ==> r.status != 0 && r.body.error != ""
    ensures outcome.Threw? ==>
      r.status == ErrorStatus(outcome.err) && r.body == ErrorBody(ErrorMessage(dep, outcome.err))
  {
    match outcome
    case Done(series) => Response(200, SeriesBody(series))
    case Threw(err) => Response(ErrorStatus(err), ErrorBody(ErrorMessage(dep, err)))
  }

  /**
   * What `fetchCoinGeckoDailyClose` does with the given answers: a search for
   * the symbol; a throw when the search fails or finds no coin; otherwise a
   * range request for the resolved coin in the lower-cased currency between
   * the start day's midnight and the end day's last second; a throw when that
   * fails; otherwise the daily series of the returned samples.
   */
  ghost predicate Fetches(dep: Deployment, symbol: string, start: string, end: string, convert: string,
                          search: Reply<Coin>, range: Reply<Sample>,
                          outcome: Outcome, calls: seq<Call>, closes: seq<nat>)
  {
    match search
    case Failed(err) => calls == [Search(symbol)] && outcome == Threw(err)
    case Answered(found) =>
      match ResolveCoin(ItemsOf(found), ToUpper(symbol))
      case None => calls == [Search(symbol)] && outcome == Threw(NotFoundError(dep, symbol))
      case Some(coin) =>
        calls == [Search(symbol),
                  MarketRange(coin.id, ToLower(OrElse(convert, "USD")), RangeFrom(start), RangeTo(end))]
        && match range
           case Failed(err) => outcome == Threw(err)
           case Answered(prices) =>
             outcome.Done? && outcome.series.symbol == symbol && outcome.series.name == coin.name
             && outcome.series.convert == ToUpper(convert)
             && IsDailySeries(VariantOf(dep), ToUtcYmd, ItemsOf(prices), outcome.series.points, closes)
  }

  /** The Express copy is modelled only for numeric timestamps. */
  predicate NumericPrices(dep: Deployment, range: Reply<Sample>) {
    range.Answered? ==> TimestampsNumeric(VariantOf(dep), ItemsOf(range.items))
  }

  /** `fetchCoinGeckoDailyClose(symbol, startYmd, endYmd, convert)`. */
  method FetchCoinGeckoDailyClose(dep: Deployment, symbol: string, startYmd: string, endYmd: string,
                                  convert: string, search: Reply<Coin>, range: Reply<Sample>)
    returns (outcome: Outcome, calls: seq<Call>, ghost closes: seq<nat>)
    requires NumericPrices(dep, range)
    ensures Fetches(dep, symbol, startYmd, endYmd, convert, search, range, outcome, calls, closes)
  {
    var vs := ToLower(OrElse(convert, "USD"));
    calls := [Search(symbol)];
    closes := [];
    if search.Failed? {
      outcome := Threw(search.err);
      return;
    }
    var coins := ItemsOf(search.items);
    var coin := ResolveCoin(coins, ToUpper(symbol));
    if coin.None? {
      outcome := Threw(NotFoundError(dep, symbol));
      return;
    }
    var from := RangeFrom(startYmd);
    var to := RangeTo(endYmd);
    calls := calls + [MarketRange(coin.value.id, vs, from, to)];
    if range.Failed? {
      outcome := Threw(range.err);
      return;
    }
    var prices := ItemsOf(range.items);
    var points;
    points, closes := DailyClose(VariantOf(dep), ToUtcYmd, prices);
    outcome := Done(Series(symbol, coin.value.name, ToUpper(convert), points));
  }

  /**
   * The handler: a rejected request is answered with 400 and its message
   * before any request goes out; an accepted one is answered from what
   * `fetchCoinGeckoDailyClose` does with the normalised parameters.
   */
  method HandleDailyClose(dep: Deployment, q: Query, search: Reply<Coin>, range: Reply<Sample>)
    returns (res: Response, calls: seq<Call>, ghost outcome: Outcome, ghost closes: seq<nat>)
    requires NumericPrices(dep, range)
    ensures Rejection(dep, q).Some? ==>
      res == Response(400, ErrorBody(Rejection(dep, q).value)) && calls == []
    ensures Rejection(dep, q).None? ==>
      Fetches(dep, SymbolParam(dep, q), DateParam(q.start), DateParam(q.end), ConvertParam(q),
              search, range, outcome, calls, closes)
      && res == ResponseOf(dep, outcome)
    ensures Rejection(dep, q).None? && outcome.Threw? ==>
      res == Response(ErrorStatus(outcome.err), ErrorBody(ErrorMessage(dep, outcome.err)))
  {
    var symbol := SymbolParam(dep, q);
    var start := DateParam(q.start);
    var end := DateParam(q.end);
    var convert := ConvertParam(q);
    outcome, closes := Threw(Thrown(None, None, "")), [];
    if symbol == "" || start == "" || end == "" {
      res, calls := Response(400, ErrorBody(MissingParams)), [];
      return;
    }
    if !MatchesDateRegex(start) || !MatchesDateRegex(end) {
      res, calls := Response(400, ErrorBody(BadDateFormat)), [];
      return;
    }
    if StartAfterEnd(start, end) {
      res, calls := Response(400, ErrorBody(StartAfterEndMessage)), [];
      return;
    }
    var result;
    result, calls, closes := FetchCoinGeckoDailyClose(dep, symbol, start, end, convert, search, range);
    outcome := result;
    match result
    case Done(series) =>
      res := Response(200, SeriesBody(series));
    case Threw(err) =>
      res := Response(ErrorStatus(err), ErrorBody(ErrorMessage(dep, err)));
  }

  /**
   * `fetchCoinGeckoDailyClose` always searches first, for the symbol it was
   * given, and makes at most one more request; that range request asks for
   * whole UTC days in the lower-cased currency: from the start day's
   * midnight to the end day's last second, in seconds.
   */
  lemma FetchCalls(dep: Deployment, symbol: string, start: string, end: string, convert: string,
                   search: Reply<Coin>, range: Reply<Sample>,
                   outcome: Outcome, calls: seq<Call>, closes: seq<nat>)
    requires Fetches(dep, symbol, start, end, convert, search, range, outcome, calls, closes)
    ensures 1 <= |calls| <= 2 && calls[0] == Search(symbol)
    ensures |calls| == 2 ==>
      calls[1].MarketRange? && calls[1].vsCurrency == ToLower(OrElse(convert, "USD"))
    ensures |calls| == 2 && ParseDay(start).Some? && ParseDay(end).Some? ==>
      calls[1].from == Some(ParseDay(start).value * 86400)
      && calls[1].to == Some(ParseDay(end).value * 86400 + 86399)
  {
    if |calls| == 2 {
      assert search.Answered?;
      var coin := ResolveCoin(ItemsOf(search.items), ToUpper(symbol));
      assert coin.Some?;
      assert calls[1] == MarketRange(coin.value.id, ToLower(OrElse(convert, "USD")), RangeFrom(start), RangeTo(end));
    }
  }

  /**
   * A search that finds no coin is answered with 500 and the not-found
   * message, in both deployments, and no range request is made.
   */
  lemma NotFoundAnswers500(dep: Deployment, q: Query, search: Reply<Coin>, range: Reply<Sample>,
                           outcome: Outcome, calls: seq<Call>, closes: seq<nat>)
    requires Rejection(dep, q).None?
    requires search.Answered? && ItemsOf(search.items) == []
    requires Fetches(dep, SymbolParam(dep, q), DateParam(q.start), DateParam(q.end), ConvertParam(q),
                     search, range, outcome, calls, closes)
    ensures ResponseOf(dep, outcome)
      == Response(500, ErrorBody("Symbol " + SymbolParam(dep, q) + " not found on CoinGecko"))
    ensures |calls| == 1
  {
  }

  /**
   * A successful answer is a 200 whose symbol and currency are upper-case,
   * with one point per UTC day that has a usable sample; no prices (a
   * missing or non-array `prices` included) means no points.
   */
  lemma SuccessfulAnswer(dep: Deployment, q: Query, search: Reply<Coin>, range: Reply<Sample>,
                         outcome: Outcome, calls: seq<Call>, closes: seq<nat>)
    requires Rejection(dep, q).None?
    requires Fetches(dep, SymbolParam(dep, q), DateParam(q.start), DateParam(q.end), ConvertParam(q),
                     search, range, outcome, calls, closes)
    requires outcome.Done?
    ensures ResponseOf(dep, outcome).status == 200
    ensures ToUpper(outcome.series.symbol) == outcome.series.symbol
    ensures ToUpper(outcome.series.convert) == outcome.series.convert
    ensures range.Answered? && |outcome.series.points|
      == |AdmittedDays(VariantOf(dep), ToUtcYmd, ItemsOf(range.items), |ItemsOf(range.items)|)|
    ensures range.Answered? && ItemsOf(range.items) == [] ==> outcome.series.points == []
  {
    assert search.Answered?;
    var samples := ItemsOf(range.items);
    ToUpperIdempotent(ParamOr(q.convert, "USD"));
    SeriesHasOnePointPerDay(VariantOf(dep), ToUtcYmd, samples, outcome.series.points, closes);
  }
}
