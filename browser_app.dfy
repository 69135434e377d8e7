/**
 * The static-site copy of the pipeline: `fetchAndRender` with the part of
 * the page it updates (the status line, the point count, the average and
 * the busy button), and `fetchDailyCloseFromCoinGecko`, which calls
 * CoinGecko from the browser with `fetch`.
 *
 * The form values and the two `fetch` results are inputs; the requests the
 * page issues are returned in order.
 */
module BrowserApp {
  import opened Options
  import opened Text
  import opened Calendar
  import opened UtcDates
  import opened Resolver
  import opened DailyReducer
  import opened Pipeline

  /**
   * What a `fetch` plus `.json()` gives: a rejection or a throwing `.json()`
   * with its message; a response that is not ok, with its status and the
   * `error` field of its JSON body if any; or an ok response whose array
   * field is given (None when it is missing or not an array).
   */
  datatype Fetched<T> =
    | Rejected(message: string)
    | NotOk(status: nat, error: Option<string>)
    | Ok(items: Option<seq<T>>)

  /** What `fetchDailyCloseFromCoinGecko` resolves to, or the message it rejects with. */
  datatype Outcome = Done(series: Series) | Failed(message: string)

  /** The status line's type: `''`, `'error'` or `'warn'`. */
  datatype StatusKind = Plain | Error | Warn

  /**
   * The average cell: `—` for no points, otherwise the mean of the finite
   * prices followed by the currency (the mean itself is not computed here).
   */
  datatype Average = Dash | MeanOf(prices: seq<real>, convert: string)

  const MissingInputs: string := "Please provide start, and end dates."
  const StartAfterEndMessage: string := "Start date must be before or equal to End date."
  const NoData: string := "No data returned for given inputs. Try different dates or symbol."
  const Unexpected: string := "Unexpected error occurred"
  const LoadingLabel: string := "Loading…"
  const IdleLabel: string := "Fetch"

  /**
   * `points.map(p => Number(p.price)).filter(Number.isFinite)`: every finite
   * price and nothing else; all of them when every price is finite.
   */
  function FinitePrices(points: seq<Point>): (r: seq<real>)
    ensures |r| <= |points|
    ensures forall x :: x in r ==> exists p :: p in points && p.price == Finite(x)
    ensures forall p :: p in points && p.price.Finite? ==> p.price.value in r
    ensures |r| == |points| <==> forall i :: 0 <= i < |points| ==> points[i].price.Finite?
  {
    if points == [] then []
    else
      var rest := FinitePrices(points[1..]);
      assert forall p :: p in points[1..] ==> p in points;
      match points[0].price
      case Finite(x) => [x] + rest
      case _ => rest
  }

  /**
   * The filter keeps the order of the points: the finite prices of two runs
   * of points are those of the first run followed by those of the second.
   */
  lemma {:induction false} FinitePricesAppend(a: seq<Point>, b: seq<Point>)
    ensures FinitePrices(a + b) == FinitePrices(a) + FinitePrices(b)
  {
    if a == [] {
      assert a + b == b;
    } else {
      assert (a + b)[1..] == a[1..] + b;
      FinitePricesAppend(a[1..], b);
    }
  }

  /**
   * The message `fetchAndRender` shows before any request, or None when the
   * inputs pass; the order message only for dates that both name real days.
   */
  function InputProblem(symbolInput: string, start: string, end: string): (r: Option<string>)
    ensures r.Some? ==> r.value == MissingInputs || r.value == StartAfterEndMessage
    ensures r == Some(StartAfterEndMessage) ==> ParseDay(start).Some? && ParseDay(end).Some?
  {
    if Trim(symbolInput) == "" || start == "" || end == "" then Some(MissingInputs)
    else if StartAfterEnd(start, end) then Some(StartAfterEndMessage)
    else None
  }

  /**
   * What `fetchDailyCloseFromCoinGecko` does with the given answers: a search
   * for the symbol as entered; a failure when it fails or finds no coin;
   * otherwise a range request for the resolved coin in the lower-cased
   * currency; a failure when that fails, carrying the body's `error` text
   * when it has one; otherwise the daily series of the samples, with the
   * symbol as entered and the currency upper-cased.
   */
  ghost predicate Fetches(symbol: string, start: string, end: string, convert: string,
                          search: Fetched<Coin>, range: Fetched<Sample>,
                          outcome: Outcome, calls: seq<Call>, closes: seq<nat>)
  {
    match search
    case Rejected(message) => calls == [Search(symbol)] && outcome == Failed(message)
    case NotOk(status, _) =>
      calls == [Search(symbol)] && outcome == Failed("CoinGecko search failed: " + NatToString(status))
    case Ok(found) =>
      match ResolveCoin(ItemsOf(found), ToUpper(symbol))
      case None =>
        calls == [Search(symbol)] && outcome == Failed("Symbol " + symbol + " not found on CoinGecko")
      case Some(coin) =>
        calls == [Search(symbol),
                  MarketRange(coin.id, ToLower(OrElse(convert, "USD")), RangeFrom(start), RangeTo(end))]
        && match range
           case Rejected(message) => outcome == Failed(message)
           case NotOk(status, error) =>
             outcome == Failed(OrElse(FieldText(error), "CoinGecko range failed: " + NatToString(status)))
           case Ok(prices) =>
             outcome.Done? && outcome.series.symbol == symbol && outcome.series.name == coin.name
             && outcome.series.convert == ToUpper(convert)
             && IsDailySeries(SkipNonFinite, ToUtcYmd, ItemsOf(prices), outcome.series.points, closes)
  }

  /** `fetchDailyCloseFromCoinGecko(symbol, startYmd, endYmd, convert)`. */
  method FetchDailyCloseFromCoinGecko(symbol: string, startYmd: string, endYmd: string, convert: string,
                                      search: Fetched<Coin>, range: Fetched<Sample>)
    returns (outcome: Outcome, calls: seq<Call>, ghost closes: seq<nat>)
    ensures Fetches(symbol, startYmd, endYmd, convert, search, range, outcome, calls, closes)
  {
    var vs := ToLower(OrElse(convert, "USD"));
    calls := [Search(symbol)];
    closes := [];
    match search {
      case Rejected(message) =>
        outcome := Failed(message);
        return;
      case NotOk(status, _) =>
        outcome := Failed("CoinGecko search failed: " + NatToString(status));
        return;
      case Ok(found) =>
        var coins := ItemsOf(found);
        var coin := ResolveCoin(coins, ToUpper(symbol));
        if coin.None? {
          outcome := Failed("Symbol " + symbol + " not found on CoinGecko");
          return;
        }
        var from := RangeFrom(startYmd);
        var to := RangeTo(endYmd);
        calls := calls + [MarketRange(coin.value.id, vs, from, to)];
        match range {
          case Rejected(message) =>
            outcome := Failed(message);
          case NotOk(status, error) =>
            outcome := Failed(OrElse(FieldText(error), "CoinGecko range failed: " + NatToString(status)));
          case Ok(prices) =>
            var points;
            points, closes := DailyClose(SkipNonFinite, ToUtcYmd, ItemsOf(prices));
            outcome := Done(Series(symbol, coin.value.name, ToUpper(convert), points));
        }
    }
  }

  /** The part of the page the pipeline writes to. */
  class Page {
    var statusHidden: bool
    var statusText: string
    var statusKind: StatusKind
    var pointCount: string
    var overallAverage: Average
    var busy: bool
    var buttonLabel: string

    /** `showStatus(message, type)`: an empty message hides the line. */
    method ShowStatus(message: string, kind: StatusKind)
      modifies this
      ensures message == "" ==> statusHidden && statusText == "" && statusKind == Plain
      ensures message != "" ==> !statusHidden && statusText == message && statusKind == kind
      ensures pointCount == old(pointCount) && overallAverage == old(overallAverage)
      ensures busy == old(busy) && buttonLabel == old(buttonLabel)
    {
      if message == "" {
        statusHidden, statusText, statusKind := true, "", Plain;
        return;
      }
      statusHidden, statusText, statusKind := false, message, kind;
    }

    /** `setLoading(loading)`: the button is disabled and relabelled while a request runs. */
    method SetLoading(loading: bool)
      modifies this
      ensures busy == loading && buttonLabel == (if loading then LoadingLabel else IdleLabel)
      ensures statusHidden == old(statusHidden) && statusText == old(statusText)
      ensures statusKind == old(statusKind)
      ensures pointCount == old(pointCount) && overallAverage == old(overallAverage)
    {
      busy := loading;
      buttonLabel := if loading then LoadingLabel else IdleLabel;
    }

    /**
     * `renderSummary(payload, convert)`: the count cell shows the number of
     * points in decimal, and the average cell shows `—` exactly when there
     * are none.
     */
    method RenderSummary(points: seq<Point>, convert: string)
      modifies this
      ensures pointCount == NatToString(|points|) && DigitsValue(pointCount) == |points|
      ensures overallAverage == Dash <==> points == []
      ensures points != [] ==> overallAverage == MeanOf(FinitePrices(points), convert)
      ensures statusHidden == old(statusHidden) && statusText == old(statusText)
      ensures statusKind == old(statusKind) && busy == old(busy) && buttonLabel == old(buttonLabel)
    {
      pointCount := NatToString(|points|);
      if |points| == 0 {
        overallAverage := Dash;
        return;
      }
      overallAverage := MeanOf(FinitePrices(points), convert);
    }

    /**
     * `fetchAndRender()`. Inputs that fail the checks show an error and
     * change nothing else, before any request. Otherwise the page ends idle
     * and shows what the fetch gave: the summary of the series and the
     * no-data warning exactly when it is empty, or the failure's message.
     */
    method FetchAndRender(symbolInput: string, startInput: string, endInput: string, convertInput: string,
                          search: Fetched<Coin>, range: Fetched<Sample>)
      returns (calls: seq<Call>, ghost outcome: Outcome, ghost closes: seq<nat>)
      modifies this
      ensures InputProblem(symbolInput, startInput, endInput).Some? ==>
        calls == [] && !statusHidden && statusKind == Error
        && statusText == InputProblem(symbolInput, startInput, endInput).value
        && pointCount == old(pointCount) && overallAverage == old(overallAverage)
        && busy == old(busy) && buttonLabel == old(buttonLabel)
      ensures InputProblem(symbolInput, startInput, endInput).None? ==>
        Fetches(Trim(symbolInput), startInput, endInput, convertInput, search, range, outcome, calls, closes)
        && !busy && buttonLabel == IdleLabel
      ensures InputProblem(symbolInput, startInput, endInput).None? && outcome.Done? ==>
        pointCount == NatToString(|outcome.series.points|)
        && (overallAverage == Dash <==> outcome.series.points == [])
        && (outcome.series.points == [] ==> !statusHidden && statusText == NoData && statusKind == Warn)
        && (outcome.series.points != [] ==> statusHidden)
      ensures InputProblem(symbolInput, startInput, endInput).None? && outcome.Failed? ==>
        !statusHidden && statusKind == Error && statusText == OrElse(outcome.message, Unexpected)
        && pointCount == old(pointCount) && overallAverage == old(overallAverage)
    {
      var symbol := Trim(symbolInput);
      var start := startInput;
      var end := endInput;
      var convert := convertInput;
      outcome, closes := Failed(""), [];
      if symbol == "" || start == "" || end == "" {
        ShowStatus(MissingInputs, Error);
        calls := [];
        return;
      }
      if StartAfterEnd(start, end) {
        ShowStatus(StartAfterEndMessage, Error);
        calls := [];
        return;
      }
      SetLoading(true);
      ShowStatus("", Plain);
      var result;
      result, calls, closes := FetchDailyCloseFromCoinGecko(symbol, start, end, convert, search, range);
      outcome := result;
      match result {
        case Done(data) =>
          RenderSummary(data.points, convert);
          if |data.points| == 0 {
            ShowStatus(NoData, Warn);
          }
        case Failed(message) =>
          ShowStatus(OrElse(message, Unexpected), Error);
      }
      SetLoading(false);
    }
  }

  /**
   * Only the entered inputs decide whether a request goes out: a blank
   * symbol, an empty date, or a start date after the end date (both being
   * real dates) stops the page before it fetches anything.
   */
  lemma InputProblemMeaning(symbolInput: string, start: string, end: string)
    ensures InputProblem(symbolInput, start, end) == Some(MissingInputs) <==>
      (forall i :: 0 <= i < |symbolInput| ==> IsTrimmable(symbolInput[i])) || start == "" || end == ""
    ensures InputProblem(symbolInput, start, end).None? <==>
      Trim(symbolInput) != "" && start != "" && end != ""
      && (ParseDay(start).Some? && ParseDay(end).Some? ==>
        MakeDay(DateFields(start)) <= MakeDay(DateFields(end)))
  {
    StartAfterEndMeaning(start, end);
  }

  /**
   * The search uses the symbol as entered (trimmed, not upper-cased), and
   * the series echoes it back unchanged while its currency is upper-cased.
   */
  lemma SymbolAsEntered(symbol: string, start: string, end: string, convert: string,
                        search: Fetched<Coin>, range: Fetched<Sample>,
                        outcome: Outcome, calls: seq<Call>, closes: seq<nat>)
    requires Fetches(symbol, start, end, convert, search, range, outcome, calls, closes)
    ensures 1 <= |calls| <= 2 && calls[0] == Search(symbol)
    ensures outcome.Done? ==>
      outcome.series.symbol == symbol && outcome.series.convert == ToUpper(convert)
      && |calls| == 2 && calls[1].MarketRange? && calls[1].vsCurrency == ToLower(OrElse(convert, "USD"))
  {
  }

  /**
   * A search answer without coins always fails with the not-found message,
   * and no range request is made.
   */
  lemma NoCoinsNotFound(symbol: string, start: string, end: string, convert: string,
                        found: Option<seq<Coin>>, range: Fetched<Sample>,
                        outcome: Outcome, calls: seq<Call>, closes: seq<nat>)
    requires ItemsOf(found) == []
    requires Fetches(symbol, start, end, convert, Ok(found), range, outcome, calls, closes)
    ensures outcome == Failed("Symbol " + symbol + " not found on CoinGecko") && |calls| == 1
  {
  }
}
