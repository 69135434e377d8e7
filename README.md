# Daily close of a CoinGecko price series, in Dafny

This project models the daily-close pipeline of the average price tracker.
The pipeline exists in three copies:

- the Netlify function `netlify/functions/daily-close.js`;
- the Express route `GET /api/daily-close` in `server.js`;
- the static page's `docs/app.js`, which calls CoinGecko from the browser.

Each copy runs the same steps:

1. It reads and validates a symbol, a start date, an end date and a currency.
2. It searches CoinGecko for the symbol.
3. It resolves a coin: the first exact case-insensitive symbol match, or else the first hit.
4. It requests the coin's market range from the start day's midnight to the end day's last second, in UTC seconds.
5. It folds the `[ms, price]` samples into one entry per UTC day. A day's entry is replaced only by a strictly later sample.
6. It sorts the entries by timestamp and strips the timestamps.

Modules:

- `Calendar`: the UTC calendar arithmetic of ECMA-262 (section 21.4.1) that `getUTCFullYear`, `getUTCMonth`, `getUTCDate` and `Date.parse` rely on.
- `Text`: decimal printing, `padStart(2, '0')`, ASCII `toUpperCase`/`toLowerCase` and `trim`.
- `UtcDates`: `toUtcYmd`, `endOfDayIso`, the `YYYY-MM-DD` regex, the date-only `Date.parse`, the `start > end` check and the `from`/`to` bounds.
- `Resolver`: `resolveCoinGeckoCoin` and the browser's copy of the same expression.
- `DailyReducer`: the `byDay` loop as a method with loop invariants, and the sort and strip.
  - It is proved against an independent specification: each emitted point belongs to the closing sample of its day. That sample is the admitted sample with the largest timestamp, and the earliest one among equal timestamps.
  - The reducer is generic in the day key; the pipeline instantiates it with `toUtcYmd`.
- `Pipeline`: the request and payload shapes the three copies share.
- `Handler`: the Netlify and Express handlers, one method parameterised by the deployment. The copies differ in:
  - the default symbol;
  - the entry filter (Netlify skips non-finite entries, Express keeps all);
  - one fallback in the error message.
- `BrowserApp`: `fetchDailyCloseFromCoinGecko`, and a `Page` class whose fields are the parts of the page that `fetchAndRender`, `renderSummary`, `setLoading` and `showStatus` update.

The CoinGecko answers are inputs to the handlers. The handlers return the requests they issue, in order.

When the search finds no coin, the Netlify copy sets `statusCode = 404` on its error. Its `catch` block reads only `err.response?.status`, so the answer is 500. The Express copy also answers 500. The model follows the code: `Handler.NotFoundError` and `Handler.NotFoundAnswers500` state the 500.

The model reads dates by the date-only form of ECMA-262's Date Time String Format. Under it, a date string that passes the regex but names no real date, such as `2024-13-40` or `2024-02-32`, parses to NaN. Comparing NaN with `>` yields false, so such a range passes the order check. `Date.parse` then gives NaN bounds, which the model records as absent `from`/`to` values. V8 differs for days 29 to 31 past the end of their month; see "## Left out".

## Model

| member | source | states |
|---|---|---|
| `Text.NatToString` | docs/app.js:118 | `String(n)` of a count is a non-empty digit string with no leading zero (unless n is 0) whose decimal value is n |
| `Text.NatToStringOfDigits` | docs/app.js:118 | every canonical decimal string is what `String(n)` prints for its own value: printing and reading digits are inverse |
| `Text.IntToString` | netlify/functions/daily-close.js:95-98 | the year in a template literal is a minus sign exactly when the year is negative, followed by the canonical decimal digits (no leading zero unless the year is 0) of its magnitude |
| `Text.IntToStringInjective` | server.js:68-71 | different years print differently |
| `Text.PadStart2` | netlify/functions/daily-close.js:96-97 | `padStart(2, '0')` keeps the string as its suffix, reaches length 2, and fills only with zeros |
| `Text.TwoDigits` | docs/app.js:224-225 | a month or day number below 100, padded, is two digits whose value is the number |
| `Text.TwoDigitsOfDigits` | server.js:69-70 | every two-digit string is the padded form of its own value |
| `Text.ToUpper` | netlify/functions/daily-close.js:8 | `toUpperCase` keeps the length and every character up to case, and leaves no lower-case ASCII letter |
| `Text.ToLower` | netlify/functions/daily-close.js:45 | `toLowerCase` keeps the length and every character up to case, and leaves no upper-case ASCII letter |
| `Text.ToUpperIdempotent` | netlify/functions/daily-close.js:89 | upper-casing an already upper-cased symbol changes nothing |
| `Text.ToUpperOfLower` | server.js:83 | the lower-cased currency sent upstream upper-cases back to the echoed currency |
| `Text.CaseKeepsEmptiness` | server.js:28-33 | changing case never makes a non-empty parameter empty, or an empty one non-empty |
| `Text.Trim` | netlify/functions/daily-close.js:9-10 | `trim()` gives the slice of the input left once its leading and trailing whitespace, and only that, is dropped: empty exactly when the input is all whitespace, otherwise starting and ending with non-whitespace |
| `Calendar.DayFromTime` | netlify/functions/daily-close.js:94-97 | the UTC day of a time value is floor(t / 86400000): the day whose milliseconds contain t |
| `Calendar.DayFromYearStep` | netlify/functions/daily-close.js:95 | the first days of consecutive years are 365 or 366 days apart, by the Gregorian leap rule |
| `Calendar.DayFromYearMonotone` | server.js:68 | later years start on later days |
| `Calendar.YearFromDay` | docs/app.js:223 | the year found for a day is the year whose days contain it |
| `Calendar.YearUnique` | netlify/functions/daily-close.js:95 | only one year contains a given day |
| `Calendar.MonthFromDayInYear` | netlify/functions/daily-close.js:96 | the month found for a day of the year is the month whose days contain it |
| `Calendar.DaysInMonth` | docs/app.js:225 | the Gregorian month lengths: February has 29 days exactly in a leap year and 28 otherwise; April, June, September and November have 30; the other months 31 |
| `Calendar.CivilFromDay` | netlify/functions/daily-close.js:94-97 | the UTC year, month and day of a day number form a real date that maps back to that day number |
| `Calendar.CivilOfMakeDay` | server.js:94 | every real date is the UTC date of its own day number: `Date.parse` and the UTC getters are inverse |
| `Calendar.MakeDayInYear` | server.js:69 | the day number of a real date lies inside its year |
| `UtcDates.FormatYmd` | server.js:66-72 | the `${y}-${m}-${day}` template: the printed year, a dash, two digits reading as the month, a dash, two digits reading as the day |
| `UtcDates.FormatYmdInjective` | netlify/functions/daily-close.js:93-99 | different real dates give different `toUtcYmd` strings |
| `UtcDates.FormatYmdIsNotInvalid` | netlify/functions/daily-close.js:98 | a real date never prints as `NaN-NaN-NaN` |
| `UtcDates.ToUtcYmd` | netlify/functions/daily-close.js:93-99 | `toUtcYmd(ms)` is `NaN-NaN-NaN` exactly when the timestamp lies outside the Date range |
| `UtcDates.SameYmdIffSameDay` | netlify/functions/daily-close.js:69-70 | two in-range timestamps get the same `byDay` key exactly when they fall on the same UTC day; an out-of-range one never shares a key with an in-range one |
| `UtcDates.DayFromTimeMonotone` | netlify/functions/daily-close.js:75-76 | a later timestamp never falls on an earlier UTC day |
| `UtcDates.EndOfDayIso` | netlify/functions/daily-close.js:101-103 | `endOfDayIso(ymd)` is `ymd` followed by exactly `T23:59:59.999Z` |
| `UtcDates.EndOfDayIsoInjective` | server.js:74-76 | different days get different end-of-day instants |
| `UtcDates.ParseDay` | netlify/functions/daily-close.js:21 | `new Date(s)` on a date-only string is a day exactly when the string matches the regex and names a real date, and that day's UTC date is the date written |
| `UtcDates.MatchesDateRegex` | netlify/functions/daily-close.js:17-18 | the regex accepts exactly the ten-character strings with dashes at positions 4 and 7 and a decimal digit everywhere else |
| `UtcDates.StartAfterEnd` | server.js:44 | `new Date(start) > new Date(end)` holds exactly when both strings name real days and the end day comes before the start day |
| `UtcDates.ParseDayRoundTrip` | docs/app.js:221-227 | a date string with a four-digit year from 1000 on is exactly what `toUtcYmd` prints for every instant of its day |
| `UtcDates.ToUtcYmdParses` | server.js:66-72 | the `toUtcYmd` string of an instant in the years 1000 to 9999 parses back to the instant's day |
| `UtcDates.MakeDayOrder` | server.js:44 | day numbers follow the order of dates: by year, then by month, then by day |
| `UtcDates.StartAfterEndMeaning` | netlify/functions/daily-close.js:21-23 | for real dates, the order check rejects exactly when the end date comes before the start date; when either string names no real date it never rejects |
| `UtcDates.RangeBounds` | server.js:94-95 | the range asked for spans 86400 seconds for each day after the start day, plus 86399 |
| `UtcDates.RangeFrom` | docs/app.js:192 | `from` is a number exactly when the start date names a real day, and is then that day times 86400 |
| `UtcDates.RangeTo` | docs/app.js:193 | `to` is a number exactly when the end date names a real day, and is then that day times 86400, plus 86399 |
| `UtcDates.DaySeconds` | netlify/functions/daily-close.js:58-59 | flooring the first and the last millisecond of a day to seconds gives the day's first and last second |
| `UtcDates.RangeCoversDays` | netlify/functions/daily-close.js:58-59 | a millisecond lies in the requested seconds exactly when it falls on a day from the start day to the end day |
| `Resolver.FindExact` | netlify/functions/daily-close.js:89 | `coins.find(...)` returns the first hit whose symbol equals the query ignoring ASCII case, or none when no hit does |
| `Resolver.ResolveCoin` | server.js:121-128 | the coin chosen is the first exact hit, else the first hit, and nothing exactly when there are no hits |
| `Resolver.ResolveIgnoresQueryCase` | netlify/functions/daily-close.js:86-91 | upper-casing the query first does not change the coin chosen |
| `Resolver.ResolveExample` | docs/app.js:187-189 | an exact match wins over an earlier inexact hit |
| `DailyReducer.Admitted` | netlify/functions/daily-close.js:66-68 | Netlify (and the browser) admit a sample exactly when both its timestamp and its price are finite; Express admits every sample with a numeric timestamp, whatever its price |
| `DailyReducer.AdmittedDaysMember` | netlify/functions/daily-close.js:68-69 | every sample that passes the filter contributes its day |
| `DailyReducer.CloseUnique` | netlify/functions/daily-close.js:71 | a day has at most one closing sample |
| `DailyReducer.CloseExists` | docs/app.js:204-212 | every day with an admitted sample has a closing sample among the samples seen so far |
| `DailyReducer.SkipStep` | netlify/functions/daily-close.js:68 | skipping a filtered-out sample keeps the map equal to the closes of the samples seen |
| `DailyReducer.TakeStep` | netlify/functions/daily-close.js:70-72 | storing a sample for a new day, or for a day whose entry is strictly earlier, keeps the map equal to the closes |
| `DailyReducer.KeepStep` | server.js:106 | keeping the entry when the new sample is not strictly later keeps the map equal to the closes |
| `DailyReducer.ReduceByDay` | netlify/functions/daily-close.js:64-74 | after the loop, `byDay` holds exactly one entry per admitted day, that of the day's closing sample, and its key order lists each key once |
| `DailyReducer.AbsorbSample` | docs/app.js:204-212 | one pass of the loop body keeps that invariant for one more sample |
| `DailyReducer.InsertByTs` | server.js:111 | inserting an entry into a sorted list keeps every entry and adds the new one |
| `DailyReducer.InsertAscending` | server.js:110-111 | inserting an entry whose timestamp differs from every other keeps the list in ascending timestamp order |
| `DailyReducer.SortByTs` | netlify/functions/daily-close.js:75-76 | the sort keeps every entry: the result is a permutation |
| `DailyReducer.SortAscending` | docs/app.js:214-215 | entries with distinct timestamps come out in strictly ascending order |
| `DailyReducer.StripTs` | netlify/functions/daily-close.js:77 | the map to `{ date, price }` keeps the order, date and price of each entry |
| `DailyReducer.DailyClose` | netlify/functions/daily-close.js:63-77 | the points are the end-of-day instants and prices of the closing samples of the admitted days, each day once, in ascending timestamp order |
| `DailyReducer.SeriesDaysDistinct` | server.js:101-112 | no day appears twice in the series |
| `DailyReducer.SeriesDaysAreAdmittedDays` | docs/app.js:203-216 | the series' days are exactly the days of the admitted samples |
| `DailyReducer.SeriesHasOnePointPerDay` | netlify/functions/daily-close.js:64-77 | the series has as many points as there are days with an admitted sample |
| `DailyReducer.SeriesDaysAscending` | netlify/functions/daily-close.js:75-77 | with `toUtcYmd` as the key, and every close a valid Date, the points come in strictly ascending order of their UTC days |
| `DailyReducer.SeriesUnique` | server.js:110-112 | the specification determines the series: two series that meet it are equal |
| `Pipeline.OrElse` | netlify/functions/daily-close.js:28 | the JavaScript fallback `s or fallback` on strings is `s` unless `s` is empty, and is empty only when both are |
| `Pipeline.ParamOr` | server.js:28-31 | `String(p or fallback)`: the parameter when it is given and non-empty, otherwise the fallback |
| `Pipeline.ItemsOf` | netlify/functions/daily-close.js:63 | `Array.isArray(x) ? x : []`: the items when the field is an array, otherwise no items |
| `Handler.SymbolParam` | netlify/functions/daily-close.js:8 | the symbol parameter is never empty and is already upper-case; it is the upper-cased parameter when one is given, else the deployment's default (`AI3` for Netlify, `BTC` for Express) |
| `Handler.DateParam` | netlify/functions/daily-close.js:9-10 | a date parameter is empty when missing, and otherwise the parameter with its leading and trailing white space dropped, starting and ending with non-whitespace |
| `Handler.ConvertParam` | server.js:31 | the currency is never empty and already upper-case: the upper-cased parameter when one is given, else `USD` |
| `Handler.BlankMeaning` | server.js:29-30 | a date parameter trims to empty exactly when it is missing, empty or all whitespace |
| `Handler.Rejection` | server.js:33-46 | a rejection carries one of the three messages; the format message comes only for present dates of which one fails the regex, and the order message only for dates that match the regex |
| `Handler.RejectionMeaning` | netlify/functions/daily-close.js:13-23 | the missing-parameter error fires exactly when a date is blank; the format error exactly when both are present and one fails the regex; the order error exactly when both match the regex and the start date is after the end date; a request passes exactly when both dates match the regex and, where both are real dates, the start is not after the end |
| `Handler.ErrorStatus` | netlify/functions/daily-close.js:29 | the answer's status is the upstream status when there is a non-zero one, and 500 when the error has no upstream response or its status is 0 |
| `Handler.ErrorMessage` | server.js:52 | the error message is never empty: the upstream `error` text when there is one; else, in the Express copy, the upstream `status.error_message` when there is one; else the thrown message, or `Unknown error` when that is empty |
| `Handler.NotFoundError` | netlify/functions/daily-close.js:52-56 | the not-found error reads `Symbol X not found on CoinGecko`, carries `statusCode` 404 in the Netlify copy, and is answered with status 500 |
| `Handler.ResponseOf` | netlify/functions/daily-close.js:25-29 | the answer carries a series exactly when the fetch succeeded, and then has status 200; otherwise the status is `err.response?.status or 500` (`ErrorStatus`) and the body is the error message chosen in the deployment's order (`ErrorMessage`), never empty |
| `Handler.FetchCoinGeckoDailyClose` | server.js:82-119 | one search for the symbol; a throw when it fails or finds no coin; otherwise one range request for the resolved coin in the lower-cased currency between the bounds of the two dates; then the throw of that request or the daily series of its samples, with the coin's name and the upper-cased currency |
| `Handler.HandleDailyClose` | netlify/functions/daily-close.js:5-31 | a rejected request is answered with 400 and its message before any upstream request; an accepted one is answered with 200 and the series, or with `ErrorStatus` and `ErrorMessage` of the thrown error |
| `Handler.FetchCalls` | netlify/functions/daily-close.js:44-62 | the search comes first and at most one range request follows, in the lower-cased currency, from the start day's midnight to the end day's last second |
| `Handler.NotFoundAnswers500` | server.js:89-92 | a search without coins is answered with 500 and the not-found message, and no range request is made |
| `Handler.SuccessfulAnswer` | server.js:48-49 | a successful answer has status 200, an upper-case symbol and currency, and one point per day with an admitted sample; no prices give no points |
| `BrowserApp.FinitePrices` | docs/app.js:123 | the finite prices are exactly the prices of the points that are finite: each is some point's price, every finite price is among them, and they are as many as the points exactly when every price is finite |
| `BrowserApp.FinitePricesAppend` | docs/app.js:123 | the filter keeps the order of the points: the finite prices of two runs of points are those of the first followed by those of the second |
| `BrowserApp.FetchDailyCloseFromCoinGecko` | docs/app.js:181-219 | the browser fetch: failed search with its status, not found, range failure with the body's `error` text or the status, or the daily series with finite entries only |
| `BrowserApp.Page.ShowStatus` | docs/app.js:134-144 | an empty message hides and clears the status line; otherwise it shows the message with its kind; nothing else changes |
| `BrowserApp.Page.SetLoading` | docs/app.js:128-132 | the button is busy and reads `Loading…` while loading, and is idle and reads `Fetch` otherwise; nothing else changes |
| `BrowserApp.Page.RenderSummary` | docs/app.js:116-126 | the count cell shows the number of points in decimal; the average cell shows `—` exactly when there are no points, and otherwise the mean of the finite prices |
| `BrowserApp.Page.FetchAndRender` | docs/app.js:33-63 | bad inputs show an error and change nothing else, with no request; otherwise the page ends idle and shows the summary, a no-data warning exactly when the series is empty, or the failure's message (`Unexpected error occurred` when it is empty) |
| `BrowserApp.InputProblem` | docs/app.js:39-46 | the page's own check carries one of its two messages, and the order message only when both dates name real days |
| `BrowserApp.InputProblemMeaning` | docs/app.js:39-46 | the page stops before fetching exactly when the symbol is blank, a date is empty, or both dates are real and the start is after the end |
| `BrowserApp.SymbolAsEntered` | docs/app.js:218 | the browser searches for the symbol as entered (trimmed, not upper-cased), echoes it unchanged and upper-cases only the currency |
| `BrowserApp.NoCoinsNotFound` | docs/app.js:187-190 | a search answer without coins fails with the not-found message, and no range request is made |

## Left out

- Network and timing: the axios client, `fetch`, `safeJson`, the 20-second timeout and the URL encoding. The CoinGecko answers are inputs, and the requests are recorded as values.
- Hosting plumbing: the Express middleware, static serving, SPA fallback and `listen`, and the Netlify `respond` headers. A response is modelled as its status and JSON body.
- `public/app.js`: it calls the app's own endpoint and duplicates the checks of `docs/app.js`.
- `renderChart` and Chart.js.
- The floating-point mean and `formatNumber`. The average cell records the finite prices and the currency instead of the formatted mean.
- Prices are carried unchanged and never computed with.
- Host-timezone functions (`initDates`, `formatDate`, `toLocalDate`).
- Non-integer millisecond timestamps: timestamps are integers.
- Case mapping beyond ASCII.
- Legacy `Date` parsing of strings that are not in the date-only form. The handlers only compare strings that pass the regex, and date inputs give `YYYY-MM-DD` or the empty string.
- Date parsing on V8, which runs the Netlify function and the Express server (and Chromium browsers). V8 accepts days 01 to 31 in any month and rolls them over, so `2024-02-30` is 2024-03-01 there. The model follows the ECMA-262 date-only format instead, which yields NaN for such a day. On V8, start `2024-02-31` with end `2024-03-01` is rejected by the order check and gets real `from`/`to` values; in the model it passes and gets absent bounds. Days past 31, months past 12 and month or day 00 give NaN on V8 as in the model.
- Repeated or array-valued query parameters: every parameter is a single string or missing.
- `Handler.HandleDailyClose`: requires finite numeric timestamps from the Express copy's upstream. That copy passes every entry to `toUtcYmd` unchecked: a non-numeric one gives a `NaN-NaN-NaN` key or a string comparison, and ±Infinity gives a `NaN-NaN-NaN` key.
- `Handler.FetchCoinGeckoDailyClose`: requires finite numeric timestamps from the Express copy's upstream, for the same reason.
- An entry that is not iterable, which makes the Express copy throw inside the loop.
