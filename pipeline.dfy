/**
 * What the three copies of the daily-close pipeline have in common around
 * the reducer: the two CoinGecko requests they issue, the payload they
 * produce, and the JavaScript idioms `a || b` and `Array.isArray(x) ? x : []`
 * that they use to read parameters and upstream answers.
 */
module Pipeline {
  import opened Options
  import opened DailyReducer

  /** An outbound CoinGecko request, recorded in the order it is issued. */
  datatype Call =
    | Search(query: string)
    | MarketRange(coinId: string, vsCurrency: string, from: Option<int>, to: Option<int>)

  /** `{ symbol, name: coin.name, convert, points }`; a coin may lack a name. */
  datatype Series = Series(symbol: string, name: Option<string>, convert: string, points: seq<Point>)

  /** `s || fallback` for a string: the empty string counts as absent. */
  function OrElse(s: string, fallback: string): (r: string)
    ensures r == s || r == fallback
    ensures r == "" ==> s == "" && fallback == ""
    ensures s != "" ==> r == s
  {
    if s == "" then fallback else s
  }

  /**
   * `String(p || fallback)` for an optional string parameter: the parameter
   * when it is present and non-empty, otherwise the fallback.
   */
  function ParamOr(p: Option<string>, fallback: string): (r: string)
    ensures p.Some? && p.value != "" ==> r == p.value
    ensures p.None? || p.value == "" ==> r == fallback
  {
    match p
    case Some(s) => OrElse(s, fallback)
    case None => fallback
  }

  /** An optional string field read where only a non-empty string is truthy. */
  function FieldText(p: Option<string>): string
  {
    match p
    case Some(s) => s
    case None => ""
  }

  /**
   * `Array.isArray(data?.field) ? data.field : []`: None stands for a field
   * that is missing or not an array.
   */
  function ItemsOf<T>(field: Option<seq<T>>): (r: seq<T>)
    ensures field.Some? ==> r == field.value
    ensures field.None? ==> r == []
  {
    match field
    case Some(items) => items
    case None => []
  }
}
