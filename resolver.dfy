/**
 * `resolveCoinGeckoCoin` and the coin selection of the browser copy: among
 * the search hits, the first whose upper-cased symbol equals the upper-cased
 * query, else the first hit, else nothing.
 */
module Resolver {
  import opened Options
  import opened Text

  /** A search hit `{ id, symbol, name }`; symbol and name may be missing. */
  datatype Coin = Coin(id: string, symbol: Option<string>, name: Option<string>)

  /** `String(c.symbol || '').toUpperCase()`. */
  function SymbolKey(c: Coin): string {
    match c.symbol
    case Some(s) => ToUpper(s)
    case None => ""
  }

  /** The hit's symbol equals the query, ignoring ASCII case. */
  predicate IsExact(c: Coin, query: string) {
    SymbolKey(c) == ToUpper(query)
  }

  /** `coins.find(...)`: the index of the first exact hit, if any. */
  function FindExact(coins: seq<Coin>, query: string): (r: Option<nat>)
    ensures r.Some? ==> (r.value < |coins| && IsExact(coins[r.value], query)
      && forall j :: 0 <= j < r.value ==> !IsExact(coins[j], query))
    ensures r.None? ==> forall j :: 0 <= j < |coins| ==> !IsExact(coins[j], query)
  {
    if coins == [] then None
    else if IsExact(coins[0], query) then Some(0)
    else
      match FindExact(coins[1..], query)
      case Some(i) => Some(i + 1)
      case None => None
  }

  /**
   * `exact || coins[0] || null`: the first exact hit; failing that the first
   * hit; and nothing only when there are no hits.
   */
  function ResolveCoin(coins: seq<Coin>, query: string): (r: Option<Coin>)
    ensures r.None? <==> coins == []
    ensures forall i :: (0 <= i < |coins| && IsExact(coins[i], query)
      && (forall j :: 0 <= j < i ==> !IsExact(coins[j], query))) ==> r == Some(coins[i])
    ensures coins != [] && (forall i :: 0 <= i < |coins| ==> !IsExact(coins[i], query))
      ==> r == Some(coins[0])
  {
    match FindExact(coins, query)
    case Some(i) => Some(coins[i])
    case None => if coins == [] then None else Some(coins[0])
  }

  /** Matching ignores the query's case: upper-casing it first changes nothing. */
  lemma ResolveIgnoresQueryCase(coins: seq<Coin>, query: string)
    ensures ResolveCoin(coins, ToUpper(query)) == ResolveCoin(coins, query)
  {
    ToUpperIdempotent(query);
    assert forall c :: IsExact(c, ToUpper(query)) == IsExact(c, query);
  }

  /** Looking up "BTC" among hits for ETH and then BTC picks the BTC hit, whatever comes first. */
  lemma ResolveExample(eth: Coin, btc: Coin)
    requires eth.symbol == Some("ETH") && btc.symbol == Some("btc")
    ensures ResolveCoin([eth, btc], "BTC") == Some(btc)
  {
    var upper := ToUpper("BTC");
    assert upper[0] == 'B' && upper[1] == 'T' && upper[2] == 'C';
    assert upper == "BTC";
    assert SymbolKey(eth)[0] == 'E';
    var key := SymbolKey(btc);
    assert key[0] == 'B' && key[1] == 'T' && key[2] == 'C';
    var coins := [eth, btc];
    assert IsExact(coins[1], "BTC") && !IsExact(coins[0], "BTC");
    assert forall j :: 0 <= j < 1 ==> !IsExact(coins[j], "BTC");
  }
}
