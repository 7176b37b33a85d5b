/** The token catalog (tokenService.ts): the price feed is folded into a
    map from currency to price (later entries overwrite earlier ones), each
    entry becomes a token with a display name and an icon address, and the
    tokens are sorted by symbol.  The HTTP request itself is an input: its
    outcome is either the list of feed entries or a failure. */
module TokenService {
  import opened Wrappers
  import opened Types
  import opened SymbolOrder

  const TokenIconsBaseUrl: string := "https://raw.githubusercontent.com/Switcheo/token-icons/main/tokens"

  /** The fixed display names; any other symbol is its own name. */
  const TokenNames: map<string, string> := map[
    "ETH" := "Ethereum",
    "BTC" := "Bitcoin",
    "USDC" := "USD Coin",
    "SWTH" := "Switcheo",
    "BUSD" := "Binance USD",
    "USDT" := "Tether"]

  /** `getTokenName`. */
  function TokenName(symbol: string): (name: string)
    ensures symbol == "ETH" ==> name == "Ethereum"
    ensures symbol == "BTC" ==> name == "Bitcoin"
    ensures symbol == "USDC" ==> name == "USD Coin"
    ensures symbol == "SWTH" ==> name == "Switcheo"
    ensures symbol == "BUSD" ==> name == "Binance USD"
    ensures symbol == "USDT" ==> name == "Tether"
    ensures name == symbol <==> symbol !in ["ETH", "BTC", "USDC", "SWTH", "BUSD", "USDT"]
  {
    if symbol in TokenNames then TokenNames[symbol] else symbol
  }

  /** `fetchTokenPrices`: a failed request is logged and yields no entries. */
  function FetchTokenPrices(response: Option<seq<TokenPrice>>): (prices: seq<TokenPrice>)
    ensures response.Some? ==> prices == response.value
    ensures response.None? ==> prices == []
  {
    match response
    case Some(prices) => prices
    case None => []
  }

  /** The map the feed folds into: each entry overwrites its currency's price. */
  function PriceMapOf(prices: seq<TokenPrice>): map<string, Price> {
    if prices == [] then map[]
    else
      var last := prices[|prices| - 1];
      PriceMapOf(prices[..|prices| - 1])[last.currency := last.price]
  }

  /** Entry `i` is the last one of its currency. */
  predicate IsLastOccurrence(prices: seq<TokenPrice>, i: int) {
    0 <= i < |prices| && forall j :: i < j < |prices| ==> prices[j].currency != prices[i].currency
  }

  predicate NoDuplicates(s: seq<string>) {
    forall i, j :: 0 <= i < j < |s| ==> s[i] != s[j]
  }

  /** The map has exactly one key per currency of the feed. */
  lemma {:induction false} PriceMapKeys(prices: seq<TokenPrice>)
    ensures forall c :: c in PriceMapOf(prices) <==>
      exists i :: 0 <= i < |prices| && prices[i].currency == c
  {
    if prices != [] {
      var init := prices[..|prices| - 1];
      PriceMapKeys(init);
      assert forall i :: 0 <= i < |init| ==> init[i] == prices[i];
    }
  }

  /** A currency that appears several times keeps the price of its last entry. */
  lemma {:induction false} LastWriteWins(prices: seq<TokenPrice>, i: int)
    requires IsLastOccurrence(prices, i)
    ensures prices[i].currency in PriceMapOf(prices)
    ensures PriceMapOf(prices)[prices[i].currency] == prices[i].price
  {
    if i < |prices| - 1 {
      var init := prices[..|prices| - 1];
      assert init[i] == prices[i];
      assert IsLastOccurrence(init, i);
      LastWriteWins(init, i);
    }
  }

  /** Every currency that occurs has a last occurrence. */
  lemma {:induction false} LastOccurrenceExists(prices: seq<TokenPrice>, k: int)
    requires 0 <= k < |prices|
    ensures exists i :: IsLastOccurrence(prices, i) && prices[i].currency == prices[k].currency
    decreases |prices| - k
  {
    if !IsLastOccurrence(prices, k) {
      var j :| k < j < |prices| && prices[j].currency == prices[k].currency;
      LastOccurrenceExists(prices, j);
    }
  }

  /** The `forEach` loop filling `priceMap`; `order` is the map's insertion
      order (a JavaScript `Map` keeps the position of a key's first `set`). */
  method BuildPriceMap(prices: seq<TokenPrice>) returns (priceMap: map<string, Price>, order: seq<string>)
    ensures priceMap == PriceMapOf(prices)
    ensures forall c :: c in order <==> c in priceMap
    ensures NoDuplicates(order)
  {
    priceMap := map[];
    order := [];
    for i := 0 to |prices|
      invariant priceMap == PriceMapOf(prices[..i])
      invariant forall c :: c in order <==> c in priceMap
      invariant NoDuplicates(order)
    {
      var item := prices[i];
      assert prices[..i + 1][..i] == prices[..i];
      if item.currency !in priceMap {
        order := order + [item.currency];
      }
      priceMap := priceMap[item.currency := item.price];
    }
    assert prices[..|prices|] == prices;
  }

  /** One catalog entry, built from a map entry. */
  function BuildToken(symbol: string, price: Price): Token {
    Token(TokenName(symbol), symbol, Some(price), TokenIconsBaseUrl + "/" + symbol + ".svg")
  }

  function BuildTokens(order: seq<string>, priceMap: map<string, Price>): seq<Token>
    requires forall c :: c in order ==> c in priceMap
  {
    seq(|order|, i requires 0 <= i < |order| => BuildToken(order[i], priceMap[order[i]]))
  }

  predicate SortedBySymbol(ts: seq<Token>) {
    forall i, j :: 0 <= i < j < |ts| ==> SymbolLessEq(ts[i].symbol, ts[j].symbol)
  }

  /** Insert `t` before the first token whose symbol it does not follow. */
  function InsertBySymbol(t: Token, ts: seq<Token>): (r: seq<Token>)
    ensures multiset(r) == multiset(ts) + multiset{t}
  {
    if ts == [] then [t]
    else if SymbolLessEq(t.symbol, ts[0].symbol) then [t] + ts
    else
      assert ts == [ts[0]] + ts[1..];
      [ts[0]] + InsertBySymbol(t, ts[1..])
  }

  /** `tokens.sort(...)` by symbol: an insertion sort. */
  function SortBySymbol(ts: seq<Token>): (r: seq<Token>)
    ensures multiset(r) == multiset(ts)
  {
    if ts == [] then []
    else
      assert ts == [ts[0]] + ts[1..];
      InsertBySymbol(ts[0], SortBySymbol(ts[1..]))
  }

  lemma {:induction false} InsertKeepsSorted(t: Token, ts: seq<Token>)
    requires SortedBySymbol(ts)
    ensures SortedBySymbol(InsertBySymbol(t, ts))
  {
    if ts == [] {
    } else if SymbolLessEq(t.symbol, ts[0].symbol) {
      forall j | 0 <= j < |ts| ensures SymbolLessEq(t.symbol, ts[j].symbol) {
        if j > 0 { Transitive(t.symbol, ts[0].symbol, ts[j].symbol); }
      }
    } else {
      var rest := InsertBySymbol(t, ts[1..]);
      InsertKeepsSorted(t, ts[1..]);
      Total(t.symbol, ts[0].symbol);
      forall j | 0 <= j < |rest| ensures SymbolLessEq(ts[0].symbol, rest[j].symbol) {
        assert rest[j] in multiset(rest);
        if rest[j] != t {
          assert rest[j] in ts[1..];
        }
      }
    }
  }

  lemma {:induction false} InsertKeepsDistinct(t: Token, ts: seq<Token>)
    requires DistinctSymbols(ts)
    requires forall u :: u in ts ==> u.symbol != t.symbol
    ensures DistinctSymbols(InsertBySymbol(t, ts))
  {
    if ts == [] {
    } else if SymbolLessEq(t.symbol, ts[0].symbol) {
      assert forall j :: 0 <= j < |ts| ==> ts[j] in ts;
    } else {
      var rest := InsertBySymbol(t, ts[1..]);
      InsertKeepsDistinct(t, ts[1..]);
      forall j | 0 <= j < |rest| ensures rest[j].symbol != ts[0].symbol {
        assert rest[j] in multiset(rest);
        if rest[j] != t {
          var k :| 0 <= k < |ts[1..]| && ts[1..][k] == rest[j];
          assert ts[k + 1] == rest[j];
        }
      }
    }
  }

  /** The sort puts the tokens in ascending symbol order. */
  lemma {:induction false} SortIsSorted(ts: seq<Token>)
    ensures SortedBySymbol(SortBySymbol(ts))
  {
    if ts != [] {
      SortIsSorted(ts[1..]);
      InsertKeepsSorted(ts[0], SortBySymbol(ts[1..]));
    }
  }

  /** A list without repeated symbols stays so when sorted. */
  lemma {:induction false} SortKeepsDistinct(ts: seq<Token>)
    requires DistinctSymbols(ts)
    ensures DistinctSymbols(SortBySymbol(ts))
  {
    if ts != [] {
      var rest := SortBySymbol(ts[1..]);
      assert DistinctSymbols(ts[1..]);
      SortKeepsDistinct(ts[1..]);
      forall u | u in rest ensures u.symbol != ts[0].symbol {
        assert u in multiset(rest);
        var k :| 0 <= k < |ts[1..]| && ts[1..][k] == u;
        assert ts[k + 1] == u;
      }
      InsertKeepsDistinct(ts[0], rest);
    }
  }

  /** Ascending by symbol, no symbol twice. */
  predicate StrictlySortedBySymbol(ts: seq<Token>) {
    forall i, j :: 0 <= i < j < |ts| ==> SymbolLessEq(ts[i].symbol, ts[j].symbol) && ts[i].symbol != ts[j].symbol
  }

  /** Every token stands for a currency of the feed. */
  predicate OnlyFeedCurrencies(prices: seq<TokenPrice>, ts: seq<Token>) {
    forall t :: t in ts ==> exists i :: 0 <= i < |prices| && prices[i].currency == t.symbol
  }

  /** Every currency of the feed has a token. */
  predicate EveryFeedCurrency(prices: seq<TokenPrice>, ts: seq<Token>) {
    forall i :: 0 <= i < |prices| ==> exists t :: t in ts && t.symbol == prices[i].currency
  }

  /** A token carries the price of the last feed entry for its currency. */
  ghost predicate LastPriceWins(prices: seq<TokenPrice>, ts: seq<Token>) {
    forall t, i :: t in ts && IsLastOccurrence(prices, i) && prices[i].currency == t.symbol ==>
      t.price == Some(prices[i].price)
  }

  /** Name and icon address are derived from the symbol. */
  predicate NamedFromSymbol(ts: seq<Token>) {
    forall t :: t in ts ==>
      t.name == TokenName(t.symbol) && t.iconUrl == TokenIconsBaseUrl + "/" + t.symbol + ".svg"
  }

  /** What `getTokensWithPrices` promises of its result for a given feed. */
  ghost predicate IsCatalogFor(prices: seq<TokenPrice>, ts: seq<Token>) {
    StrictlySortedBySymbol(ts) && OnlyFeedCurrencies(prices, ts) && EveryFeedCurrency(prices, ts) &&
    LastPriceWins(prices, ts) && NamedFromSymbol(ts)
  }

  /** Sorting neither adds nor drops a token. */
  lemma SortKeepsMembers(ts: seq<Token>)
    ensures forall t :: t in SortBySymbol(ts) <==> t in ts
  {
    forall t ensures t in SortBySymbol(ts) <==> t in ts {
      assert t in SortBySymbol(ts) <==> t in multiset(SortBySymbol(ts));
    }
  }

  /** The tokens of a list made of one token per map key, in any order. */
  ghost predicate OneTokenPerKey(priceMap: map<string, Price>, ts: seq<Token>) {
    (forall t :: t in ts ==> t.symbol in priceMap && t == BuildToken(t.symbol, priceMap[t.symbol])) &&
    (forall c :: c in priceMap ==> exists t :: t in ts && t.symbol == c)
  }

  lemma BuiltHasOneTokenPerKey(order: seq<string>, priceMap: map<string, Price>, ts: seq<Token>)
    requires forall c :: c in order <==> c in priceMap
    requires forall t :: t in ts <==> t in BuildTokens(order, priceMap)
    ensures OneTokenPerKey(priceMap, ts)
  {
    var built := BuildTokens(order, priceMap);
    forall c | c in priceMap ensures exists t :: t in ts && t.symbol == c {
      var k :| 0 <= k < |order| && order[k] == c;
      assert built[k] in built;
    }
  }

  /** Tokens made one per key of the folded feed meet the feed promises. */
  lemma OneTokenPerKeyMeetsFeed(prices: seq<TokenPrice>, ts: seq<Token>)
    requires OneTokenPerKey(PriceMapOf(prices), ts)
    ensures OnlyFeedCurrencies(prices, ts) && EveryFeedCurrency(prices, ts)
    ensures LastPriceWins(prices, ts) && NamedFromSymbol(ts)
  {
    PriceMapKeys(prices);
    forall i | 0 <= i < |prices| ensures exists t :: t in ts && t.symbol == prices[i].currency {
      assert prices[i].currency in PriceMapOf(prices);
    }
    forall t, i | t in ts && IsLastOccurrence(prices, i) && prices[i].currency == t.symbol
      ensures t.price == Some(prices[i].price)
    {
      LastWriteWins(prices, i);
    }
  }

  /** Sorting the built tokens of the folded feed meets every promise. */
  lemma SortedBuildIsCatalog(prices: seq<TokenPrice>, order: seq<string>)
    requires forall c :: c in order <==> c in PriceMapOf(prices)
    requires NoDuplicates(order)
    ensures IsCatalogFor(prices, SortBySymbol(BuildTokens(order, PriceMapOf(prices))))
  {
    var built := BuildTokens(order, PriceMapOf(prices));
    var tokens := SortBySymbol(built);
    SortIsSorted(built);
    assert DistinctSymbols(built);
    SortKeepsDistinct(built);
    SortKeepsMembers(built);
    BuiltHasOneTokenPerKey(order, PriceMapOf(prices), tokens);
    OneTokenPerKeyMeetsFeed(prices, tokens);
  }

  /** `getTokensWithPrices`: fold, build, sort. */
  method GetTokensWithPrices(response: Option<seq<TokenPrice>>) returns (tokens: seq<Token>)
    ensures IsCatalogFor(FetchTokenPrices(response), tokens)
    ensures response.None? ==> tokens == []
  {
    var prices := FetchTokenPrices(response);
    var priceMap, order := BuildPriceMap(prices);
    tokens := SortBySymbol(BuildTokens(order, priceMap));
    SortedBuildIsCatalog(prices, order);
    if response.None? {
      EmptyFeedEmptyCatalog(tokens);
    }
  }

  /** An empty feed, and so a failed request, yields an empty catalog. */
  lemma EmptyFeedEmptyCatalog(ts: seq<Token>)
    requires IsCatalogFor([], ts)
    ensures ts == []
  {
    EmptyIfNoMember(ts);
  }

  /** A catalog never lists a symbol twice. */
  lemma CatalogHasDistinctSymbols(prices: seq<TokenPrice>, ts: seq<Token>)
    requires IsCatalogFor(prices, ts)
    ensures DistinctSymbols(ts)
  {
  }

  /** The promises pin the catalog down: a feed has exactly one catalog. */
  lemma CatalogIsUnique(prices: seq<TokenPrice>, a: seq<Token>, b: seq<Token>)
    requires IsCatalogFor(prices, a) && IsCatalogFor(prices, b)
    ensures a == b
  {
    forall t | t in a ensures t in b {
      SameSymbolSameToken(prices, a, b, t);
    }
    forall t | t in b ensures t in a {
      SameSymbolSameToken(prices, b, a, t);
    }
    StrictlySortedSameMembers(a, b);
  }

  lemma SameSymbolSameToken(prices: seq<TokenPrice>, a: seq<Token>, b: seq<Token>, t: Token)
    requires IsCatalogFor(prices, a) && IsCatalogFor(prices, b) && t in a
    ensures t in b
  {
    var k :| 0 <= k < |prices| && prices[k].currency == t.symbol;
    LastOccurrenceExists(prices, k);
    var i :| IsLastOccurrence(prices, i) && prices[i].currency == t.symbol;
    var u :| u in b && u.symbol == prices[k].currency;
    assert t.price == u.price;
    assert t == u;
  }

  lemma {:induction false} StrictlySortedSameMembers(a: seq<Token>, b: seq<Token>)
    requires StrictlySortedBySymbol(a) && StrictlySortedBySymbol(b)
    requires forall t :: t in a <==> t in b
    ensures a == b
  {
    if a != [] && b != [] {
      SameHead(a, b);
      forall t ensures t in a[1..] <==> t in b[1..] {
        TailMember(a, b, t);
        TailMember(b, a, t);
      }
      StrictlySortedSameMembers(a[1..], b[1..]);
      assert a == [a[0]] + a[1..] && b == [b[0]] + b[1..];
    } else {
      EmptyIfNoMember(a);
      EmptyIfNoMember(b);
    }
  }

  /** Two strictly sorted lists with the same members start alike. */
  lemma SameHead(a: seq<Token>, b: seq<Token>)
    requires StrictlySortedBySymbol(a) && StrictlySortedBySymbol(b)
    requires forall t :: t in a <==> t in b
    requires a != [] && b != []
    ensures a[0] == b[0]
  {
    assert a[0] in b && b[0] in a;
    var i :| 0 <= i < |b| && b[i] == a[0];
    var j :| 0 <= j < |a| && a[j] == b[0];
    if i != 0 && j != 0 {
      Antisymmetric(a[0].symbol, b[0].symbol);
    }
  }

  /** Past a common head, a member of one tail is a member of the other. */
  lemma TailMember(a: seq<Token>, b: seq<Token>, t: Token)
    requires StrictlySortedBySymbol(a) && StrictlySortedBySymbol(b)
    requires forall u :: u in a <==> u in b
    requires a != [] && b != [] && a[0] == b[0]
    ensures t in a[1..] ==> t in b[1..]
  {
    if t in a[1..] {
      var p :| 0 <= p < |a[1..]| && a[1..][p] == t;
      assert a[p + 1] == t && t != a[0] && t in b;
      var q :| 0 <= q < |b| && b[q] == t;
      assert q != 0 && b[1..][q - 1] == t;
    }
  }

  lemma EmptyIfNoMember(ts: seq<Token>)
    ensures (forall t :: t !in ts) ==> ts == []
  {
    if ts != [] {
      assert ts[0] in ts;
    }
  }
}
