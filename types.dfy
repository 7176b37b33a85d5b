/** The records shared by the swap front end (src/problem2/src/types/index.ts). */
module Types {
  import opened Wrappers

  /** A unit price.  The price feed only carries non-negative prices; numbers
      are exact reals here, not IEEE doubles. */
  type Price = r: real | 0.0 <= r

  /** A tradable asset; `price` is optional (`price?: number`). */
  datatype Token = Token(name: string, symbol: string, price: Option<Price>, iconUrl: string)

  /** One entry of the price feed; `date` is carried but never read. */
  datatype TokenPrice = TokenPrice(currency: string, date: string, price: Price)

  /** The form's data: the two optional sides and the two amount texts. */
  datatype SwapFormData = SwapFormData(
    fromToken: Option<Token>,
    toToken: Option<Token>,
    fromAmount: string,
    toAmount: string)

  /** No two tokens of the list share a symbol. */
  predicate DistinctSymbols(ts: seq<Token>) {
    forall i, j :: 0 <= i < j < |ts| ==> ts[i].symbol != ts[j].symbol
  }
}
