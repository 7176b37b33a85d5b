/** The value-level rules of the swap form (SwapForm.tsx): how the target
    amount is derived, the exchange-rate line, what selecting a token does to
    the two sides, the reversal exchange, validation, the success message and
    the default pair chosen after loading.  The class in SwapForm applies
    these rules step by step. */
module SwapRules {
  import opened Wrappers
  import opened Types
  import opened JsNumber
  import opened AmountInput

  // ---------------------------------------------------------------------
  // Prices and the derivation of the target amount

  /** JavaScript truthiness of `token.price`: absent and 0 are falsy. */
  predicate HasPrice(t: Token) {
    t.price.Some? && t.price.value != 0.0
  }

  /** Both sides are chosen and both carry a usable price. */
  predicate Priced(fromToken: Option<Token>, toToken: Option<Token>) {
    fromToken.Some? && toToken.Some? && HasPrice(fromToken.value) && HasPrice(toToken.value)
  }

  predicate CanPrice(fd: SwapFormData) {
    Priced(fd.fromToken, fd.toToken)
  }

  /** `fromToken.price / toToken.price`. */
  function Rate(fromToken: Option<Token>, toToken: Option<Token>): (rate: real)
    requires Priced(fromToken, toToken)
    ensures rate > 0.0
  {
    fromToken.value.price.value / toToken.value.price.value
  }

  /** `parseFloat(fromAmount) * rate`: the source amount in units of the target token. */
  function Converted(fromToken: Option<Token>, toToken: Option<Token>, fromAmount: string): (x: real)
    requires Priced(fromToken, toToken) && ParseFloat(fromAmount).Some?
    ensures x >= 0.0
    ensures x == 0.0 <==> ParseFloat(fromAmount).value == 0.0
  {
    ParseFloat(fromAmount).value * Rate(fromToken, toToken)
  }

  /** The derivation meets non-empty source text it cannot read; it then
      leaves the target amount as it is. */
  predicate KeepsToAmount(fd: SwapFormData) {
    CanPrice(fd) && fd.fromAmount != "" && ParseFloat(fd.fromAmount).None?
  }

  /** What the derivation writes from the two sides and the source text:
      "" when a side, a price or the text is missing, the product formatted
      by `toFixed(6)` when the text parses, and None (write nothing) when it
      does not. */
  function DerivedText(fromToken: Option<Token>, toToken: Option<Token>, fromAmount: string): (r: Option<string>)
    ensures !Priced(fromToken, toToken) || fromAmount == "" ==> r == Some("")
    ensures r.None? <==> Priced(fromToken, toToken) && fromAmount != "" && ParseFloat(fromAmount).None?
  {
    if !Priced(fromToken, toToken) || fromAmount == "" then Some("")
    else if ParseFloat(fromAmount).None? then None
    else Some(ToFixed6(Converted(fromToken, toToken, fromAmount)))
  }

  /** The target amount the derivation effect leaves in place. */
  function DeriveToAmount(fd: SwapFormData): (toAmount: string)
    ensures !CanPrice(fd) || fd.fromAmount == "" ==> toAmount == ""
    ensures KeepsToAmount(fd) ==> toAmount == fd.toAmount
  {
    DerivedText(fd.fromToken, fd.toToken, fd.fromAmount).GetOr(fd.toAmount)
  }

  /** The derived amount reads back as the source amount times the rate,
      rounded to millionths. */
  lemma DerivedAmountReadsBack(fd: SwapFormData)
    requires CanPrice(fd) && ParseFloat(fd.fromAmount).Some?
    ensures ParseFloat(DeriveToAmount(fd)) ==
      Some(RoundToMillionths(Converted(fd.fromToken, fd.toToken, fd.fromAmount)) as real / 1000000.0)
  {
    var x := Converted(fd.fromToken, fd.toToken, fd.fromAmount);
    var t := DeriveToAmount(fd);
    DerivedIsFormattedProduct(fd);
    assert t == ToFixed6(x);
    ParseToFixed6(x);
  }

  lemma DerivedIsFormattedProduct(fd: SwapFormData)
    requires CanPrice(fd) && ParseFloat(fd.fromAmount).Some?
    ensures DeriveToAmount(fd) == ToFixed6(Converted(fd.fromToken, fd.toToken, fd.fromAmount))
  {
    assert fd.fromAmount != "" by {
      assert ParseFloat("") == None;
    }
  }

  /** The derivation looks at the current target amount only when it keeps it. */
  lemma DeriveIgnoresToAmount(fd: SwapFormData, x: string)
    ensures DeriveToAmount(fd.(toAmount := x)) == if KeepsToAmount(fd) then x else DeriveToAmount(fd)
  {
  }

  /** The derivation has run and left nothing to change. */
  predicate Settled(fd: SwapFormData) {
    DeriveToAmount(fd) == fd.toAmount
  }

  /** The form data once the derivation effect has run. */
  function Settle(fd: SwapFormData): (r: SwapFormData)
    ensures r.fromToken == fd.fromToken && r.toToken == fd.toToken && r.fromAmount == fd.fromAmount
    ensures Settled(r)
  {
    DeriveIgnoresToAmount(fd, DeriveToAmount(fd));
    fd.(toAmount := DeriveToAmount(fd))
  }

  /** Both amounts are text the amount field accepts: digits with at most
      one '.', or empty. */
  predicate AmountsAreText(fd: SwapFormData) {
    IsAmountText(fd.fromAmount) && IsAmountText(fd.toAmount)
  }

  /** The derivation keeps both amounts acceptable: it writes "", keeps the
      target text, or writes `toFixed(6)` output, which the field accepts. */
  lemma SettleKeepsAmountText(fd: SwapFormData)
    requires AmountsAreText(fd)
    ensures AmountsAreText(Settle(fd))
  {
    if CanPrice(fd) && ParseFloat(fd.fromAmount).Some? {
      var x := Converted(fd.fromToken, fd.toToken, fd.fromAmount);
      DerivedIsFormattedProduct(fd);
      FormattedAmountIsAccepted(x);
    }
  }

  const ApproxSign: string := "\U{2248}"

  /** `getExchangeRate`: "1 FROM ≈ rate TO" when both prices are usable, else "". */
  function ExchangeRate(fd: SwapFormData): (text: string)
    ensures text == "" <==> !CanPrice(fd)
    ensures CanPrice(fd) ==> |text| > 2 && text[..2] == "1 "
  {
    if CanPrice(fd) then
      "1 " + fd.fromToken.value.symbol + " " + ApproxSign + " " + ToFixed6(Rate(fd.fromToken, fd.toToken)) + " " + fd.toToken.value.symbol
    else ""
  }

  /** The rate line reads back: it starts "1 FROM ≈ ", ends " TO", and the
      text between parses to the rate rounded to millionths. */
  lemma ExchangeRateReadsBack(fd: SwapFormData)
    requires CanPrice(fd)
    ensures var line := ExchangeRate(fd);
      var head := "1 " + fd.fromToken.value.symbol + " " + ApproxSign + " ";
      var tail := " " + fd.toToken.value.symbol;
      |line| >= |head| + |tail| && line[..|head|] == head && line[|line| - |tail|..] == tail &&
      ParseFloat(line[|head|..|line| - |tail|]) ==
        Some(RoundToMillionths(Rate(fd.fromToken, fd.toToken)) as real / 1000000.0)
  {
    var head := "1 " + fd.fromToken.value.symbol + " " + ApproxSign + " ";
    var tail := " " + fd.toToken.value.symbol;
    var t := ToFixed6(Rate(fd.fromToken, fd.toToken));
    assert ExchangeRate(fd) == head + t + tail;
    ThreePartSlices(head, t, tail);
    ParseToFixed6(Rate(fd.fromToken, fd.toToken));
  }

  /** The three pieces of a concatenation are found again by position. */
  lemma ThreePartSlices(head: string, mid: string, tail: string)
    ensures var line := head + mid + tail;
      line[..|head|] == head && line[|line| - |tail|..] == tail && line[|head|..|line| - |tail|] == mid
  {
  }

  /** Two ETH at 2000 against BTC at 40000 derive "0.100000". */
  lemma DerivationExample(eth: Token, btc: Token)
    requires eth.symbol == "ETH" && eth.price == Some(2000.0)
    requires btc.symbol == "BTC" && btc.price == Some(40000.0)
    ensures DeriveToAmount(SwapFormData(Some(eth), Some(btc), "2", "")) == "0.100000"
  {
    var fd := SwapFormData(Some(eth), Some(btc), "2", "");
    ParsesTwo();
    assert Converted(fd.fromToken, fd.toToken, "2") == 0.1;
    DerivedIsFormattedProduct(fd);
    FormatsOneTenth();
  }

  /** With the same prices the rate line reads "1 ETH ≈ 0.050000 BTC". */
  lemma ExchangeRateExample(eth: Token, btc: Token)
    requires eth.symbol == "ETH" && eth.price == Some(2000.0)
    requires btc.symbol == "BTC" && btc.price == Some(40000.0)
    ensures ExchangeRate(SwapFormData(Some(eth), Some(btc), "2", "")) == "1 ETH " + ApproxSign + " 0.050000 BTC"
  {
    var fd := SwapFormData(Some(eth), Some(btc), "2", "");
    RateIsOneTwentieth(eth, btc);
    FormatsOneTwentieth();
    RateLineText(fd, "0.050000");
    RateLineLiteral();
  }

  /** The rate line spelled out around a given formatted rate. */
  lemma RateLineText(fd: SwapFormData, rateText: string)
    requires CanPrice(fd) && ToFixed6(Rate(fd.fromToken, fd.toToken)) == rateText
    ensures ExchangeRate(fd) ==
      "1 " + fd.fromToken.value.symbol + " " + ApproxSign + " " + rateText + " " + fd.toToken.value.symbol
  {
  }

  lemma RateLineLiteral()
    ensures "1 " + "ETH" + " " + ApproxSign + " " + "0.050000" + " " + "BTC" == "1 ETH " + ApproxSign + " 0.050000 BTC"
  {
  }

  lemma RateIsOneTwentieth(eth: Token, btc: Token)
    requires eth.price == Some(2000.0) && btc.price == Some(40000.0)
    ensures Rate(Some(eth), Some(btc)) == 0.05
  {
  }

  /** A BTC price of 0 empties both the rate line and the target amount. */
  lemma ZeroPriceExample(eth: Token, btc: Token)
    requires eth.price == Some(2000.0) && btc.price == Some(0.0)
    ensures ExchangeRate(SwapFormData(Some(eth), Some(btc), "2", "")) == ""
    ensures DeriveToAmount(SwapFormData(Some(eth), Some(btc), "2", "x")) == ""
  {
  }

  // ---------------------------------------------------------------------
  // Token selection and reversal

  /** `token?.symbol` of an optional side. */
  function SideSymbol(side: Option<Token>): Option<string> {
    match side
    case Some(t) => Some(t.symbol)
    case None => None
  }

  /** The two chosen sides never carry the same symbol. */
  predicate DistinctSides(fd: SwapFormData) {
    fd.fromToken.Some? && fd.toToken.Some? ==> fd.fromToken.value.symbol != fd.toToken.value.symbol
  }

  /** `handleSelectFromToken`: the chosen token lands on the "from" side;
      the "to" side takes the old "from" token exactly when the symbols
      clash; the amounts are untouched; two distinct sides stay distinct. */
  function SelectFrom(fd: SwapFormData, token: Token): (r: SwapFormData)
    ensures r.fromToken == Some(token)
    ensures r.fromAmount == fd.fromAmount && r.toAmount == fd.toAmount
    ensures fd.toToken.Some? && fd.toToken.value.symbol == token.symbol ==> r.toToken == fd.fromToken
    ensures fd.toToken.None? || fd.toToken.value.symbol != token.symbol ==> r.toToken == fd.toToken
    ensures DistinctSides(fd) ==> DistinctSides(r)
  {
    if Some(token.symbol) == SideSymbol(fd.toToken) then
      fd.(fromToken := Some(token), toToken := fd.fromToken)
    else
      fd.(fromToken := Some(token))
  }

  /** `handleSelectToToken`, the mirror image of SelectFrom. */
  function SelectTo(fd: SwapFormData, token: Token): (r: SwapFormData)
    ensures r.toToken == Some(token)
    ensures r.fromAmount == fd.fromAmount && r.toAmount == fd.toAmount
    ensures fd.fromToken.Some? && fd.fromToken.value.symbol == token.symbol ==> r.fromToken == fd.toToken
    ensures fd.fromToken.None? || fd.fromToken.value.symbol != token.symbol ==> r.fromToken == fd.fromToken
    ensures DistinctSides(fd) ==> DistinctSides(r)
  {
    if Some(token.symbol) == SideSymbol(fd.fromToken) then
      fd.(toToken := Some(token), fromToken := fd.toToken)
    else
      fd.(toToken := Some(token))
  }

  /** The exchange step of `handleSwapTokens`: both tokens and both amounts
      trade places, and two distinct sides stay distinct. */
  function Exchange(fd: SwapFormData): (r: SwapFormData)
    ensures r.fromToken == fd.toToken && r.toToken == fd.fromToken
    ensures r.fromAmount == fd.toAmount && r.toAmount == fd.fromAmount
    ensures DistinctSides(fd) ==> DistinctSides(r)
  {
    SwapFormData(fd.toToken, fd.fromToken, fd.toAmount, fd.fromAmount)
  }

  /** Exchanging twice restores all four fields. */
  lemma ExchangeIsInvolution(fd: SwapFormData)
    ensures Exchange(Exchange(fd)) == fd
  {
  }

  lemma BackDerivation(eth: Token, btc: Token)
    requires eth.symbol == "ETH" && eth.price == Some(2000.0)
    requires btc.symbol == "BTC" && btc.price == Some(40000.0)
    ensures DeriveToAmount(SwapFormData(Some(btc), Some(eth), "0.100000", "2")) == "2.000000"
  {
    var fd := SwapFormData(Some(btc), Some(eth), "0.100000", "2");
    ParsesOneTenth();
    ConvertsBack(eth, btc);
    DerivedIsFormattedProduct(fd);
    FormatsTwo();
  }

  lemma ConvertsBack(eth: Token, btc: Token)
    requires eth.price == Some(2000.0) && btc.price == Some(40000.0)
    requires ParseFloat("0.100000") == Some(0.1)
    ensures Converted(Some(btc), Some(eth), "0.100000") == 2.0
  {
    RateIsTwenty(eth, btc);
  }

  lemma RateIsTwenty(eth: Token, btc: Token)
    requires eth.price == Some(2000.0) && btc.price == Some(40000.0)
    ensures Rate(Some(btc), Some(eth)) == 20.0
  {
  }

  /** Reversing, letting the derivation run, and reversing back does not
      restore the typed amount: "2" ETH against BTC comes back as "2.000000". */
  lemma ReverseTwiceReformats(eth: Token, btc: Token)
    requires eth.symbol == "ETH" && eth.price == Some(2000.0)
    requires btc.symbol == "BTC" && btc.price == Some(40000.0)
    ensures var start := Settle(SwapFormData(Some(eth), Some(btc), "2", ""));
      var back := Settle(Exchange(Settle(Exchange(start))));
      back.fromToken == start.fromToken && back.toToken == start.toToken &&
      start.fromAmount == "2" && back.fromAmount == "2.000000"
  {
    DerivationExample(eth, btc);
    BackDerivation(eth, btc);
  }

  /** Choosing, on one side, the token that sits on the other side is the
      same as exchanging the two tokens (amounts stay where they are). */
  lemma SelectingOtherSideExchangesTokens(fd: SwapFormData)
    requires fd.fromToken.Some? && fd.toToken.Some?
    ensures SelectFrom(fd, fd.toToken.value) == fd.(fromToken := fd.toToken, toToken := fd.fromToken)
    ensures SelectTo(fd, fd.fromToken.value) == fd.(fromToken := fd.toToken, toToken := fd.fromToken)
  {
  }

  // ---------------------------------------------------------------------
  // Validation

  datatype FormErrors = FormErrors(fromAmount: string, general: string)

  datatype Validation = Validation(ok: bool, errors: FormErrors)

  const NoErrors: FormErrors := FormErrors("", "")
  const SelectTokensError: string := "Please select tokens for the swap"
  const InvalidAmountError: string := "Please enter a valid amount"
  const SwapFailedError: string := "Swap failed. Please try again."

  predicate BothSelected(fd: SwapFormData) {
    fd.fromToken.Some? && fd.toToken.Some?
  }

  /** The text reads as a number above zero. */
  predicate PositiveAmount(s: string) {
    ParseFloat(s).Some? && ParseFloat(s).value > 0.0
  }

  /** `validateForm` as written.  The amount test is `!fromAmount ||
      parseFloat(fromAmount) <= 0`; NaN <= 0 is false, so non-empty text that
      `parseFloat` cannot read is let through. */
  function ValidateAsWritten(fd: SwapFormData): (v: Validation)
    ensures v.ok <==> (BothSelected(fd) && fd.fromAmount != "" &&
                       !(ParseFloat(fd.fromAmount).Some? && ParseFloat(fd.fromAmount).value <= 0.0))
    ensures !BothSelected(fd) ==> v.errors == FormErrors("", SelectTokensError)
    ensures BothSelected(fd) && !v.ok ==> v.errors == FormErrors(InvalidAmountError, "")
    ensures v.ok ==> v.errors == NoErrors
  {
    if fd.fromToken.None? || fd.toToken.None? then
      Validation(false, FormErrors("", SelectTokensError))
    else if fd.fromAmount == "" || (match ParseFloat(fd.fromAmount) case Some(x) => x <= 0.0 case None => false) then
      Validation(false, FormErrors(InvalidAmountError, ""))
    else
      Validation(true, NoErrors)
  }

  /** A lone "." passes validation as written although it is no number. */
  lemma AsWrittenAcceptsBareDot(fd: SwapFormData)
    requires BothSelected(fd) && fd.fromAmount == "."
    ensures ParseFloat(fd.fromAmount).None?
    ensures ValidateAsWritten(fd).ok
  {
  }

  /** `validateForm` as intended: the checks run in order, the first failing
      one sets its message and clears the other, and the amount must read as
      a number above zero. */
  function Validate(fd: SwapFormData): (v: Validation)
    ensures v.ok <==> BothSelected(fd) && PositiveAmount(fd.fromAmount)
    ensures !BothSelected(fd) ==> v.errors == FormErrors("", SelectTokensError)
    ensures BothSelected(fd) && !PositiveAmount(fd.fromAmount) ==> v.errors == FormErrors(InvalidAmountError, "")
    ensures v.ok ==> v.errors == NoErrors
  {
    if fd.fromToken.None? || fd.toToken.None? then
      Validation(false, FormErrors("", SelectTokensError))
    else if (match ParseFloat(fd.fromAmount) case Some(x) => x <= 0.0 case None => true) then
      Validation(false, FormErrors(InvalidAmountError, ""))
    else
      Validation(true, NoErrors)
  }

  /** The two validations differ only on non-empty text that does not parse. */
  lemma ValidateAgreesOnReadableText(fd: SwapFormData)
    requires fd.fromAmount == "" || ParseFloat(fd.fromAmount).Some?
    ensures Validate(fd) == ValidateAsWritten(fd)
  {
  }

  /** "0" and "" never pass, and they set the amount error. */
  lemma ZeroOrEmptyAmountRejected(fd: SwapFormData)
    requires BothSelected(fd) && (fd.fromAmount == "0" || fd.fromAmount == "")
    ensures !ValidateAsWritten(fd).ok && ValidateAsWritten(fd).errors.fromAmount == InvalidAmountError
    ensures !Validate(fd).ok && Validate(fd).errors.fromAmount == InvalidAmountError
  {
    assert LeadingDigits("0") == 1;
  }

  // ---------------------------------------------------------------------
  // Submission

  /** The confirmation text, built from the data captured when the swap was submitted. */
  function SuccessMessage(snapshot: SwapFormData): string
    requires BothSelected(snapshot)
  {
    "Successfully swapped " + snapshot.fromAmount + " " + snapshot.fromToken.value.symbol +
    " for " + snapshot.toAmount + " " + snapshot.toToken.value.symbol
  }

  /** Two ETH swapped for the derived "0.100000" BTC. */
  lemma SuccessMessageExample(eth: Token, btc: Token)
    requires eth.symbol == "ETH" && eth.price == Some(2000.0)
    requires btc.symbol == "BTC" && btc.price == Some(40000.0)
    ensures SuccessMessage(Settle(SwapFormData(Some(eth), Some(btc), "2", ""))) ==
      "Successfully swapped 2 ETH for 0.100000 BTC"
  {
    DerivationExample(eth, btc);
  }

  // ---------------------------------------------------------------------
  // Default pair after loading

  /** Position `i` holds the first token of the list with that symbol. */
  predicate FirstWithSymbol(tokens: seq<Token>, symbol: string, i: int) {
    0 <= i < |tokens| && tokens[i].symbol == symbol &&
    forall j :: 0 <= j < i ==> tokens[j].symbol != symbol
  }

  /** `tokens.find(t => t.symbol === symbol)`: the first token with that
      symbol, or None when no token has it. */
  function FindBySymbol(tokens: seq<Token>, symbol: string): (r: Option<Token>)
    ensures r.Some? ==> exists i :: FirstWithSymbol(tokens, symbol, i) && tokens[i] == r.value
    ensures r.None? ==> forall t :: t in tokens ==> t.symbol != symbol
  {
    if tokens == [] then None
    else if tokens[0].symbol == symbol then
      assert FirstWithSymbol(tokens, symbol, 0);
      Some(tokens[0])
    else
      var rest := FindBySymbol(tokens[1..], symbol);
      assert rest.Some? ==> exists i :: FirstWithSymbol(tokens, symbol, i) && tokens[i] == rest.value by {
        if rest.Some? {
          var i :| FirstWithSymbol(tokens[1..], symbol, i) && tokens[1..][i] == rest.value;
          assert FirstWithSymbol(tokens, symbol, i + 1);
        }
      }
      assert rest.None? ==> forall t :: t in tokens ==> t.symbol != symbol by {
        assert tokens == [tokens[0]] + tokens[1..];
      }
      rest
  }

  /** Only one position can hold the first token with a symbol. */
  lemma FirstIsUnique(tokens: seq<Token>, symbol: string, i: int, k: int)
    requires FirstWithSymbol(tokens, symbol, i) && FirstWithSymbol(tokens, symbol, k)
    ensures i == k
  {
  }

  datatype DefaultPair = DefaultPair(from: Token, to: Token)

  /** The defaults as written: the first ETH token, else the first token;
      independently, the first BTC token, else the second token. */
  function DefaultsAsWritten(tokens: seq<Token>): (d: DefaultPair)
    requires |tokens| >= 2
    ensures forall i :: FirstWithSymbol(tokens, "ETH", i) ==> d.from == tokens[i]
    ensures (forall t :: t in tokens ==> t.symbol != "ETH") ==> d.from == tokens[0]
    ensures forall i :: FirstWithSymbol(tokens, "BTC", i) ==> d.to == tokens[i]
    ensures (forall t :: t in tokens ==> t.symbol != "BTC") ==> d.to == tokens[1]
  {
    DefaultPair(FindBySymbol(tokens, "ETH").GetOr(tokens[0]), FindBySymbol(tokens, "BTC").GetOr(tokens[1]))
  }

  /** A catalog without ETH that starts with BTC gets BTC on both sides. */
  lemma AsWrittenDefaultsCanCoincide(btc: Token, usdc: Token)
    requires btc.symbol == "BTC" && usdc.symbol == "USDC"
    ensures DistinctSymbols([btc, usdc])
    ensures DefaultsAsWritten([btc, usdc]) == DefaultPair(btc, btc)
  {
    assert FindBySymbol([btc, usdc], "ETH") == None by {
      assert [btc, usdc][1..] == [usdc];
    }
  }

  /** The defaults as intended: ETH else the first token; BTC when present
      and not already chosen, else the second token, or the first one when
      the second is the one already chosen. */
  function Defaults(tokens: seq<Token>): (d: DefaultPair)
    requires |tokens| >= 2 && DistinctSymbols(tokens)
    ensures d.from in tokens && d.to in tokens
    ensures d.from.symbol != d.to.symbol
    ensures FindBySymbol(tokens, "ETH").Some? ==> d.from.symbol == "ETH"
    ensures FindBySymbol(tokens, "BTC").Some? && d.from.symbol != "BTC" ==> d.to.symbol == "BTC"
  {
    var from := FindBySymbol(tokens, "ETH").GetOr(tokens[0]);
    var to :=
      if FindBySymbol(tokens, "BTC").Some? && from.symbol != "BTC" then FindBySymbol(tokens, "BTC").value
      else if tokens[1].symbol != from.symbol then tokens[1]
      else tokens[0];
    DefaultPair(from, to)
  }

  /** The form data after `loadTokens` installs the written default pair
      and the derivation has run.  Where the two picks differ on a catalog,
      they are the intended pair. */
  function WithDefaults(fd: SwapFormData, tokens: seq<Token>): (r: SwapFormData)
    requires |tokens| >= 2
    ensures r.fromToken == Some(DefaultsAsWritten(tokens).from) && r.toToken == Some(DefaultsAsWritten(tokens).to)
    ensures r.fromAmount == fd.fromAmount && Settled(r)
    ensures AmountsAreText(fd) ==> AmountsAreText(r)
    ensures DistinctSymbols(tokens) && DistinctSides(r) ==>
      r.fromToken == Some(Defaults(tokens).from) && r.toToken == Some(Defaults(tokens).to)
  {
    var d := DefaultsAsWritten(tokens);
    assert DistinctSymbols(tokens) && d.from.symbol != d.to.symbol ==> Defaults(tokens) == d by {
      if DistinctSymbols(tokens) && d.from.symbol != d.to.symbol {
        DefaultsAgreeWhenDistinct(tokens);
      }
    }
    assert AmountsAreText(fd) ==> AmountsAreText(Settle(fd.(fromToken := Some(d.from), toToken := Some(d.to)))) by {
      if AmountsAreText(fd) {
        SettleKeepsAmountText(fd.(fromToken := Some(d.from), toToken := Some(d.to)));
      }
    }
    Settle(fd.(fromToken := Some(d.from), toToken := Some(d.to)))
  }

  /** Wherever the written defaults are already two different tokens, the
      intended defaults are the same pair. */
  lemma DefaultsAgreeWhenDistinct(tokens: seq<Token>)
    requires |tokens| >= 2 && DistinctSymbols(tokens)
    requires DefaultsAsWritten(tokens).from.symbol != DefaultsAsWritten(tokens).to.symbol
    ensures Defaults(tokens) == DefaultsAsWritten(tokens)
  {
  }

  // ---------------------------------------------------------------------
  // How often the derivation effect runs

  /** A committed render: the form data and the identity of its object. */
  datatype Commit = Commit(data: SwapFormData, identity: nat)

  /** The effect as written calls `setFormData` with a fresh object in every
      branch except non-empty, unparsable text with both prices usable. */
  predicate EffectWritesAsWritten(fd: SwapFormData) {
    !(CanPrice(fd) && fd.fromAmount != "" && ParseFloat(fd.fromAmount).None?)
  }

  /** One run of the effect as written; it re-runs whenever the identity of
      `formData` (one of its dependencies) has changed. */
  function DerivationEffectAsWritten(c: Commit): (next: Option<Commit>)
    ensures next.Some? ==> next.value.identity != c.identity && next.value.data == Settle(c.data)
  {
    if EffectWritesAsWritten(c.data) then Some(Commit(Settle(c.data), c.identity + 1)) else None
  }

  /** The commit after `n` further runs of the effect as written, or None once it stops writing. */
  function RunAsWritten(c: Commit, n: nat): Option<Commit>
    decreases n
  {
    if n == 0 then Some(c)
    else
      match DerivationEffectAsWritten(c)
      case None => None
      case Some(c') => RunAsWritten(c', n - 1)
  }

  /** Once the effect as written writes, it writes again after every run:
      each run hands React a new object, which re-triggers the effect. */
  lemma {:induction false} AsWrittenEffectNeverSettles(c: Commit, n: nat)
    requires EffectWritesAsWritten(c.data)
    decreases n
    ensures RunAsWritten(c, n).Some?
    ensures RunAsWritten(c, n).value.identity != c.identity || n == 0
  {
    if n > 0 {
      var c' := DerivationEffectAsWritten(c).value;
      AsWrittenEffectNeverSettles(c', n - 1);
      IdentityGrows(c', n - 1);
    }
  }

  lemma {:induction false} IdentityGrows(c: Commit, n: nat)
    requires RunAsWritten(c, n).Some?
    ensures RunAsWritten(c, n).value.identity >= c.identity
    decreases n
  {
    if n > 0 {
      IdentityGrows(DerivationEffectAsWritten(c).value, n - 1);
    }
  }

  /** Already at mount (nothing selected, empty amounts) the effect as written writes. */
  lemma AsWrittenEffectLoopsFromMount(n: nat)
    ensures RunAsWritten(Commit(SwapFormData(None, None, "", ""), 0), n).Some?
  {
    AsWrittenEffectNeverSettles(Commit(SwapFormData(None, None, "", ""), 0), n);
  }

  /** The effect as intended writes only when the derived amount differs. */
  function DerivationEffect(c: Commit): (next: Option<Commit>)
    ensures next.Some? ==> next.value.data == Settle(c.data)
    ensures next.None? ==> Settle(c.data) == c.data
  {
    if DeriveToAmount(c.data) != c.data.toAmount then Some(Commit(Settle(c.data), c.identity + 1)) else None
  }

  /** The intended effect settles after at most one write, on the value the
      written one keeps writing. */
  lemma DerivationEffectSettles(c: Commit)
    ensures DerivationEffect(c).Some? ==> DerivationEffect(DerivationEffect(c).value).None?
    ensures DerivationEffectAsWritten(c).Some? ==> DerivationEffectAsWritten(c).value.data == Settle(c.data)
  {
  }

  // ---------------------------------------------------------------------
  // Numeric facts behind the worked examples, one per lemma

  lemma ParsesTwo()
    ensures ParseFloat("2") == Some(2.0)
  {
    assert LeadingDigits("2") == 1;
    assert "2"[..1] == "2";
    assert DigitsValue("2") == 2;
    assert FractionDigits("2") == "";
  }

  lemma ParsesOneTenth()
    ensures ParseFloat("0.100000") == Some(0.1)
  {
    FormatsOneTenth();
    ParseToFixed6(0.1);
    RoundsOneTenth();
  }

  lemma RoundsOneTenth()
    ensures RoundToMillionths(0.1) == 100000
  {
  }

  lemma RoundsOneTwentieth()
    ensures RoundToMillionths(0.05) == 50000
  {
  }

  lemma RoundsTwo()
    ensures RoundToMillionths(2.0) == 2000000
  {
  }

  lemma PadsOneHundredThousand()
    ensures FixedDigits(100000, 6) == "100000"
  {
    assert FixedDigits(1, 1) == "1";
    assert FixedDigits(10, 2) == "10";
    assert FixedDigits(100, 3) == "100";
    assert FixedDigits(1000, 4) == "1000";
    assert FixedDigits(10000, 5) == "10000";
  }

  lemma PadsFiftyThousand()
    ensures FixedDigits(50000, 6) == "050000"
  {
    assert FixedDigits(0, 1) == "0";
    assert FixedDigits(5, 2) == "05";
    assert FixedDigits(50, 3) == "050";
    assert FixedDigits(500, 4) == "0500";
    assert FixedDigits(5000, 5) == "05000";
  }

  lemma PadsZero()
    ensures FixedDigits(0, 6) == "000000"
  {
    assert FixedDigits(0, 1) == "0";
    assert FixedDigits(0, 2) == "00";
    assert FixedDigits(0, 3) == "000";
    assert FixedDigits(0, 4) == "0000";
    assert FixedDigits(0, 5) == "00000";
  }

  lemma FormatsOneTenth()
    ensures ToFixed6(0.1) == "0.100000"
  {
    RoundsOneTenth();
    ToFixed6Parts(0.1, 0, 100000);
    PadsOneHundredThousand();
    assert NatToDecimal(0) == "0";
  }

  lemma FormatsOneTwentieth()
    ensures ToFixed6(0.05) == "0.050000"
  {
    RoundsOneTwentieth();
    ToFixed6Parts(0.05, 0, 50000);
    PadsFiftyThousand();
    assert NatToDecimal(0) == "0";
  }

  lemma FormatsTwo()
    ensures ToFixed6(2.0) == "2.000000"
  {
    RoundsTwo();
    ToFixed6Parts(2.0, 2, 0);
    PadsZero();
    assert NatToDecimal(2) == "2";
  }
}
