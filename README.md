# Token swap front end and sum-to-n, modelled in Dafny

This project models the logic of a small token-swap web front end and of a
summation exercise.

**The swap form.** The form (`SwapForm.tsx`) holds two optional tokens, the
amount the user types, and a target amount derived from the two prices. It
also keeps:

- error strings;
- a flag for a running submission;
- a flag for a running direction reversal;
- a success dialog with its message.

**Its helpers.** The amount field (`AmountInput.tsx`) forwards only text made
of digits with at most one decimal point. The token catalog
(`tokenService.ts`) turns a price feed into a list of tokens, sorted by
symbol, with one token per currency and the last price winning. The token
dropdown (`TokenSelector.tsx`) filters that list by a case-insensitive
substring search. It also keeps an open flag and the search text.

**Sum to n.** The exercise (`sum_to_n.ts`) computes 1 + ... + n three ways:
a loop, the closed formula and recursion.

**Modules.**

| module | what it holds |
|---|---|
| `Wrappers` | `Option` |
| `Types` | `Token`, `TokenPrice`, `SwapFormData` |
| `JsNumber` | `parseFloat` and `toFixed(6)` on exact values |
| `AmountInput` | the input gate |
| `SymbolOrder` | the sort order |
| `TokenService` | the catalog |
| `TokenSelector` | the filter and the `Dropdown` class |
| `SwapRules` | pure form rules |
| `SwapForm` | the form as a class with one method per handler or timer callback |
| `SumToN` | the three sums |

**Modelling choices.**

- Numbers are exact reals.
- `parseFloat` reads unsigned decimal text.
- `toFixed(6)` rounds to the nearest millionth, with ties going up.
- `localeCompare` is read as lexicographic order on character codes.
- `toLowerCase` is read as ASCII lower-casing.
- The React effect that derives the target amount is applied to the form data each handler leaves behind.
- The two timers of the reversal are separate steps (`BeginReverse`, `ExchangeSides`, `EndReverse`).
- So is the delay of the submission (`BeginSubmit`, then `CompleteSubmit` or `FailSubmit`).

**Where the code differs from what one might expect of the form, the model follows the code.**

- Selecting a token leaves both error messages as they are. Only typing clears the amount error.
- Reversing twice is not an exact restore. The derivation rewrites the target amount in between, so "2" comes back as "2.000000" (`SwapRules.ReverseTwiceReformats`).
- Nothing stops a reversal while a submission is pending, or the other way round.
- No input is disabled while a submission is pending, so typing an amount and selecting tokens also stay possible during the delay. The message is built from the data captured at submission.
- After loading, the default pair is picked as written: the first ETH token, else the first token, and independently the first BTC token, else the second. A catalog such as [BTC, USDC] therefore puts one token on both sides (`SwapForm.SwapForm.LoadTokens`, `SwapRules.AsWrittenDefaultsCanCoincide`).
- Submission validates as written. Non-empty amount text that `parseFloat` cannot read, such as ".", passes and starts a swap (`SwapForm.SwapForm.BeginSubmit`, `SwapRules.AsWrittenAcceptsBareDot`).
- The corrected defaults and validation are proved beside the as-written ones (see Findings); the form class does not use them.

## Model

| member | source | states |
|---|---|---|
| SumToN.SumToNLoop | src/problem4/sum_to_n.ts:6-12 | the loop returns the recursive sum for every integer n, 0 when n <= 0, and twice its result is n(n+1) when n >= 0; at each loop head twice the sum is (i-1)i |
| SumToN.SumToNRecursion | src/problem4/sum_to_n.ts:30-33 | terminates; 0 for n <= 0, never negative, at least n when n > 0 |
| SumToN.SumToNFormula | src/problem4/sum_to_n.ts:20-22 | twice the result is n(n+1): the halving is exact for every integer n |
| SumToN.RecursionClosedForm | src/problem4/sum_to_n.ts:30-33 | for n >= 0 the recursion equals n(n+1)/2 and the formula |
| SumToN.FormulaAgreesFromMinusOne | src/problem4/sum_to_n.ts:1-33 | the formula agrees with the recursion (and so with the loop) for every n >= -1 |
| SumToN.FormulaDisagreesBelowMinusOne | src/problem4/sum_to_n.ts:20-22 | for n <= -2 the formula is positive and differs from the other two |
| JsNumber.ParseFloat | src/problem2/src/components/SwapForm.tsx:69-70 | `parseFloat` is NaN exactly when there is no digit before or after the point; otherwise the value is non-negative |
| JsNumber.RoundToMillionths | src/problem2/src/components/SwapForm.tsx:75 | the chosen count of millionths is within half a millionth of the value |
| JsNumber.NatToDecimal | src/problem2/src/components/SwapForm.tsx:75 | the integer part is written as digits without leading zeros, with the number's value |
| JsNumber.FixedDigits | src/problem2/src/components/SwapForm.tsx:75 | the fraction is written as exactly six digits, with the number's value |
| JsNumber.ParseToFixed6 | src/problem2/src/components/SwapForm.tsx:75 | reading back what `toFixed(6)` wrote gives the rounded value exactly |
| JsNumber.ToFixed6Shape | src/problem2/src/components/SwapForm.tsx:75 | `toFixed(6)` writes digits, one '.', and exactly six digits after it |
| AmountInput.PatternIsAmountText | src/problem2/src/components/AmountInput.tsx:25 | the regular expression accepts exactly the texts of digits with at most one '.' |
| AmountInput.HandleChange | src/problem2/src/components/AmountInput.tsx:21-28 | a text is forwarded exactly when it is digits with at most one '.' (the empty text included), and it is forwarded unchanged |
| AmountInput.HeldAfter | src/problem2/src/components/AmountInput.tsx:21-28 | after a change event the parent holds the typed text when it was accepted, and its previous value otherwise |
| AmountInput.AcceptedForms | src/problem2/src/components/AmountInput.tsx:25-26 | "", ".", "5.", ".5" and "12.50" are forwarded |
| AmountInput.RejectsForeignCharacter | src/problem2/src/components/AmountInput.tsx:21-28 | any character other than a digit or '.' drops the event, and whatever value the parent held stays |
| AmountInput.RejectsTwoDots | src/problem2/src/components/AmountInput.tsx:25 | two '.' anywhere drop the event |
| AmountInput.FormattedAmountIsAccepted | src/problem2/src/components/AmountInput.tsx:25-26 | every `toFixed(6)` output passes the gate |
| SymbolOrder.Total | src/problem2/src/services/tokenService.ts:37 | any two symbols are ordered one way or the other |
| SymbolOrder.Antisymmetric | src/problem2/src/services/tokenService.ts:37 | symbols ordered both ways are equal |
| SymbolOrder.Transitive | src/problem2/src/services/tokenService.ts:37 | the order is transitive |
| TokenService.TokenName | src/problem2/src/services/tokenService.ts:40-51 | the six fixed names, and the symbol itself exactly for every other symbol |
| TokenService.BuildPriceMap | src/problem2/src/services/tokenService.ts:22-25 | the loop builds the fold of the feed (later entries overwrite); the insertion order lists each key once |
| TokenService.PriceMapKeys | src/problem2/src/services/tokenService.ts:22-25 | the map has a key exactly for each currency in the feed |
| TokenService.LastWriteWins | src/problem2/src/services/tokenService.ts:23-25 | a currency's price is the one of its last entry |
| TokenService.SortBySymbol | src/problem2/src/services/tokenService.ts:37 | the sort is a permutation of its input |
| TokenService.SortIsSorted | src/problem2/src/services/tokenService.ts:37 | the sorted list ascends by symbol |
| TokenService.SortKeepsDistinct | src/problem2/src/services/tokenService.ts:37 | sorting keeps symbols distinct |
| TokenService.SortedBuildIsCatalog | src/problem2/src/services/tokenService.ts:28-37 | building and sorting the folded feed gives a catalog: strictly ascending by symbol, one token per feed currency and no other, last price wins, name and icon address derived from the symbol |
| TokenService.FetchTokenPrices | src/problem2/src/services/tokenService.ts:8-16 | the feed's entries when the request succeeds, and no entries when it fails |
| TokenService.GetTokensWithPrices | src/problem2/src/services/tokenService.ts:18-37 | the result is the catalog of the feed; a failed request gives the empty list |
| TokenService.EmptyFeedEmptyCatalog | src/problem2/src/services/tokenService.ts:12-15 | an empty feed has only the empty catalog |
| TokenService.CatalogHasDistinctSymbols | src/problem2/src/services/tokenService.ts:22-37 | no symbol appears twice in a catalog |
| TokenService.CatalogIsUnique | src/problem2/src/services/tokenService.ts:18-37 | the catalog promises determine the list: two catalogs of one feed are equal |
| TokenSelector.ToLower | src/problem2/src/components/TokenSelector.tsx:24-25 | the result equals the input up to the case of ASCII letters and holds no upper-case letter |
| TokenSelector.CaseVariantsLowerAlike | src/problem2/src/components/TokenSelector.tsx:24-25 | strings equal up to letter case lower-case to the same string |
| TokenSelector.ToLowerIdempotent | src/problem2/src/components/TokenSelector.tsx:24-25 | lower-casing twice is lower-casing once |
| TokenSelector.IncludesMeansOccurs | src/problem2/src/components/TokenSelector.tsx:24-25 | `includes` holds exactly when the needle occurs at some position |
| TokenSelector.FilterTokens | src/problem2/src/components/TokenSelector.tsx:22-26 | the result is an order-preserving sub-list; a token is in it exactly when its lower-cased name or symbol contains the lower-cased query; a matching token occurs as often as in the input, any other not at all |
| TokenSelector.EmptyQueryKeepsAll | src/problem2/src/components/TokenSelector.tsx:22-26 | the empty query keeps the whole list |
| TokenSelector.CaseInsensitiveQuery | src/problem2/src/components/TokenSelector.tsx:22-26 | queries equal up to letter case give the same list |
| TokenSelector.Dropdown.constructor | src/problem2/src/components/TokenSelector.tsx:18-19 | starts closed with an empty search |
| TokenSelector.Dropdown.Toggle | src/problem2/src/components/TokenSelector.tsx:52 | flips the open flag and keeps the search |
| TokenSelector.Dropdown.SetSearchQuery | src/problem2/src/components/TokenSelector.tsx:88 | the search becomes the typed text; the open flag stays |
| TokenSelector.Dropdown.Choose | src/problem2/src/components/TokenSelector.tsx:100-104 | hands back the clicked token, closes, clears the search, so the full list shows next time |
| SwapRules.Rate | src/problem2/src/components/SwapForm.tsx:71 | with both prices usable the rate is positive |
| SwapRules.Converted | src/problem2/src/components/SwapForm.tsx:69-72 | the converted amount is non-negative, and zero exactly when the typed value is zero |
| SwapRules.DerivedText | src/problem2/src/components/SwapForm.tsx:62-83 | the effect writes "" when a side, a price (absent or 0) or the amount is missing, and writes nothing exactly when the amount is non-empty and unparsable with both prices usable |
| SwapRules.DeriveToAmount | src/problem2/src/components/SwapForm.tsx:59-84 | the target amount is "" when a side, a price or the amount is missing, and is kept when the amount is unparsable |
| SwapRules.DerivedAmountReadsBack | src/problem2/src/components/SwapForm.tsx:69-76 | when everything is usable, the target amount reads back as amount x rate rounded to millionths |
| SwapRules.DeriveIgnoresToAmount | src/problem2/src/components/SwapForm.tsx:62-83 | the derivation depends on the old target amount only in the keep case |
| SwapRules.Settle | src/problem2/src/components/SwapForm.tsx:59-84 | applying the derivation changes only the target amount and leaves data on which it changes nothing |
| SwapRules.SettleKeepsAmountText | src/problem2/src/components/SwapForm.tsx:59-84 | when both amounts are text the amount field accepts, they still are after the derivation: it writes "", keeps the target text, or writes `toFixed(6)` output |
| SwapRules.DerivationExample | src/problem2/src/components/SwapForm.tsx:59-84 | 2 ETH at 2000 against BTC at 40000 derives "0.100000" |
| SwapRules.ExchangeRate | src/problem2/src/components/SwapForm.tsx:214-223 | the rate line is empty exactly when a side or a usable price is missing, and starts with "1 " otherwise |
| SwapRules.ExchangeRateReadsBack | src/problem2/src/components/SwapForm.tsx:214-223 | a priced line starts "1 FROM ≈ ", ends " TO", and the text between reads back as the rate rounded to millionths |
| SwapRules.ExchangeRateExample | src/problem2/src/components/SwapForm.tsx:214-223 | the line reads "1 ETH ≈ 0.050000 BTC" for those prices |
| SwapRules.ZeroPriceExample | src/problem2/src/components/SwapForm.tsx:62-83 | a zero price on one side empties both the rate line and the target amount |
| SwapRules.SelectFrom | src/problem2/src/components/SwapForm.tsx:101-114 | the chosen token becomes "from"; "to" takes the old "from" exactly when the symbols clash, else stays; amounts stay; distinct sides stay distinct |
| SwapRules.SelectTo | src/problem2/src/components/SwapForm.tsx:116-129 | the mirror image for "to" |
| SwapRules.SelectingOtherSideExchangesTokens | src/problem2/src/components/SwapForm.tsx:101-129 | picking on one side the token of the other side exchanges the two tokens |
| SwapRules.Exchange | src/problem2/src/components/SwapForm.tsx:137-143 | both tokens and both amounts trade places; distinct sides stay distinct |
| SwapRules.ExchangeIsInvolution | src/problem2/src/components/SwapForm.tsx:137-143 | exchanging twice restores all four fields |
| SwapRules.ReverseTwiceReformats | src/problem2/src/components/SwapForm.tsx:137-143 | with the derivation in between, two reversals turn "2" into "2.000000" |
| SwapRules.ValidateAsWritten | src/problem2/src/components/SwapForm.tsx:153-173 | validation as written passes exactly when both sides are chosen, the amount is non-empty, and it does not parse to a value <= 0; a missing side sets only the general message, a rejected amount only the amount message, a pass clears both |
| SwapRules.AsWrittenAcceptsBareDot | src/problem2/src/components/SwapForm.tsx:165 | "." does not parse yet passes validation as written |
| SwapRules.Validate | src/problem2/src/components/SwapForm.tsx:153-173 | passes exactly when both sides are chosen and the amount parses above zero; a missing side sets only the general message, a bad amount only the amount message, success clears both |
| SwapRules.ValidateAgreesOnReadableText | src/problem2/src/components/SwapForm.tsx:165 | the two validations agree on empty and on parsable text |
| SwapRules.ZeroOrEmptyAmountRejected | src/problem2/src/components/SwapForm.tsx:165-169 | "0" and "" fail and set the amount message, under the validation as written and under the corrected one |
| SwapRules.SuccessMessageExample | src/problem2/src/components/SwapForm.tsx:188-190 | the message reads "Successfully swapped 2 ETH for 0.100000 BTC" for that data |
| SwapRules.FindBySymbol | src/problem2/src/components/SwapForm.tsx:39-40 | returns the token at the first position holding the symbol, and None exactly when no token has it |
| SwapRules.DefaultsAsWritten | src/problem2/src/components/SwapForm.tsx:38-47 | "from" is the first ETH token, else the first token; independently, "to" is the first BTC token, else the second token |
| SwapRules.AsWrittenDefaultsCanCoincide | src/problem2/src/components/SwapForm.tsx:38-47 | for the catalog [BTC, USDC] the written defaults put BTC on both sides |
| SwapRules.Defaults | src/problem2/src/components/SwapForm.tsx:38-47 | the defaults are two listed tokens with different symbols, ETH on "from" when listed, BTC on "to" when listed and not already "from" |
| SwapRules.WithDefaults | src/problem2/src/components/SwapForm.tsx:42-46 | the written pair replaces both sides, the typed amount stays, the data is settled, acceptable amount text stays acceptable; where the two picks differ on a catalog they are the intended pair |
| SwapRules.DefaultsAgreeWhenDistinct | src/problem2/src/components/SwapForm.tsx:38-47 | where the written defaults differ, the corrected ones are the same pair |
| SwapRules.DerivationEffectAsWritten | src/problem2/src/components/SwapForm.tsx:59-84 | each write of the effect as written installs the settled data under a new identity |
| SwapRules.AsWrittenEffectNeverSettles | src/problem2/src/components/SwapForm.tsx:59-84 | once it writes, the effect as written writes again after every run, for any number of runs |
| SwapRules.AsWrittenEffectLoopsFromMount | src/problem2/src/components/SwapForm.tsx:59-84 | this already happens from the first render's data |
| SwapRules.DerivationEffect | src/problem2/src/components/SwapForm.tsx:59-84 | the intended effect writes the settled data, and writes nothing only when the data is already settled |
| SwapRules.DerivationEffectSettles | src/problem2/src/components/SwapForm.tsx:59-84 | after one write the intended effect stops; the written one writes the same data |
| SwapForm.SwapForm.constructor | src/problem2/src/components/SwapForm.tsx:12-30 | the first render's state: loading, nothing selected, no errors, no timers |
| SwapForm.SwapForm.LoadTokens | src/problem2/src/components/SwapForm.tsx:32-56 | installs the catalog of the feed; with at least two tokens installs the written default pair (which can be one token twice), otherwise keeps the form data; always ends loading; keeps the invariant |
| SwapForm.SwapForm.HandleFromAmountChange | src/problem2/src/components/SwapForm.tsx:86-99 | for amount text, the only text the field's gate passes on: the amount becomes the value (then derived), the amount error is cleared, the general error, tokens and flags stay |
| SwapForm.SwapForm.TypeAmount | src/problem2/src/components/SwapForm.tsx:259-265 | a keystroke reaches the form only as amount text; an accepted one sets and derives the amount, clears the amount error and keeps the general error; a rejected one changes nothing |
| SwapForm.SwapForm.SelectFromToken | src/problem2/src/components/SwapForm.tsx:101-114 | applies the "from" selection rule then the derivation; errors and flags stay |
| SwapForm.SwapForm.SelectToToken | src/problem2/src/components/SwapForm.tsx:116-129 | applies the "to" selection rule then the derivation; errors and flags stay |
| SwapForm.SwapForm.BeginReverse | src/problem2/src/components/SwapForm.tsx:131-133 | only when the button is enabled: the reversal flag rises and the exchange timer is armed; nothing else changes |
| SwapForm.SwapForm.ExchangeSides | src/problem2/src/components/SwapForm.tsx:136-143 | tokens and amounts trade places, then the derivation runs; the flag stays up until the reset timer |
| SwapForm.SwapForm.EndReverse | src/problem2/src/components/SwapForm.tsx:146-149 | the flag drops and the button is enabled again |
| SwapForm.SwapForm.BeginSubmit | src/problem2/src/components/SwapForm.tsx:175-182 | starts exactly when validation as written passes (so "." starts a swap); the errors become that validation's; the form data is untouched and captured when started |
| SwapForm.SwapForm.CompleteSubmit | src/problem2/src/components/SwapForm.tsx:184-199 | the message is built from the captured data, both amounts are cleared, submission ends, the dialog opens |
| SwapForm.SwapForm.FailSubmit | src/problem2/src/components/SwapForm.tsx:200-207 | the general error says the swap failed, submission ends, amounts are kept |
| SwapForm.SwapForm.CloseSuccessModal | src/problem2/src/components/SwapForm.tsx:210-212 | the dialog closes and nothing else changes |
| SwapForm.SwapForm.GetExchangeRate | src/problem2/src/components/SwapForm.tsx:214-223 | the rate line of the current data is empty exactly when it cannot be priced |

Every `SwapForm.SwapForm` method keeps `Valid()`:

- the catalog lists no symbol twice;
- both amounts are text the amount field accepts (digits with at most one '.', or empty), so a reversal only moves acceptable text into the editable field;
- the reversal flag is up exactly while a reversal timer is armed;
- a captured submission exists exactly while `swapping` holds, and it names both tokens.

Each method that changes the form data leaves `SwapRules.Settle` of the new data, and `Settle` only returns settled data, so the derivation has always run.

## Left out

- The HTTP request to the price feed. Its outcome is a parameter: the feed entries, or None for a failed request. A payload that is not a list of entries is not modelled.
- IEEE floating point. Prices, rates and amounts are exact reals, and prices are non-negative.
- JsNumber.ParseFloat: leading white space, signs, exponents and "Infinity" are not read. The amount field never passes them on.
- JsNumber.RoundToMillionths: rounds exact values half up. It does not model binary rounding or the exponent notation `toFixed` uses from 10^21 on.
- TokenService.TokenName: symbols that name inherited object properties (such as "toString") are not modelled. In the code the lookup would return a function rather than a string.
- TokenService.SortBySymbol: `localeCompare` is read as code-point order. Locale-specific collation is not modelled.
- TokenSelector.ToLower: lower-cases ASCII letters only.
- SumToN.SumToNLoop and the other two sums: `n` is an unbounded integer. Precision loss beyond 2^53 and non-integer arguments are not modelled.
- Timers: the 300 ms, 10 ms and 1500 ms delays are not modelled, only the order of the steps they separate.
- `slideDirection` and its animation classes are not modelled. Neither is any of `Modal.tsx`.
- Rendering is not modelled, including icon fall-back addresses and the "Swapping..." label. The form's controls only exist once loading has ended, and the methods do not require that.
- The dropdown closing on a click outside it is not modelled. Neither is the page reload button.
- The derivation effect runs once per change: the class applies `SwapRules.Settle`, the intended effect. The re-running effect as written is modelled separately in `SwapRules` (see Findings).
- SwapForm.SwapForm.FailSubmit models the failure branch as a step that may be taken. In the code the awaited delay never rejects.
- The `problem5` CRUD service is not part of this model. It is thin Express/Mongoose plumbing.

## Findings

The form class follows the first two as written. For the third it applies the data the effect writes, once per change, since a method cannot re-run without end (see Left out). Each corrected member is proved alongside with the intended property.

| source | as written | input that shows it | evidently intended | confidence | as-written member | corrected member |
|---|---|---|---|---|---|---|
| src/problem2/src/components/SwapForm.tsx:38-47 | defaults are ETH-or-first and BTC-or-second, chosen independently | a catalog [BTC, USDC] (no ETH): BTC lands on both sides | two different tokens, as the selection handlers keep them | medium, not executed | SwapRules.DefaultsAsWritten, SwapRules.AsWrittenDefaultsCanCoincide | SwapRules.Defaults, SwapRules.DefaultsAgreeWhenDistinct |
| src/problem2/src/components/SwapForm.tsx:165 | the amount check rejects only "" and values <= 0, and NaN <= 0 is false | fromAmount "." with both tokens chosen passes validation | text that is not a number above zero fails with "Please enter a valid amount" | medium, not executed | SwapRules.ValidateAsWritten, SwapRules.AsWrittenAcceptsBareDot | SwapRules.Validate, SwapRules.ValidateAgreesOnReadableText |
| src/problem2/src/components/SwapForm.tsx:59-84 | the effect depends on the `formData` object and stores a new object on nearly every run, so it re-triggers itself | the first render (nothing selected, empty amounts): it writes after every run, without end | write the derived amount once and then stop | high, not executed | SwapRules.DerivationEffectAsWritten, SwapRules.AsWrittenEffectNeverSettles | SwapRules.DerivationEffect, SwapRules.DerivationEffectSettles |
