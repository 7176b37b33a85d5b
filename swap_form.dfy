/** The swap form component (SwapForm.tsx) as an object whose fields are its
    state slots.  Each method is one event handler or one timer callback,
    with the derivation effect applied to the form data it leaves behind (the
    effect as intended: it writes at most once, see SwapRules).  The two
    `setTimeout` gaps of the reversal and the delay of the submission are
    split into separate steps. */
module SwapForm {
  import opened Wrappers
  import opened Types
  import opened AmountInput
  import opened TokenService
  import opened SwapRules

  /** Where the reversal button's timers stand. */
  datatype ReverseTimer =
    | NoReverseTimer   // no reversal in progress
    | ExchangePending  // the 300 ms timer that exchanges the sides is armed
    | ResetPending     // the 10 ms timer that ends the animation is armed

  class SwapForm {
    var tokens: seq<Token>
    var loading: bool
    var swapping: bool
    var showSuccessModal: bool
    var successMessage: string
    var formData: SwapFormData
    var errors: FormErrors
    var isSwapping: bool
    var reverseTimer: ReverseTimer
    /** The form data `handleSubmit` captured, while its delay is running. */
    var pendingSwap: Option<SwapFormData>

    /** The invariant every handler keeps: the catalog has one token per
        symbol, both amounts are text the amount field accepts, the
        animation flag matches the armed timers, and a pending submission
        exists exactly while `swapping` and names both tokens.
        (That the derivation has settled is stated per handler: each one
        leaves `Settle` of its data, or the data unchanged.) */
    ghost predicate Valid()
      reads this
    {
      DistinctSymbols(tokens) &&
      AmountsAreText(formData) &&
      (isSwapping <==> reverseTimer != NoReverseTimer) &&
      (swapping <==> pendingSwap.Some?) &&
      (pendingSwap.Some? ==> BothSelected(pendingSwap.value))
    }

    /** The first render: nothing loaded, nothing selected, no errors. */
    constructor ()
      ensures Valid()
      ensures tokens == [] && loading && !swapping && !showSuccessModal && successMessage == ""
      ensures formData == SwapFormData(None, None, "", "") && errors == NoErrors
      ensures !isSwapping && reverseTimer == NoReverseTimer && pendingSwap == None
    {
      tokens := [];
      loading := true;
      swapping := false;
      showSuccessModal := false;
      successMessage := "";
      formData := SwapFormData(None, None, "", "");
      errors := NoErrors;
      isSwapping := false;
      reverseTimer := NoReverseTimer;
      pendingSwap := None;
    }

    /** The mount effect `loadTokens`, given the price feed's answer (None when
        the request failed): installs the catalog, picks the default pair as
        written when there are at least two tokens (both sides can then be
        one token), and ends loading. */
    method LoadTokens(response: Option<seq<TokenPrice>>)
      requires Valid()
      modifies this
      ensures Valid()
      ensures IsCatalogFor(FetchTokenPrices(response), tokens)
      ensures |tokens| >= 2 ==> formData == WithDefaults(old(formData), tokens)
      ensures |tokens| < 2 ==> formData == old(formData)
      ensures !loading
      ensures swapping == old(swapping) && showSuccessModal == old(showSuccessModal)
      ensures successMessage == old(successMessage) && errors == old(errors)
      ensures isSwapping == old(isSwapping) && reverseTimer == old(reverseTimer) && pendingSwap == old(pendingSwap)
    {
      var catalog := GetTokensWithPrices(response);
      CatalogHasDistinctSymbols(FetchTokenPrices(response), catalog);
      var data := if |catalog| >= 2 then WithDefaults(formData, catalog) else formData;
      tokens, formData, loading := catalog, data, false;
    }

    /** `handleFromAmountChange`: the source text becomes `value` and the
        amount error is cleared.  The handler is reached only through the
        amount field's gate, so `value` is amount text. */
    method HandleFromAmountChange(value: string)
      requires Valid() && IsAmountText(value)
      modifies this
      ensures Valid()
      ensures formData == Settle(old(formData).(fromAmount := value))
      ensures errors == old(errors).(fromAmount := "")
      ensures tokens == old(tokens) && loading == old(loading) && swapping == old(swapping)
      ensures showSuccessModal == old(showSuccessModal) && successMessage == old(successMessage)
      ensures isSwapping == old(isSwapping) && reverseTimer == old(reverseTimer) && pendingSwap == old(pendingSwap)
    {
      SettleKeepsAmountText(formData.(fromAmount := value));
      formData := Settle(formData.(fromAmount := value));
      if errors.fromAmount != "" {
        errors := errors.(fromAmount := "");
      }
    }

    /** A change event in the editable amount field: the input gate forwards
        the text only when it is amount text; otherwise nothing changes. */
    method TypeAmount(text: string)
      requires Valid()
      modifies this
      ensures Valid()
      ensures IsAmountText(text) ==> formData == Settle(old(formData).(fromAmount := text)) && errors == old(errors).(fromAmount := "")
      ensures !IsAmountText(text) ==> formData == old(formData) && errors == old(errors)
      ensures IsAmountText(formData.fromAmount) || formData.fromAmount == old(formData).fromAmount
      ensures tokens == old(tokens) && loading == old(loading) && swapping == old(swapping)
      ensures showSuccessModal == old(showSuccessModal) && successMessage == old(successMessage)
      ensures isSwapping == old(isSwapping) && reverseTimer == old(reverseTimer) && pendingSwap == old(pendingSwap)
    {
      var forwarded := HandleChange(text);
      if forwarded.Some? {
        HandleFromAmountChange(forwarded.value);
      }
    }

    /** `handleSelectFromToken`; the error messages are left as they are. */
    method SelectFromToken(token: Token)
      requires Valid()
      modifies this
      ensures Valid()
      ensures formData == Settle(SelectFrom(old(formData), token))
      ensures formData.fromToken == Some(token)
      ensures tokens == old(tokens) && loading == old(loading) && swapping == old(swapping) && errors == old(errors)
      ensures showSuccessModal == old(showSuccessModal) && successMessage == old(successMessage)
      ensures isSwapping == old(isSwapping) && reverseTimer == old(reverseTimer) && pendingSwap == old(pendingSwap)
    {
      SettleKeepsAmountText(SelectFrom(formData, token));
      formData := Settle(SelectFrom(formData, token));
    }

    /** `handleSelectToToken`; the error messages are left as they are. */
    method SelectToToken(token: Token)
      requires Valid()
      modifies this
      ensures Valid()
      ensures formData == Settle(SelectTo(old(formData), token))
      ensures formData.toToken == Some(token)
      ensures tokens == old(tokens) && loading == old(loading) && swapping == old(swapping) && errors == old(errors)
      ensures showSuccessModal == old(showSuccessModal) && successMessage == old(successMessage)
      ensures isSwapping == old(isSwapping) && reverseTimer == old(reverseTimer) && pendingSwap == old(pendingSwap)
    {
      SettleKeepsAmountText(SelectTo(formData, token));
      formData := Settle(SelectTo(formData, token));
    }

    /** A click on the reversal button (disabled while `isSwapping`): the
        animation starts and the exchange timer is armed. */
    method BeginReverse()
      requires Valid() && !isSwapping
      modifies this
      ensures Valid()
      ensures isSwapping && reverseTimer == ExchangePending
      ensures formData == old(formData) && tokens == old(tokens) && errors == old(errors)
      ensures loading == old(loading) && swapping == old(swapping) && pendingSwap == old(pendingSwap)
      ensures showSuccessModal == old(showSuccessModal) && successMessage == old(successMessage)
    {
      isSwapping := true;
      reverseTimer := ExchangePending;
    }

    /** The 300 ms timer: both tokens and both amounts trade places, then the
        derivation runs on the new source amount. */
    method ExchangeSides()
      requires Valid() && reverseTimer == ExchangePending
      modifies this
      ensures Valid()
      ensures formData == Settle(Exchange(old(formData)))
      ensures formData.fromToken == old(formData).toToken && formData.toToken == old(formData).fromToken
      ensures formData.fromAmount == old(formData).toAmount
      ensures isSwapping && reverseTimer == ResetPending
      ensures tokens == old(tokens) && errors == old(errors)
      ensures loading == old(loading) && swapping == old(swapping) && pendingSwap == old(pendingSwap)
      ensures showSuccessModal == old(showSuccessModal) && successMessage == old(successMessage)
    {
      var exchanged := Exchange(formData);
      SettleKeepsAmountText(exchanged);
      formData := Settle(exchanged);
      reverseTimer := ResetPending;
    }

    /** The 10 ms timer: the animation ends and the button is enabled again. */
    method EndReverse()
      requires Valid() && reverseTimer == ResetPending
      modifies this
      ensures Valid()
      ensures !isSwapping && reverseTimer == NoReverseTimer
      ensures formData == old(formData) && tokens == old(tokens) && errors == old(errors)
      ensures loading == old(loading) && swapping == old(swapping) && pendingSwap == old(pendingSwap)
      ensures showSuccessModal == old(showSuccessModal) && successMessage == old(successMessage)
    {
      isSwapping := false;
      reverseTimer := NoReverseTimer;
    }

    /** Submitting the form (the button is disabled while `swapping`): the
        form is validated as written (so non-empty text that does not parse,
        such as ".", passes), the errors are replaced by the validation's,
        and on success the swap starts with the current form data captured. */
    method BeginSubmit() returns (started: bool)
      requires Valid() && !swapping
      modifies this
      ensures Valid()
      ensures started <==> ValidateAsWritten(old(formData)).ok
      ensures errors == ValidateAsWritten(old(formData)).errors
      ensures started ==> swapping && pendingSwap == Some(old(formData))
      ensures !started ==> !swapping && pendingSwap == None
      ensures formData == old(formData) && tokens == old(tokens) && loading == old(loading)
      ensures showSuccessModal == old(showSuccessModal) && successMessage == old(successMessage)
      ensures isSwapping == old(isSwapping) && reverseTimer == old(reverseTimer)
    {
      var v := ValidateAsWritten(formData);
      errors := v.errors;
      started := v.ok;
      if started {
        swapping := true;
        pendingSwap := Some(formData);
      }
    }

    /** The end of the submission delay: the message is built from the data
        captured at submission, both amounts are cleared, and the success
        dialog opens. */
    method CompleteSubmit()
      requires Valid() && swapping
      modifies this
      ensures Valid()
      ensures successMessage == SuccessMessage(old(pendingSwap).value)
      ensures formData == old(formData).(fromAmount := "", toAmount := "")
      ensures !swapping && pendingSwap == None && showSuccessModal
      ensures tokens == old(tokens) && errors == old(errors) && loading == old(loading)
      ensures isSwapping == old(isSwapping) && reverseTimer == old(reverseTimer)
    {
      successMessage := SuccessMessage(pendingSwap.value);
      SettleKeepsAmountText(formData.(fromAmount := "", toAmount := ""));
      formData := Settle(formData.(fromAmount := "", toAmount := ""));
      swapping := false;
      pendingSwap := None;
      showSuccessModal := true;
    }

    /** The `catch` branch of `handleSubmit`: the general error says the swap
        failed and the button is enabled again; the form data stays. */
    method FailSubmit()
      requires Valid() && swapping
      modifies this
      ensures Valid()
      ensures errors == old(errors).(general := SwapFailedError)
      ensures !swapping && pendingSwap == None
      ensures formData == old(formData) && tokens == old(tokens) && loading == old(loading)
      ensures showSuccessModal == old(showSuccessModal) && successMessage == old(successMessage)
      ensures isSwapping == old(isSwapping) && reverseTimer == old(reverseTimer)
    {
      errors := errors.(general := SwapFailedError);
      swapping := false;
      pendingSwap := None;
    }

    /** `closeSuccessModal`. */
    method CloseSuccessModal()
      requires Valid()
      modifies this
      ensures Valid()
      ensures !showSuccessModal
      ensures formData == old(formData) && tokens == old(tokens) && errors == old(errors)
      ensures loading == old(loading) && swapping == old(swapping) && pendingSwap == old(pendingSwap)
      ensures successMessage == old(successMessage)
      ensures isSwapping == old(isSwapping) && reverseTimer == old(reverseTimer)
    {
      showSuccessModal := false;
    }

    /** `getExchangeRate` on the current form data. */
    function GetExchangeRate(): (text: string)
      reads this
      ensures text == "" <==> !CanPrice(formData)
    {
      ExchangeRate(formData)
    }
  }
}
