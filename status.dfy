/** The messages the page writes into its single status area
    (`statusMessage.textContent`), and their exact texts. */
module Status {
  import opened Text

  datatype Status =
    | Cleared                 // ""
    | WakingUp                // before the first attempt of a fetch
    | Retrying(attempt: nat)  // before a later attempt; `attempt` is counted from 1
    | ServerLive              // the registry has loaded
    | LoadFailed              // every attempt to load the registry failed
    | SelectBoth              // a conversion without both currencies
    | InvalidAmount           // a conversion without a positive amount
    | Converting              // a conversion request is on its way
    | ConversionFailed        // the conversion request failed

  /** The text shown for a status. */
  function Message(s: Status): (m: string)
    ensures m == "" <==> s == Cleared
  {
    match s
    case Cleared => ""
    case WakingUp => "\U{2699}\U{FE0F} Waking up the server, this may take a moment..."
    case Retrying(n) => "\U{2699}\U{FE0F} Server is starting... Retrying attempt " + Decimal(n) + "..."
    case ServerLive => "\U{2705} Server is live! You're ready to convert."
    case LoadFailed => "\U{274C} Failed to load currencies. The server might be down. Please try again later."
    case SelectBoth => "\U{26A0}\U{FE0F} Please select both 'from' and 'to' currencies."
    case InvalidAmount => "\U{26A0}\U{FE0F} Please enter a valid amount greater than zero."
    case Converting => "Converting..."
    case ConversionFailed => "\U{274C} Failed to fetch conversion. Please try again."
  }

  /** The status written before attempt `i` (counted from 0) of a fetch. */
  function BeforeAttempt(i: nat): (s: Status)
    ensures i == 0 <==> s == WakingUp
    ensures i > 0 ==> s == Retrying(i + 1)
  {
    if i == 0 then WakingUp else Retrying(i + 1)
  }

  /** The retry message names the attempt number in decimal. */
  lemma RetryingNamesAttempt(n: nat)
    ensures var m := Message(Retrying(n));
            var prefix := "\U{2699}\U{FE0F} Server is starting... Retrying attempt ";
            |m| > |prefix| + 3 && m[..|prefix|] == prefix && m[|m| - 3..] == "..."
            && DigitsValue(m[|prefix|..|m| - 3]) == n
  {
    var m := Message(Retrying(n));
    var prefix := "\U{2699}\U{FE0F} Server is starting... Retrying attempt ";
    assert m == prefix + Decimal(n) + "...";
    assert m[|prefix|..|m| - 3] == Decimal(n);
    DecimalRoundTrip(n);
  }
}
