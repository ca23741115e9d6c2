/** `convertCurrency`: the guards that decide whether a conversion request is
    sent at all, and what the result and status areas show afterwards. */
module Convert {
  import opened Wrappers
  import opened Status

  /** What `amount <= 0` coerces the amount's text to: a number, or NaN.
      The empty text and a blank-only text coerce to 0. */
  datatype Coerced = Number(value: real) | NaN

  /** The amount field: its text exactly as typed, and the value JavaScript's
      string-to-number coercion gives that text. */
  datatype Amount = Amount(text: string, coerced: Coerced)

  /** `amount <= 0`: the coerced value is compared, and NaN compares false. */
  predicate CoercedAtMostZero(a: Amount) {
    match a.coerced
    case Number(v) => v <= 0.0
    case NaN => false
  }

  /** `!amount`: only the empty text is falsy. */
  predicate Falsy(a: Amount) {
    a.text == ""
  }

  /** The outcome of the two input checks, in the order the handler makes them. */
  datatype Guard = MissingCurrency | BadAmount | Proceed

  /** The input checks. The currency check comes first, so a missing currency
      is reported whatever the amount; the amount check rejects the empty text
      and every number at most zero, and lets a text that is not a number
      through. */
  function Validate(from: string, to: string, amount: Amount): (g: Guard)
    ensures g == MissingCurrency <==> from == "" || to == ""
    ensures g == BadAmount <==> from != "" && to != ""
                                && (amount.text == "" || (amount.coerced.Number? && amount.coerced.value <= 0.0))
    ensures g == Proceed <==> from != "" && to != "" && amount.text != ""
                              && (amount.coerced.NaN? || amount.coerced.value > 0.0)
  {
    if from == "" || to == "" then MissingCurrency
    else if CoercedAtMostZero(amount) || Falsy(amount) then BadAmount
    else Proceed
  }

  /** The conversion request: `/convert?from=&to=&amount=` with the three
      texts as typed. */
  datatype Request = Request(from: string, to: string, amount: string)

  /** The result area: empty, or "{amount} {from} = {convertedAmount} {to} (Rate: {rate})". */
  datatype Shown = NoResult | Converted(amount: string, from: string, convertedAmount: real, to: string, rate: real)

  /** What the handler has done when it reaches the request: the result area
      is cleared, the status area written, and a request issued or not. */
  datatype Begun = Begun(result: Shown, status: Status, request: Option<Request>)

  function BeginConversion(from: string, to: string, amount: Amount): (b: Begun)
    ensures b.result == NoResult
    ensures b.request.Some? <==> Validate(from, to, amount) == Proceed
    ensures b.request.Some? ==> b.request.value == Request(from, to, amount.text) && b.status == Converting
    ensures Validate(from, to, amount) == MissingCurrency ==> b.status == SelectBoth
    ensures Validate(from, to, amount) == BadAmount ==> b.status == InvalidAmount
  {
    match Validate(from, to, amount)
    case MissingCurrency => Begun(NoResult, SelectBoth, None)
    case BadAmount => Begun(NoResult, InvalidAmount, None)
    case Proceed => Begun(NoResult, Converting, Some(Request(from, to, amount.text)))
  }

  /** The backend's answer: a 2xx response whose body carries both numbers, or
      any failure (network, status, body). */
  datatype Reply = Answer(convertedAmount: real, rate: real) | RequestFailed

  /** The handler after the request has settled. */
  function FinishConversion(req: Request, reply: Reply): (r: (Shown, Status))
    ensures reply.Answer? ==> r == (Converted(req.amount, req.from, reply.convertedAmount, req.to, reply.rate), Cleared)
    ensures reply.RequestFailed? ==> r == (NoResult, ConversionFailed)
  {
    match reply
    case Answer(x, rate) => (Converted(req.amount, req.from, x, req.to, rate), Cleared)
    case RequestFailed => (NoResult, ConversionFailed)
  }

  /** The whole handler: `reply` is what the backend would answer, and it is
      consulted only when a request is sent. */
  function ConvertCurrency(from: string, to: string, amount: Amount, reply: Reply): (r: (Shown, Status, Option<Request>))
    ensures r.2 == BeginConversion(from, to, amount).request
  {
    var b := BeginConversion(from, to, amount);
    match b.request
    case None => (b.result, b.status, None)
    case Some(req) =>
      var (shown, status) := FinishConversion(req, reply);
      (shown, status, Some(req))
  }

  /** Validation short-circuits before any request: without both currencies,
      or without a positive amount, nothing is sent, the result stays cleared
      and a warning is shown, whatever the backend would have answered. */
  lemma InvalidInputSendsNothing(from: string, to: string, amount: Amount, reply: Reply)
    requires Validate(from, to, amount) != Proceed
    ensures var r := ConvertCurrency(from, to, amount, reply);
            r.2 == None && r.0 == NoResult
            && r.1 == (if from == "" || to == "" then SelectBoth else InvalidAmount)
  {
  }

  /** With valid inputs exactly one request is sent, with the texts as typed, and the
      result shows the answer or stays empty with an error. */
  lemma ValidInputSendsOneRequest(from: string, to: string, amount: Amount, reply: Reply)
    requires from != "" && to != ""
    requires amount.text != "" && (amount.coerced.NaN? || amount.coerced.value > 0.0)
    ensures var r := ConvertCurrency(from, to, amount, reply);
            && r.2 == Some(Request(from, to, amount.text))
            && (reply.Answer? ==> r.0 == Converted(amount.text, from, reply.convertedAmount, to, reply.rate) && r.1 == Cleared)
            && (reply.RequestFailed? ==> r.0 == NoResult && r.1 == ConversionFailed)
  {
  }

  /** An amount that coerces to 0 ("0", "0.00", " ") never reaches the backend. */
  lemma ZeroAmountSendsNothing(from: string, to: string, text: string, reply: Reply)
    ensures ConvertCurrency(from, to, Amount(text, Number(0.0)), reply).2 == None
  {
  }
}
