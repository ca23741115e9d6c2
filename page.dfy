/** The page-level operations: `loadCurrencies`, which fills the registry
    through the retrying fetcher and attaches the two dropdowns, and
    `swapCurrencies`, which exchanges the two search inputs. */
module Page {
  import opened Wrappers
  import opened Registry
  import opened Status
  import opened Retry
  import opened SearchDropdown

  /** `fetchWithRetry`'s default number of attempts, which `loadCurrencies` uses. */
  const DefaultRetries: int := 4

  /** `loadCurrencies`, with the `/currencies` endpoint answering `network`.
      `registry` starts as `current` and is replaced only on success; the two
      widgets are attached only then, the "from" one tabbing to the "to" one.
      `shown` lists every status written, the last one being the final report. */
  method LoadCurrencies(network: seq<Attempt<seq<Currency>>>, current: seq<Currency>,
                        fromText: string, toText: string)
    returns (registry: seq<Currency>, shown: seq<Status>, from: Dropdown?, to: Dropdown?)
    requires DefaultRetries <= |network|
    ensures (from != null) <==> exists k :: 0 <= k < DefaultRetries && network[k].Succeeded?
    ensures (from != null) <==> (to != null)
    ensures from == null ==> registry == current && shown == Progress(DefaultRetries) + [LoadFailed]
    ensures from != null ==>
              && fresh(from) && fresh(to) && from != to
              && (exists k: nat :: FirstSuccess(network, k) && registry == network[k].payload
                                   && shown == Progress(k + 1) + [Cleared, ServerLive])
              && from.State() == Attached(FromCurrencySearch, Some(ToCurrencySearch), fromText)
              && to.State() == Attached(ToCurrencySearch, None, toText)
    ensures |shown| > 0 && shown[0] == WakingUp
  {
    var r, attempts, delays, trace := FetchWithRetry(network, DefaultRetries);
    registry, from, to := current, null, null;
    match r
    case Payload(data) =>
      registry := data;
      shown := trace + [ServerLive];
      from := new Dropdown(FromCurrencySearch, Some(ToCurrencySearch), fromText);
      to := new Dropdown(ToCurrencySearch, None, toText);
    case ServerUnavailable =>
      shown := trace + [LoadFailed];
    case Undefined =>
      assert false;
  }

  /** `swapCurrencies` on the two widgets' states: the texts are exchanged and
      both lists hidden; nothing else changes. */
  function Swapped(from: Widget, to: Widget): (r: (Widget, Widget))
    ensures r.0.value == to.value && r.1.value == from.value && !r.0.open && !r.1.open
    ensures r.0.(value := from.value, open := from.open) == from
    ensures r.1.(value := to.value, open := to.open) == to
  {
    (from.(value := to.value, open := false), to.(value := from.value, open := false))
  }

  /** Swapping twice restores both texts; the lists stay hidden. */
  lemma SwapTwice(from: Widget, to: Widget)
    ensures var once := Swapped(from, to);
            Swapped(once.0, once.1) == (from.(open := false), to.(open := false))
  {
  }

  /** `swapCurrencies`: the two texts are exchanged through a temporary and
      both lists are hidden. */
  method SwapCurrencies(from: Dropdown, to: Dropdown)
    requires from != to
    modifies from, to
    ensures (from.State(), to.State()) == Swapped(old(from.State()), old(to.State()))
  {
    var tmp := from.value;
    from.value := to.value;
    to.value := tmp;
    from.open := false;
    to.open := false;
  }
}
