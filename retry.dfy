/** `fetchWithRetry`: a bounded loop of fetch attempts with a fixed pause
    between a failed attempt and the next one. The network is a sequence of
    per-attempt outcomes; the pause is counted, not timed. */
module Retry {
  import opened Status

  /** What one `fetch(url)` turns out to be. */
  datatype Attempt<T> = Succeeded(payload: T) | Failed

  /** How the call ends: it resolves with the payload, it throws "Server did
      not respond after multiple attempts.", or, when the loop never runs, it
      resolves with `undefined`. */
  datatype Fetched<T> = Payload(value: T) | ServerUnavailable | Undefined

  /** The status messages written before attempts 0 to n - 1. */
  function Progress(n: nat): (r: seq<Status>)
    ensures |r| == n
    ensures forall i :: 0 <= i < n ==> r[i] == BeforeAttempt(i)
  {
    seq(n, i requires 0 <= i < n => BeforeAttempt(i))
  }

  /** Attempt `k` is the first one that succeeds. */
  predicate FirstSuccess<T>(network: seq<Attempt<T>>, k: nat) {
    k < |network| && network[k].Succeeded? && forall j :: 0 <= j < k ==> network[j].Failed?
  }

  /** Runs the attempts `network[0]`, `network[1]`, ... for at most `retries`
      attempts. `attempts` counts the fetches made, `delays` the pauses, and
      `shown` lists the status messages in the order they are written. */
  method FetchWithRetry<T>(network: seq<Attempt<T>>, retries: int)
    returns (r: Fetched<T>, attempts: nat, delays: nat, shown: seq<Status>)
    requires retries <= |network|
    ensures retries > 0 ==> 1 <= attempts <= retries
    ensures |shown| == attempts + (if r.Payload? then 1 else 0)
    ensures forall i :: 0 <= i < attempts ==> shown[i] == BeforeAttempt(i)
    ensures r.Payload? <==> exists k :: 0 <= k < retries && network[k].Succeeded?
    ensures r.Payload? ==>
              && attempts > 0 && FirstSuccess(network, attempts - 1)
              && r.value == network[attempts - 1].payload
              && delays == attempts - 1
              && shown == Progress(attempts) + [Cleared]
    ensures r.ServerUnavailable? <==> retries > 0 && forall k :: 0 <= k < retries ==> network[k].Failed?
    ensures r.ServerUnavailable? ==> attempts == retries && delays == retries - 1 && shown == Progress(retries)
    ensures r.Undefined? <==> retries <= 0
    ensures r.Undefined? ==> attempts == 0 && delays == 0 && shown == []
  {
    attempts, delays, shown := 0, 0, [];
    var i := 0;
    while i < retries
      invariant 0 <= i && (retries > 0 ==> i < retries) && (retries <= 0 ==> i == 0)
      invariant attempts == i && delays == i && shown == Progress(i)
      invariant forall j :: 0 <= j < i ==> network[j].Failed?
    {
      shown := shown + [BeforeAttempt(i)];
      attempts := attempts + 1;
      match network[i]
      case Succeeded(p) =>
        shown := shown + [Cleared];
        r := Payload(p);
        return;
      case Failed =>
        if i == retries - 1 {
          r := ServerUnavailable;
          return;
        }
        delays := delays + 1;
        i := i + 1;
    }
    r := Undefined;
  }

  /** Three failures and then a success, within the default four attempts:
      the fourth payload comes back after three pauses. */
  method SucceedsOnFourthAttempt() returns (r: Fetched<int>, attempts: nat, delays: nat)
    ensures r == Payload(7) && attempts == 4 && delays == 3
  {
    var shown;
    r, attempts, delays, shown := FetchWithRetry([Failed, Failed, Failed, Succeeded(7)], 4);
    assert FirstSuccess([Failed, Failed, Failed, Succeeded(7)], 3);
  }

  /** A server that never answers: four attempts, three pauses, then the throw. */
  method NeverSucceeds() returns (r: Fetched<int>, attempts: nat, delays: nat, shown: seq<Status>)
    ensures r == ServerUnavailable && attempts == 4 && delays == 3
    ensures shown == [WakingUp, Retrying(2), Retrying(3), Retrying(4)]
  {
    r, attempts, delays, shown := FetchWithRetry([Failed, Failed, Failed, Failed], 4);
  }
}
