/** The currency registry (`currencyData`) and the search filter that the
    dropdown's input handler applies to it. */
module Registry {
  import opened Text

  /** One record of the `/currencies` response. */
  datatype Currency = Currency(code: string, name: string)

  /** The filter's test for one record: the lowercased code or the lowercased
      name includes the lowercased search text. */
  predicate Matches(c: Currency, search: string) {
    Includes(Lower(c.code), Lower(search)) || Includes(Lower(c.name), Lower(search))
  }

  /** `currencyData.filter(...)` with the test above: records are kept in
      registry order. */
  function Filter(data: seq<Currency>, search: string): (r: seq<Currency>)
    ensures |r| <= |data|
    ensures forall i :: 0 <= i < |r| ==> Matches(r[i], search) && r[i] in data
  {
    if data == [] then []
    else if Matches(data[0], search) then [data[0]] + Filter(data[1..], search)
    else Filter(data[1..], search)
  }

  /** `idx` lists strictly increasing positions of `data`, and `r` holds the
      records at those positions, in that order. */
  ghost predicate SelectsAt(data: seq<Currency>, r: seq<Currency>, idx: seq<nat>) {
    && |idx| == |r|
    && (forall k :: 0 <= k < |idx| ==> idx[k] < |data| && r[k] == data[idx[k]])
    && (forall k, l :: 0 <= k < l < |idx| ==> idx[k] < idx[l])
  }

  /** Every position moved one place to the right. */
  function Shift(idx: seq<nat>): (r: seq<nat>)
    ensures |r| == |idx|
    ensures forall k :: 0 <= k < |idx| ==> r[k] == idx[k] + 1
  {
    seq(|idx|, k requires 0 <= k < |idx| => idx[k] + 1)
  }

  lemma ShiftMembership(idx: seq<nat>, i: nat)
    ensures i in Shift(idx) <==> i > 0 && i - 1 in idx
  {
    if i > 0 && i - 1 in idx {
      var k :| 0 <= k < |idx| && idx[k] == i - 1;
      assert Shift(idx)[k] == i;
    }
  }

  lemma SelectsShift(data: seq<Currency>, r: seq<Currency>, idx: seq<nat>)
    requires |data| > 0 && SelectsAt(data[1..], r, idx)
    ensures SelectsAt(data, r, Shift(idx))
  {
  }

  lemma SelectsCons(data: seq<Currency>, r: seq<Currency>, idx: seq<nat>)
    requires |data| > 0 && SelectsAt(data, r, idx)
    requires forall k :: 0 <= k < |idx| ==> idx[k] > 0
    ensures SelectsAt(data, [data[0]] + r, [0] + idx)
  {
    var idx' := [0] + idx;
    assert forall k :: 1 <= k < |idx'| ==> idx'[k] == idx[k - 1];
  }

  /** The filter is exact and ordered: its result is the subsequence of the
      registry at precisely the positions whose record matches. */
  lemma {:induction false} FilterSelects(data: seq<Currency>, search: string) returns (idx: seq<nat>)
    ensures SelectsAt(data, Filter(data, search), idx)
    ensures forall i :: 0 <= i < |data| ==> (Matches(data[i], search) <==> i in idx)
  {
    if data == [] {
      idx := [];
    } else {
      var rest := FilterSelects(data[1..], search);
      var r := Filter(data[1..], search);
      SelectsShift(data, r, rest);
      var shifted := Shift(rest);
      forall i | 0 <= i < |data|
        ensures i in shifted <==> i > 0 && Matches(data[i], search)
      {
        ShiftMembership(rest, i);
        if i > 0 {
          assert data[i] == data[1..][i - 1];
        }
      }
      if Matches(data[0], search) {
        SelectsCons(data, r, shifted);
        idx := [0] + shifted;
      } else {
        idx := shifted;
      }
    }
  }

  /** The filter drops exactly the records that do not match. */
  lemma FilterMembership(data: seq<Currency>, search: string, c: Currency)
    ensures c in Filter(data, search) <==> c in data && Matches(c, search)
  {
    var idx := FilterSelects(data, search);
    var r := Filter(data, search);
    if c in data && Matches(c, search) {
      var i :| 0 <= i < |data| && data[i] == c;
      var k :| 0 <= k < |idx| && idx[k] == i;
      assert r[k] == c;
    }
  }

  /** An empty search keeps the whole registry. */
  lemma {:induction false} FilterEmptySearch(data: seq<Currency>)
    ensures Filter(data, "") == data
  {
    if data != [] {
      IncludesEmpty(Lower(data[0].code));
      FilterEmptySearch(data[1..]);
    }
  }

  /** Filtering twice with the same text changes nothing more. */
  lemma {:induction false} FilterIdempotent(data: seq<Currency>, search: string)
    ensures Filter(Filter(data, search), search) == Filter(data, search)
  {
    if data != [] {
      FilterIdempotent(data[1..], search);
    }
  }

  /** Typing more characters only narrows the list: the records matching the
      longer text are those of the shorter text's list that match it. */
  lemma {:induction false} FilterNarrows(data: seq<Currency>, search: string, more: string)
    ensures Filter(data, search + more) == Filter(Filter(data, search), search + more)
  {
    if data != [] {
      FilterNarrows(data[1..], search, more);
      var c := data[0];
      if Matches(c, search + more) {
        LowerAppend(search, more);
        if Includes(Lower(c.code), Lower(search + more)) {
          IncludesPrefixOfNeedle(Lower(c.code), Lower(search), Lower(more));
        } else {
          IncludesPrefixOfNeedle(Lower(c.name), Lower(search), Lower(more));
        }
      }
    }
  }

  lemma LowerExamples()
    ensures Lower("eu") == "eu" && Lower("EUR") == "eur" && Lower("Euro") == "euro"
    ensures Lower("USD") == "usd" && Lower("US Dollar") == "us dollar"
    ensures Lower("GBP") == "gbp" && Lower("British Pound") == "british pound"
  {
  }

  lemma EuExampleMatches()
    ensures !Matches(Currency("USD", "US Dollar"), "eu")
    ensures Matches(Currency("EUR", "Euro"), "eu")
    ensures !Matches(Currency("GBP", "British Pound"), "eu")
  {
    LowerExamples();
    LacksFirstChar("usd", "eu");
    LacksFirstChar("us dollar", "eu");
    assert "eu" <= "eur";
    LacksFirstChar("gbp", "eu");
    LacksFirstChar("british pound", "eu");
  }

  /** Typing "eu" over US Dollar, Euro and British Pound leaves only the Euro. */
  lemma FilterEuExample()
    ensures Filter([Currency("USD", "US Dollar"), Currency("EUR", "Euro"),
                    Currency("GBP", "British Pound")], "eu")
            == [Currency("EUR", "Euro")]
  {
    var usd, eur, gbp := Currency("USD", "US Dollar"), Currency("EUR", "Euro"), Currency("GBP", "British Pound");
    EuExampleMatches();
    var data := [usd, eur, gbp];
    assert data[1..] == [eur, gbp];
    assert data[1..][1..] == [gbp];
    assert data[1..][1..][1..] == [];
  }
}
