/** Portfolio aggregation: draining the fetcher's results in arrival order, skipping the
    failed ones and appending each successful response to the user's portfolio. */
module Portfolio {
  import opened Model

  /** The responses of the results that did not fail, in arrival order. */
  function Successes(results: seq<FetchResult>): (r: seq<StockData>)
    ensures |r| <= |results|
    decreases |results|
  {
    if results == [] then []
    else
      var last := results[|results| - 1];
      Successes(results[..|results| - 1]) + (if last.Failed() then [] else [last.response])
  }

  /** Draining results that arrive in two batches collects the two batches' successes in turn. */
  lemma {:induction false} SuccessesAppend(a: seq<FetchResult>, b: seq<FetchResult>)
    ensures Successes(a + b) == Successes(a) + Successes(b)
    decreases |b|
  {
    if b == [] {
      assert a + b == a;
    } else {
      var b' := b[..|b| - 1];
      assert (a + b)[..|a + b| - 1] == a + b';
      SuccessesAppend(a, b');
    }
  }

  /** A response is in the portfolio exactly when some result carried it without an error. */
  lemma {:induction false} SuccessesMembership(results: seq<FetchResult>, x: StockData)
    ensures x in Successes(results) <==>
      exists k :: 0 <= k < |results| && !results[k].Failed() && results[k].response == x
    decreases |results|
  {
    if results != [] {
      var n := |results| - 1;
      var prefix := results[..n];
      SuccessesMembership(prefix, x);
      var last := results[n];
      assert Successes(results) == Successes(prefix) + (if last.Failed() then [] else [last.response]);
      assert forall k :: 0 <= k < n ==> prefix[k] == results[k];
    }
  }

  /** When no fetch fails, the portfolio gains every response, in arrival order. */
  lemma {:induction false} SuccessesAllOk(results: seq<FetchResult>)
    requires forall k :: 0 <= k < |results| ==> !results[k].Failed()
    ensures |Successes(results)| == |results|
    ensures forall k :: 0 <= k < |results| ==> Successes(results)[k] == results[k].response
    decreases |results|
  {
    if results != [] {
      SuccessesAllOk(results[..|results| - 1]);
    }
  }

  /** When every fetch fails, the portfolio gains nothing. */
  lemma {:induction false} SuccessesAllFailed(results: seq<FetchResult>)
    requires forall k :: 0 <= k < |results| ==> results[k].Failed()
    ensures Successes(results) == []
    decreases |results|
  {
    if results != [] {
      SuccessesAllFailed(results[..|results| - 1]);
    }
  }

  /** A failed fetch is skipped without affecting the results that arrive before or after it. */
  lemma {:induction false} FailureIsIsolated(before: seq<FetchResult>, failed: FetchResult, after: seq<FetchResult>)
    requires failed.Failed()
    ensures Successes(before + [failed] + after) == Successes(before) + Successes(after)
  {
    SuccessesAppend(before + [failed], after);
    assert (before + [failed])[..|before|] == before;
    assert Successes(before + [failed]) == Successes(before);
  }

  /** The loop that drains the result channel into a portfolio that already holds `initial`. */
  method Aggregate(initial: seq<StockData>, results: seq<FetchResult>) returns (portfolio: seq<StockData>)
    ensures portfolio == initial + Successes(results)
  {
    portfolio := initial;
    var i := 0;
    while i < |results|
      invariant 0 <= i <= |results|
      invariant portfolio == initial + Successes(results[..i])
    {
      var result := results[i];
      assert results[..i + 1][..i] == results[..i];
      if result.Failed() {
        i := i + 1;
        continue;
      }
      portfolio := portfolio + [result.response];
      i := i + 1;
    }
    assert results[..i] == results;
  }
}
