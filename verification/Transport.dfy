/** The retry loop around one signed request. */
module Transport {
  import opened Wrappers
  import opened Strings
  import Signing

  datatype Failure = Canceled | DeadlineExceeded | BadStatus | Network

  /** What one attempt gives: a response has a status, and a status outside 2xx comes with an error. */
  datatype Attempt = Attempt(status: Option<nat>, err: Option<Failure>)

  const DEFAULT_MAX_RETRIES: nat := 2

  predicate IsNetErr(err: Option<Failure>) {
    err.Some? && !err.value.Canceled? && !err.value.DeadlineExceeded?
  }

  /** A server error, or no response for a reason other than the caller's context. */
  predicate Retriable(a: Attempt) {
    if a.status.Some? then a.status.value >= 500 else IsNetErr(a.err)
  }

  /** Only a response of 500 or above, or the lack of one for which the caller's context is not to
      blame, is retried. */
  lemma RetriableMeans(a: Attempt)
    ensures a.status.Some? ==> (Retriable(a) <==> a.status.value >= 500)
    ensures a.status.None? ==> (Retriable(a) <==> a.err == Some(BadStatus) || a.err == Some(Network))
  {
  }

  function Retries(httpMethod: string, maxRetries: nat): nat {
    if httpMethod == "GET" then maxRetries else 0
  }

  /** `last` is the first attempt that is not retried: all before it are retriable, and it is not,
      or it is the last one allowed. */
  ghost predicate Settled(outcomes: nat -> Attempt, retries: nat, last: nat) {
    && last <= retries
    && (forall k: nat :: k < last ==> Retriable(outcomes(k)))
    && (last < retries ==> !Retriable(outcomes(last)))
  }

  /** There is one such attempt, so what `DoRaw` returns is determined by the outcomes. */
  lemma SettledOnce(outcomes: nat -> Attempt, retries: nat, a: nat, b: nat)
    requires Settled(outcomes, retries, a) && Settled(outcomes, retries, b)
    ensures a == b
  {
    assert a < b ==> Retriable(outcomes(a));
    assert b < a ==> Retriable(outcomes(b));
  }

  /** `outcomes` is what the attempts would give, one after the other. */
  method DoRaw(outcomes: nat -> Attempt, httpMethod: string, maxRetries: nat) returns (a: Attempt, made: nat)
    ensures made >= 1 && a == outcomes(made - 1)
    ensures Settled(outcomes, Retries(httpMethod, maxRetries), made - 1)
    ensures httpMethod != "GET" ==> made == 1
    ensures outcomes(0).status.Some? && outcomes(0).status.value < 500 ==> made == 1
    ensures outcomes(0).status.None? && outcomes(0).err in {None, Some(Canceled), Some(DeadlineExceeded)} ==> made == 1
    ensures made <= 1 + maxRetries && (httpMethod == "GET" && made <= maxRetries ==> !Retriable(a))
  {
    var attempt := 0;
    while true
      invariant 0 <= attempt <= maxRetries && (attempt > 0 ==> httpMethod == "GET")
      invariant forall k: nat :: k < attempt ==> Retriable(outcomes(k))
      decreases maxRetries - attempt
    {
      a := outcomes(attempt);
      var serverErr := a.status.Some? && a.status.value >= 500;
      var netErr := a.status.None? && IsNetErr(a.err);
      if (serverErr || netErr) && httpMethod == "GET" && attempt < maxRetries {
        attempt := attempt + 1;
        continue;
      }
      made := attempt + 1;
      return;
    }
  }

  /** The option that sets the retry count drops negative values. */
  method ApplyRetryOptions(counts: seq<int>) returns (maxRetries: nat)
    ensures maxRetries == LastNatural(counts)
  {
    maxRetries := DEFAULT_MAX_RETRIES;
    for i := 0 to |counts|
      invariant maxRetries == LastNatural(counts[..i])
    {
      assert counts[..i + 1][..i] == counts[..i];
      if counts[i] >= 0 {
        maxRetries := counts[i];
      }
    }
    assert counts[..|counts|] == counts;
  }

  function LastNatural(counts: seq<int>): nat {
    if counts == [] then DEFAULT_MAX_RETRIES
    else if counts[|counts| - 1] >= 0 then counts[|counts| - 1]
    else LastNatural(counts[..|counts| - 1])
  }

  /** Two retries unless a natural number is set, and then the last one set. */
  lemma {:induction false} LastNaturalMeans(before: seq<int>, n: nat, after: seq<int>)
    requires forall i :: 0 <= i < |after| ==> after[i] < 0
    ensures LastNatural(after) == 2 && LastNatural(before + [n] + after) == n
    decreases |after|
  {
    var all := before + [n] + after;
    if after != [] {
      var init := after[..|after| - 1];
      LastNaturalMeans(before, n, init);
      assert all[..|all| - 1] == before + [n] + init;
    }
  }

  /** The part of a path before the first question mark. */
  function SignPath(path: string): string {
    if path == "" || path[0] == '?' then "" else [path[0]] + SignPath(path[1..])
  }

  lemma {:induction false} SignPathCuts(p: string, query: string)
    requires Free(p, '?')
    ensures SignPath(p + "?" + query) == p && SignPath(p) == p
  {
    if p == "" {
      assert p + "?" + query == "?" + query;
    } else {
      assert (p + "?" + query)[1..] == p[1..] + "?" + query;
      assert p[0] in p;
      SignPathCuts(p[1..], query);
    }
  }

  /** A request is signed the same with any query, or with none. */
  lemma QueryIsNotSigned(r: Signing.Request, query: string, contentHash: string)
    requires Free(r.path, '?')
    ensures Signing.StringToSign(r.(path := SignPath(r.path + "?" + query)), contentHash)
            == Signing.StringToSign(r.(path := SignPath(r.path)), contentHash)
  {
    SignPathCuts(r.path, query);
  }
}
