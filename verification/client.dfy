/** The browser-side fetch coordinator (src/api/client.ts), modelled
    sequentially: `fetchJson` registers each attempt in an in-flight
    registry keyed by `url-attempt`, reuses a pending request under the same
    key, retries a 429 reply with exponential backoff while the attempt is
    below 3, and removes its key once the attempt settles. The network is a
    script of replies indexed by attempt number; the backoff waits are
    emitted as values instead of being slept. */
module Client {
  import opened Wrappers
  import opened Strings

  /** What `fetch(url)` yields: a rejection, or a response with its status
      and body text. */
  datatype Reply = NetworkFailure(message: string) | Response(status: nat, body: string)

  /** `response.ok`. */
  predicate IsOk(status: nat) {
    200 <= status <= 299
  }

  const MaxRetries: nat := 3
  const TooManyRequests: nat := 429

  function Pow2(n: nat): (p: nat)
    ensures p >= 1
  {
    if n == 0 then 1 else 2 * Pow2(n - 1)
  }

  /** The wait before retrying after attempt `attempt`: two to the power of
      the attempt number, in seconds, counted in milliseconds
      (src/api/client.ts:21). */
  function BackoffDelay(attempt: nat): nat {
    Pow2(attempt) * 1000
  }

  /** The registry key of one attempt: the URL, a hyphen, then the attempt
      number in decimal (src/api/client.ts:8). */
  function CacheKey(url: string, attempt: nat): string {
    url + "-" + NatToDecimal(attempt)
  }

  /** In a key, the dash before the attempt number is the last dash. */
  lemma KeyDashIsLast(url: string, digits: string)
    requires AllDigits(digits)
    ensures (url + "-" + digits)[|url|] == '-'
    ensures forall i :: |url| < i < |url + "-" + digits| ==> (url + "-" + digits)[i] != '-'
  {
    var k := url + "-" + digits;
    forall i | |url| < i < |k| ensures k[i] != '-' {
      assert k[i] == digits[i - |url| - 1];
    }
  }

  /** Different (url, attempt) pairs never share a registry key, so a retry
      is never deduplicated against its own failed attempt and two URLs
      never share a pending request. */
  lemma CacheKeyInjective(u1: string, a1: nat, u2: string, a2: nat)
    ensures CacheKey(u1, a1) == CacheKey(u2, a2) <==> u1 == u2 && a1 == a2
  {
    if CacheKey(u1, a1) == CacheKey(u2, a2) {
      var k := CacheKey(u1, a1);
      var d1, d2 := NatToDecimal(a1), NatToDecimal(a2);
      NatToDecimalDigits(a1);
      NatToDecimalDigits(a2);
      KeyDashIsLast(u1, d1);
      KeyDashIsLast(u2, d2);
      assert |u1| == |u2|;
      assert u1 == k[..|u1|] == u2;
      assert d1 == k[|u1| + 1..] == d2;
      NatToDecimalInjective(a1, a2);
    }
  }

  // ---------------------------------------------------------------------
  // The in-flight registry
  // ---------------------------------------------------------------------

  /** Pending requests by key; a pending request is named by a handle. */
  type Registry = map<string, nat>

  function Lookup(reg: Registry, key: string): (r: Option<nat>)
    ensures r.Some? <==> key in reg
    ensures r.Some? ==> r.value == reg[key]
  {
    if key in reg then Some(reg[key]) else None
  }

  function Register(reg: Registry, key: string, handle: nat): Registry {
    reg[key := handle]
  }

  function Remove(reg: Registry, key: string): Registry {
    reg - {key}
  }

  // ---------------------------------------------------------------------
  // fetchJson
  // ---------------------------------------------------------------------

  /** How a logical call settles: with the parsed payload, with an error
      message, or by joining a request already pending under its key. */
  datatype Settled = Resolved(payload: string) | Rejected(message: string) | Joined(handle: nat)

  /** A complete call: how it settled and at which attempt number, the
      keys under which fetches were issued (in order), the backoff waits
      emitted, and the registry after it settled. */
  datatype Run = Run(settled: Settled, settledAt: nat, fetchedKeys: seq<string>, delays: seq<nat>,
                     registry: Registry)

  function ApiErrorMessage(status: nat, body: string): string {
    "API Error " + NatToDecimal(status) + ": " + body
  }

  /** A reply that `fetchJson` answers by waiting and retrying. */
  predicate IsRetried(reply: Reply, attempt: nat) {
    reply.Response? && reply.status == TooManyRequests && attempt < MaxRetries
  }

  /** How the last fetched attempt settles the call, given its reply. */
  predicate SettlesAs(reply: Reply, attempt: nat, s: Settled) {
    && !IsRetried(reply, attempt)
    && match reply
       case NetworkFailure(m) => s == Rejected(m)
       case Response(status, body) =>
         if IsOk(status) then s == Resolved(body) else s == Rejected(ApiErrorMessage(status, body))
  }

  /** The settlement of an attempt that is not retried: a network failure
      rejects with its message, a non-ok status with the status and body
      text, an ok response resolves with the body. */
  function Settle(reply: Reply, attempt: nat): (s: Settled)
    requires !IsRetried(reply, attempt)
    ensures SettlesAs(reply, attempt, s)
    ensures !s.Joined?
  {
    match reply
    case NetworkFailure(m) => Rejected(m)
    case Response(status, body) =>
      if !IsOk(status) then Rejected(ApiErrorMessage(status, body)) else Resolved(body)
  }

  /** The keys of `n` consecutive attempts starting at `attempt`. */
  function AttemptKeys(url: string, attempt: nat, n: nat): (keys: seq<string>)
    ensures |keys| == n
    decreases n
  {
    if n == 0 then [] else [CacheKey(url, attempt)] + AttemptKeys(url, attempt + 1, n - 1)
  }

  /** The backoff waits of `n` consecutive retried attempts from `attempt`. */
  function Backoffs(attempt: nat, n: nat): (waits: seq<nat>)
    ensures |waits| == n
    decreases n
  {
    if n == 0 then [] else [BackoffDelay(attempt)] + Backoffs(attempt + 1, n - 1)
  }

  /** The `n` attempts from `attempt` on were all answered with a retried 429. */
  predicate RetriedFrom(replies: nat -> Reply, attempt: nat, n: nat)
    decreases n
  {
    n == 0 || (IsRetried(replies(attempt), attempt) && RetriedFrom(replies, attempt + 1, n - 1))
  }

  /** The measure both halves of `fetchJson` decrease: retries left. */
  function RetriesLeft(attempt: nat): nat {
    if attempt < MaxRetries then MaxRetries - attempt else 0
  }

  /** `fetchJson(url, attempt)` against the registry `reg`. `replies(n)` is
      what the network answers to attempt `n`; `handle` names the pending
      request this call registers (its retry uses `handle + 1`). A request
      already pending under the attempt's key is joined. */
  function FetchJson(reg: Registry, url: string, attempt: nat, replies: nat -> Reply, handle: nat)
    : (r: Run)
    decreases RetriesLeft(attempt), 2
    ensures CacheKey(url, attempt) in reg ==>
              r.settled == Joined(reg[CacheKey(url, attempt)]) && r.fetchedKeys == []
    ensures r.fetchedKeys == AttemptKeys(url, attempt, |r.fetchedKeys|)
    ensures forall k :: k in r.fetchedKeys ==> k !in reg
    ensures r.delays == Backoffs(attempt, |r.delays|)
    ensures RetriedFrom(replies, attempt, |r.delays|)
    ensures r.settledAt == attempt + |r.delays|
    ensures r.settled.Joined? ==>
              && |r.fetchedKeys| == |r.delays|
              && CacheKey(url, r.settledAt) in reg
              && r.settled.handle == reg[CacheKey(url, r.settledAt)]
    ensures !r.settled.Joined? ==>
              |r.fetchedKeys| == |r.delays| + 1 && SettlesAs(replies(r.settledAt), r.settledAt, r.settled)
    ensures r.registry == reg
  {
    match Lookup(reg, CacheKey(url, attempt))
    case Some(pending) => Run(Joined(pending), attempt, [], [], reg)
    case None => Attempt(reg, url, attempt, replies, handle)
  }

  /** The body of the pending request of one attempt: register it, fetch,
      then either wait and retry under the next key or settle; the key is
      removed from the registry on every path. */
  function Attempt(reg: Registry, url: string, attempt: nat, replies: nat -> Reply, handle: nat)
    : (r: Run)
    requires CacheKey(url, attempt) !in reg
    decreases RetriesLeft(attempt), 1
    ensures |r.fetchedKeys| >= 1
    ensures r.fetchedKeys == AttemptKeys(url, attempt, |r.fetchedKeys|)
    ensures forall k :: k in r.fetchedKeys ==> k !in reg
    ensures r.delays == Backoffs(attempt, |r.delays|)
    ensures RetriedFrom(replies, attempt, |r.delays|)
    ensures r.settledAt == attempt + |r.delays|
    ensures r.settled.Joined? ==>
              && |r.fetchedKeys| == |r.delays|
              && CacheKey(url, r.settledAt) in reg
              && r.settled.handle == reg[CacheKey(url, r.settledAt)]
    ensures !r.settled.Joined? ==>
              |r.fetchedKeys| == |r.delays| + 1 && SettlesAs(replies(r.settledAt), r.settledAt, r.settled)
    ensures r.registry == reg
  {
    var key := CacheKey(url, attempt);
    var reply := replies(attempt);
    if IsRetried(reply, attempt) then Retry(reg, url, attempt, replies, handle)
    else
      var r := Run(Settle(reply, attempt), attempt, [key], [], Remove(Register(reg, key, handle), key));
      assert r.registry == reg;
      r
  }

  /** A 429 below the retry limit: wait 2^attempt seconds, clear this
      attempt's key, and call again with the next attempt number. */
  function Retry(reg: Registry, url: string, attempt: nat, replies: nat -> Reply, handle: nat)
    : (r: Run)
    requires CacheKey(url, attempt) !in reg
    requires IsRetried(replies(attempt), attempt)
    decreases RetriesLeft(attempt), 0
    ensures |r.fetchedKeys| >= 1
    ensures r.fetchedKeys == AttemptKeys(url, attempt, |r.fetchedKeys|)
    ensures forall k :: k in r.fetchedKeys ==> k !in reg
    ensures r.delays == Backoffs(attempt, |r.delays|)
    ensures RetriedFrom(replies, attempt, |r.delays|)
    ensures r.settledAt == attempt + |r.delays|
    ensures r.settled.Joined? ==>
              && |r.fetchedKeys| == |r.delays|
              && CacheKey(url, r.settledAt) in reg
              && r.settled.handle == reg[CacheKey(url, r.settledAt)]
    ensures !r.settled.Joined? ==>
              |r.fetchedKeys| == |r.delays| + 1 && SettlesAs(replies(r.settledAt), r.settledAt, r.settled)
    ensures r.registry == reg
  {
    var key := CacheKey(url, attempt);
    var cleared := Remove(Register(reg, key, handle), key);
    assert cleared == reg;
    var retry := FetchJson(cleared, url, attempt + 1, replies, handle + 1);
    assert Remove(retry.registry, key) == reg;
    var delays := [BackoffDelay(attempt)] + retry.delays;
    assert RetriedFrom(replies, attempt, |delays|) by {
      assert |delays| - 1 == |retry.delays|;
    }
    Run(retry.settled, retry.settledAt, [key] + retry.fetchedKeys, delays, Remove(retry.registry, key))
  }

  // ---------------------------------------------------------------------
  // Closed forms of the recursive descriptions
  // ---------------------------------------------------------------------

  lemma {:induction false} AttemptKeysAt(url: string, attempt: nat, n: nat, i: nat)
    requires i < n
    ensures AttemptKeys(url, attempt, n)[i] == CacheKey(url, attempt + i)
    decreases n
  {
    if i > 0 {
      AttemptKeysAt(url, attempt + 1, n - 1, i - 1);
    }
  }

  lemma {:induction false} BackoffsAt(attempt: nat, n: nat, i: nat)
    requires i < n
    ensures Backoffs(attempt, n)[i] == BackoffDelay(attempt + i)
    decreases n
  {
    if i > 0 {
      BackoffsAt(attempt + 1, n - 1, i - 1);
    }
  }

  /** Only attempts below the ceiling are retried, so at most
      `MaxRetries - attempt` retries follow `attempt`. */
  lemma {:induction false} RetriedFromAt(replies: nat -> Reply, attempt: nat, n: nat)
    requires RetriedFrom(replies, attempt, n)
    ensures forall a :: attempt <= a < attempt + n ==> IsRetried(replies(a), a)
    ensures n <= RetriesLeft(attempt)
    decreases n
  {
    if n > 0 {
      RetriedFromAt(replies, attempt + 1, n - 1);
    }
  }

  /** The fetches of one call, attempt by attempt: the i-th is made under
      key `url-(attempt+i)`, and there are at most `1 + (3 - attempt)`. */
  lemma FetchJsonKeys(reg: Registry, url: string, attempt: nat, replies: nat -> Reply, handle: nat)
    ensures var r := FetchJson(reg, url, attempt, replies, handle);
            && (forall i :: 0 <= i < |r.fetchedKeys| ==> r.fetchedKeys[i] == CacheKey(url, attempt + i))
            && |r.fetchedKeys| <= RetriesLeft(attempt) + 1
  {
    var r := FetchJson(reg, url, attempt, replies, handle);
    forall i | 0 <= i < |r.fetchedKeys| ensures r.fetchedKeys[i] == CacheKey(url, attempt + i) {
      AttemptKeysAt(url, attempt, |r.fetchedKeys|, i);
    }
    RetriedFromAt(replies, attempt, |r.delays|);
  }

  /** The waits of one call: each follows a 429 on an attempt below 3 and
      the i-th lasts `2^(attempt+i)` seconds. */
  lemma FetchJsonWaits(reg: Registry, url: string, attempt: nat, replies: nat -> Reply, handle: nat)
    ensures var r := FetchJson(reg, url, attempt, replies, handle);
            && (forall i :: 0 <= i < |r.delays| ==> r.delays[i] == BackoffDelay(attempt + i))
            && (forall a :: attempt <= a < attempt + |r.delays| ==> IsRetried(replies(a), a))
            && |r.delays| <= RetriesLeft(attempt)
  {
    var r := FetchJson(reg, url, attempt, replies, handle);
    forall i | 0 <= i < |r.delays| ensures r.delays[i] == BackoffDelay(attempt + i) {
      BackoffsAt(attempt, |r.delays|, i);
    }
    RetriedFromAt(replies, attempt, |r.delays|);
  }

  /** A logical call issued by the API object: from attempt 0. It makes at
      most four fetches, its waits are a prefix of 1 s, 2 s, 4 s, and it
      leaves the registry as it found it. */
  function Call(reg: Registry, url: string, replies: nat -> Reply, handle: nat): (r: Run)
    ensures |r.fetchedKeys| <= MaxRetries + 1
    ensures r.delays <= [1000, 2000, 4000]
    ensures r.registry == reg
    ensures forall k :: k in r.fetchedKeys ==> k !in r.registry
  {
    var r := FetchJson(reg, url, 0, replies, handle);
    RetriedFromAt(replies, 0, |r.delays|);
    BackoffLadder();
    r
  }

  /** The waits of a call started at attempt 0, for each possible number of retries. */
  lemma BackoffLadder()
    ensures Backoffs(0, 0) == []
    ensures Backoffs(0, 1) == [1000]
    ensures Backoffs(0, 2) == [1000, 2000]
    ensures Backoffs(0, 3) == [1000, 2000, 4000]
  {
    assert Backoffs(3, 0) == [];
    assert Backoffs(2, 1) == [4000];
    assert Backoffs(1, 2) == [2000, 4000];
  }

  /** The rejection message for a 429 that is no longer retried. */
  lemma RateLimitMessage(body: string)
    ensures ApiErrorMessage(TooManyRequests, body) == "API Error 429: " + body
  {
    assert NatToDecimal(4) == "4";
    assert NatToDecimal(42) == "42";
  }

  /** Keys fetched during one call are pairwise distinct. */
  lemma FetchedKeysDistinct(reg: Registry, url: string, attempt: nat, replies: nat -> Reply, handle: nat)
    ensures var keys := FetchJson(reg, url, attempt, replies, handle).fetchedKeys;
            forall i, j :: 0 <= i < j < |keys| ==> keys[i] != keys[j]
  {
    var keys := FetchJson(reg, url, attempt, replies, handle).fetchedKeys;
    forall i, j | 0 <= i < j < |keys| ensures keys[i] != keys[j] {
      AttemptKeysAt(url, attempt, |keys|, i);
      AttemptKeysAt(url, attempt, |keys|, j);
      CacheKeyInjective(url, attempt + i, url, attempt + j);
    }
  }

  /** Rate limited on every attempt: waits of 1 s, 2 s and 4 s, four
      fetches, then the fourth 429 is surfaced as an error. */
  lemma AlwaysRateLimited(reg: Registry, url: string, body: string, handle: nat)
    requires forall a :: CacheKey(url, a) !in reg
    ensures var r := Call(reg, url, _ => Response(TooManyRequests, body), handle);
            && r.delays == [1000, 2000, 4000]
            && |r.fetchedKeys| == 4
            && r.settled == Rejected("API Error 429: " + body)
  {
    var replies: nat -> Reply := _ => Response(TooManyRequests, body);
    var r := FetchJson(reg, url, 0, replies, handle);
    FetchJsonWaits(reg, url, 0, replies, handle);
    var n := |r.delays|;
    assert !r.settled.Joined?;
    assert SettlesAs(replies(r.settledAt), r.settledAt, r.settled);
    assert n == 3;
    BackoffLadder();
    RateLimitMessage(body);
  }

  /** One 429 then success: a single 1 s wait, two fetches, the payload. */
  lemma RateLimitedOnce(reg: Registry, url: string, payload: string, handle: nat)
    requires forall a :: CacheKey(url, a) !in reg
    ensures var replies := (n: nat) => if n == 0 then Response(TooManyRequests, "") else Response(200, payload);
            var r := Call(reg, url, replies, handle);
            && r.delays == [1000]
            && |r.fetchedKeys| == 2
            && r.settled == Resolved(payload)
  {
    var replies := (n: nat) => if n == 0 then Response(TooManyRequests, "") else Response(200, payload);
    var r := FetchJson(reg, url, 0, replies, handle);
    FetchJsonWaits(reg, url, 0, replies, handle);
    var n := |r.delays|;
    assert !r.settled.Joined?;
    assert SettlesAs(replies(r.settledAt), r.settledAt, r.settled);
    assert n == 1;
    assert r.delays == Backoffs(0, 1) == [1000];
  }

  /** A second call made while the first attempt is pending under the same
      key joins it: no further fetch, same pending request. */
  lemma ConcurrentCallJoins(reg: Registry, url: string, attempt: nat, handle: nat,
                            replies: nat -> Reply, handle2: nat)
    ensures var pending := Register(reg, CacheKey(url, attempt), handle);
            var second := FetchJson(pending, url, attempt, replies, handle2);
            second.settled == Joined(handle) && second.fetchedKeys == [] && second.registry == pending
  {
  }
}
