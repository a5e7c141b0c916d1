/**
  Looking up one store hash in the binary caches: each cache root is tried in
  order, a transport failure is retried against the same root after a delay
  that starts at 64 and doubles, an absent record moves on to the next root at
  once, and the first record found wins. The HTTP client and the timer are
  replaced by an oracle giving the response to each attempt.
*/
module Fetch {
  import opened Wrappers
  import opened Narinfo

  /** What one `GET {root}/{hash}.narinfo` produced. */
  datatype Response = NotFoundStatus | Body(bytes: seq<char>) | TransportError

  /** The inner `fetch_narinfo`: `Ok(Some)`, `Ok(None)` or `Err` of one request. */
  datatype Lookup = Found(info: NarInfo) | Absent | Failed

  /**
    A 404 status is absent; any other body goes through `NarInfo::from`, so the
    body `404` and a body that does not parse are absent too; a transport error
    is a failure.
  */
  function LookupOf(r: Response): (l: Lookup)
    ensures l.Failed? <==> r.TransportError?
    ensures l.Found? <==> r.Body? && NarInfoFrom(r.bytes).Some?
    ensures l.Found? ==> l.info == NarInfoFrom(r.bytes).value
  {
    match r
    case NotFoundStatus => Absent
    case TransportError => Failed
    case Body(bytes) =>
      match NarInfoFrom(bytes)
      case Some(info) => Found(info)
      case None => Absent
  }

  const FirstDelay: nat := 64

  /** The outcome at one cache root. */
  datatype RootOutcome = Hit(info: NarInfo) | Miss | Exhausted

  /**
    The attempts at root `root` from attempt `a` on, the current delay being
    `delay`: the outcome, and the delays slept. A failure sleeps, doubles the
    delay and tries again, also after the last attempt.
  */
  function Attempts(fetch: (nat, nat) -> Lookup, root: nat, a: nat, maxAttempts: nat, delay: nat)
    : (r: (RootOutcome, seq<nat>))
    ensures a <= maxAttempts ==> |r.1| <= maxAttempts - a
    ensures a <= maxAttempts ==> (r.0.Exhausted? <==> |r.1| == maxAttempts - a)
    decreases maxAttempts - a
  {
    if a >= maxAttempts then (Exhausted, [])
    else
      match fetch(root, a)
      case Found(info) => (Hit(info), [])
      case Absent => (Miss, [])
      case Failed =>
        var more := Attempts(fetch, root, a + 1, maxAttempts, 2 * delay);
        (more.0, [delay] + more.1)
  }

  /** The roots from `root` on: the first record found, and every delay slept. */
  function FromRoot(fetch: (nat, nat) -> Lookup, roots: nat, root: nat, maxAttempts: nat)
    : (r: (Option<NarInfo>, seq<nat>))
    ensures root <= roots ==> |r.1| <= (roots - root) * maxAttempts
    decreases roots - root
  {
    if root >= roots then (None, [])
    else
      var here := Attempts(fetch, root, 0, maxAttempts, FirstDelay);
      var n := roots - root;
      assert n * maxAttempts == maxAttempts + (n - 1) * maxAttempts;
      assert maxAttempts <= n * maxAttempts;
      match here.0
      case Hit(info) => (Some(info), here.1)
      case _ =>
        var later := FromRoot(fetch, roots, root + 1, maxAttempts);
        (later.0, here.1 + later.1)
  }

  /**
    The attempt loop of `fetch_first_narinfo` at one root: returns at the first
    record found, leaves the loop at the first absent answer (the
    `continue 'next_cache`), and otherwise sleeps and doubles the delay.
  */
  method TryRoot(root: nat, maxAttempts: nat, fetch: (nat, nat) -> Lookup)
    returns (outcome: RootOutcome, sleeps: seq<nat>)
    ensures (outcome, sleeps) == Attempts(fetch, root, 0, maxAttempts, FirstDelay)
  {
    sleeps := [];
    var delay := FirstDelay;
    var a := 0;
    assert sleeps + Attempts(fetch, root, 0, maxAttempts, FirstDelay).1 == Attempts(fetch, root, 0, maxAttempts, FirstDelay).1;
    while a < maxAttempts
      invariant 0 <= a <= maxAttempts
      invariant Attempts(fetch, root, 0, maxAttempts, FirstDelay)
             == (Attempts(fetch, root, a, maxAttempts, delay).0, sleeps + Attempts(fetch, root, a, maxAttempts, delay).1)
    {
      match fetch(root, a) {
        case Found(info) =>
          assert sleeps + [] == sleeps;
          return Hit(info), sleeps;
        case Absent =>
          assert sleeps + [] == sleeps;
          return Miss, sleeps;
        case Failed =>
          ghost var more := Attempts(fetch, root, a + 1, maxAttempts, 2 * delay);
          assert sleeps + ([delay] + more.1) == (sleeps + [delay]) + more.1;
          sleeps := sleeps + [delay];
          delay := delay * 2;
          a := a + 1;
      }
    }
    assert sleeps + [] == sleeps;
    outcome := Exhausted;
  }

  /**
    `fetch_first_narinfo` for one hash: `fetch(root, attempt)` is what the
    inner `fetch_narinfo` gave for the given attempt at the given root (that is,
    `LookupOf` of the response). Returns the record found, if any,
    and the delays slept, in order.
  */
  method FetchFirstNarInfo(roots: seq<string>, maxAttempts: nat, fetch: (nat, nat) -> Lookup)
    returns (result: Option<NarInfo>, sleeps: seq<nat>)
    ensures (result, sleeps) == FromRoot(fetch, |roots|, 0, maxAttempts)
  {
    sleeps := [];
    var root := 0;
    assert sleeps + FromRoot(fetch, |roots|, 0, maxAttempts).1 == FromRoot(fetch, |roots|, 0, maxAttempts).1;
    while root < |roots|
      invariant 0 <= root <= |roots|
      invariant FromRoot(fetch, |roots|, 0, maxAttempts)
             == (FromRoot(fetch, |roots|, root, maxAttempts).0, sleeps + FromRoot(fetch, |roots|, root, maxAttempts).1)
    {
      var outcome, slept := TryRoot(root, maxAttempts, fetch);
      if outcome.Hit? {
        return Some(outcome.info), sleeps + slept;
      }
      ghost var later := FromRoot(fetch, |roots|, root + 1, maxAttempts);
      assert sleeps + (slept + later.1) == (sleeps + slept) + later.1;
      sleeps := sleeps + slept;
      root := root + 1;
    }
    assert sleeps + [] == sleeps;
    result := None;
  }

  function Pow2(k: nat): nat {
    if k == 0 then 1 else 2 * Pow2(k - 1)
  }

  // ---------------------------------------------------------------------------
  // Facts

  /** A body that is exactly `404` is treated like a 404 status, and so is a body that is not a record. */
  lemma NotFoundBodyIsAbsent(bytes: seq<char>)
    requires bytes == NotFoundBody || ParseNarInfo(bytes).None?
    ensures LookupOf(Body(bytes)) == LookupOf(NotFoundStatus) == Absent
  {
    assert NarInfoFrom(bytes).None?;
  }

  /** The delays slept after `n` failures: 64, 128, 256, ... */
  function Backoff(n: nat): (r: seq<nat>)
    ensures |r| == n
    ensures forall i :: 0 <= i < n ==> r[i] == FirstDelay * Pow2(i)
  {
    seq(n, i requires 0 <= i => FirstDelay * Pow2(i))
  }

  ghost predicate FailsBefore(fetch: (nat, nat) -> Lookup, root: nat, from: nat, k: nat) {
    forall j :: from <= j < k ==> fetch(root, j).Failed?
  }

  lemma {:induction false} AttemptsSkipFailures(fetch: (nat, nat) -> Lookup, root: nat, a: nat, k: nat, maxAttempts: nat)
    requires a <= k <= maxAttempts && FailsBefore(fetch, root, a, k)
    ensures Attempts(fetch, root, a, maxAttempts, FirstDelay * Pow2(a))
         == (Attempts(fetch, root, k, maxAttempts, FirstDelay * Pow2(k)).0,
             Backoff(k)[a..] + Attempts(fetch, root, k, maxAttempts, FirstDelay * Pow2(k)).1)
    decreases k - a
  {
    if a < k {
      assert fetch(root, a).Failed?;
      AttemptsSkipFailures(fetch, root, a + 1, k, maxAttempts);
      var d := FirstDelay * Pow2(a);
      assert 2 * d == FirstDelay * Pow2(a + 1);
      var rest := Attempts(fetch, root, k, maxAttempts, FirstDelay * Pow2(k));
      assert Attempts(fetch, root, a, maxAttempts, d) == (rest.0, [d] + (Backoff(k)[a + 1..] + rest.1));
      assert Backoff(k)[a..] == [d] + Backoff(k)[a + 1..];
      assert [d] + (Backoff(k)[a + 1..] + rest.1) == ([d] + Backoff(k)[a + 1..]) + rest.1;
    } else {
      var rest := Attempts(fetch, root, k, maxAttempts, FirstDelay * Pow2(k));
      assert Backoff(k)[a..] + rest.1 == rest.1;
    }
  }

  /**
    At one root, with `k` the first attempt that did not fail (or `maxAttempts`
    when all failed): a record found ends the search, an absent answer moves
    to the next root without using further attempts, and all attempts failing
    exhausts the root; the delays slept are 64, 128, ... once per failure.
  */
  lemma RootOutcomes(fetch: (nat, nat) -> Lookup, root: nat, k: nat, maxAttempts: nat)
    requires k <= maxAttempts && FailsBefore(fetch, root, 0, k)
    requires k < maxAttempts ==> !fetch(root, k).Failed?
    ensures var r := Attempts(fetch, root, 0, maxAttempts, FirstDelay);
      && r.1 == Backoff(k)
      && (k == maxAttempts <==> r.0.Exhausted?)
      && (r.0.Miss? <==> k < maxAttempts && fetch(root, k).Absent?)
      && (r.0.Hit? <==> k < maxAttempts && fetch(root, k).Found?)
      && (r.0.Hit? ==> r.0.info == fetch(root, k).info)
  {
    AttemptsSkipFailures(fetch, root, 0, k, maxAttempts);
    assert Backoff(k)[0..] + [] == Backoff(k);
  }

  /** The outcome at root `q` of a fresh search. */
  function RootResult(fetch: (nat, nat) -> Lookup, q: nat, maxAttempts: nat): RootOutcome {
    Attempts(fetch, q, 0, maxAttempts, FirstDelay).0
  }

  /** One step of the search over the roots. */
  lemma FromRootStep(fetch: (nat, nat) -> Lookup, roots: nat, from: nat, maxAttempts: nat)
    requires from < roots
    ensures FromRoot(fetch, roots, from, maxAttempts).0
         == if RootResult(fetch, from, maxAttempts).Hit? then Some(RootResult(fetch, from, maxAttempts).info)
            else FromRoot(fetch, roots, from + 1, maxAttempts).0
  {
  }

  /** The search finds the record of the first root that has one. */
  lemma {:induction false} FirstHitWins(fetch: (nat, nat) -> Lookup, roots: nat, from: nat, r: nat, maxAttempts: nat)
    requires from <= r < roots
    requires forall q :: from <= q < r ==> !RootResult(fetch, q, maxAttempts).Hit?
    requires RootResult(fetch, r, maxAttempts).Hit?
    ensures FromRoot(fetch, roots, from, maxAttempts).0 == Some(RootResult(fetch, r, maxAttempts).info)
    decreases r - from
  {
    FromRootStep(fetch, roots, from, maxAttempts);
    if from < r {
      FirstHitWins(fetch, roots, from + 1, r, maxAttempts);
    }
  }

  /** The search finds nothing exactly when no root has the record. */
  lemma {:induction false} NoneIffAllMiss(fetch: (nat, nat) -> Lookup, roots: nat, from: nat, maxAttempts: nat)
    ensures FromRoot(fetch, roots, from, maxAttempts).0.None?
        <==> forall q :: from <= q < roots ==> !RootResult(fetch, q, maxAttempts).Hit?
    decreases roots - from
  {
    if from < roots {
      FromRootStep(fetch, roots, from, maxAttempts);
      NoneIffAllMiss(fetch, roots, from + 1, maxAttempts);
    }
  }
}
