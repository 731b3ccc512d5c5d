/** The lazy attestation bucket as a law about time windows (src/state.rs:25-30, 88-102). Readings
    are taken before the lock, so a run lists them in the order of the critical sections. */
module RateLimit {
  import opened Bits
  import opened Store
  import opened History

  /** A missing bucket is created full at the time of the call. */
  function Opened(b: Option<Bucket>, now: real): (r: Bucket) {
    match b case None => Bucket(ATTEST_BURST, now) case Some(x) => x
  }

  /** The bucket of one pubkey after a run of calls; None before the first. */
  function After(ts: seq<real>): (b: Option<Bucket>)
    ensures b.None? <==> ts == []
    ensures b.Some? ==> b.value.last == ts[|ts| - 1]
  {
    if ts == [] then None else Some(Charge(Opened(After(Front(ts)), Last(ts)), Last(ts)).0)
  }

  /** The refilled level that call n finds. */
  function Level(ts: seq<real>, n: nat): (l: real)
    requires n < |ts|
  {
    Refill(Opened(After(ts[..n]), ts[n]), ts[n])
  }

  /** Whether call n is let through. */
  predicate Admitted(ts: seq<real>, n: nat)
    requires n < |ts|
  {
    Charge(Opened(After(ts[..n]), ts[n]), ts[n]).1
  }

  /** Calls let through among j, ..., n - 1. */
  function Count(ts: seq<real>, j: nat, n: nat): (k: int)
    requires j <= n <= |ts|
    ensures 0 <= k <= n - j
  {
    if j == n then 0 else Count(ts, j, n - 1) + if Admitted(ts, n - 1) then 1 else 0
  }

  ghost predicate NonDecreasing(ts: seq<real>) {
    forall i, j :: 0 <= i <= j < |ts| ==> ts[i] <= ts[j]
  }

  /** What the window from call j to call n leaves of the burst. */
  function Window(ts: seq<real>, j: nat, n: nat): (r: real)
    requires j <= n < |ts|
  {
    5.0 + 0.1 * (ts[n] - ts[j]) - Count(ts, j, n) as real
  }

  lemma LevelStep(ts: seq<real>, n: nat)
    requires NonDecreasing(ts) && n + 1 < |ts|
    ensures var raised := Level(ts, n) - (if Admitted(ts, n) then 1.0 else 0.0)
                          + ATTEST_REFILL_PER_SEC * (ts[n + 1] - ts[n]);
            Level(ts, n + 1) == if raised <= ATTEST_BURST then raised else ATTEST_BURST
  {
    var p := ts[..n + 1];
    assert Front(p) == ts[..n] && Last(p) == ts[n];
    assert After(p) == Some(Charge(Opened(After(ts[..n]), ts[n]), ts[n]).0);
  }

  lemma WindowStep(ts: seq<real>, j: nat, n: nat)
    requires j <= n && n + 1 < |ts|
    ensures Window(ts, j, n + 1)
            == Window(ts, j, n) - (if Admitted(ts, n) then 1.0 else 0.0) + ATTEST_REFILL_PER_SEC * (ts[n + 1] - ts[n])
    ensures Window(ts, n + 1, n + 1) == ATTEST_BURST
  {
  }

  lemma FirstCall(ts: seq<real>)
    requires ts != []
    ensures Level(ts, 0) == ATTEST_BURST == Window(ts, 0, 0) && Admitted(ts, 0)
  {
  }

  /** The level is the least of all windows that end at the call. */
  lemma {:induction false} LevelIsLeastWindow(ts: seq<real>, n: nat) returns (i: nat)
    requires NonDecreasing(ts) && n < |ts|
    ensures forall j :: 0 <= j <= n ==> Level(ts, n) <= Window(ts, j, n)
    ensures i <= n && Level(ts, n) == Window(ts, i, n)
  {
    hide Level, Window, Admitted, NonDecreasing;
    if n == 0 {
      FirstCall(ts);
      i := 0;
    } else {
      var m := n - 1;
      i := LevelIsLeastWindow(ts, m);
      LevelStep(ts, m);
      forall j | 0 <= j <= m
        ensures Level(ts, n) <= Window(ts, j, n)
      {
        WindowStep(ts, j, m);
      }
      WindowStep(ts, i, m);
      if Level(ts, n) != Window(ts, i, n) {
        i := n;
      }
    }
  }

  /** The window from call j still has room for call n. */
  predicate Fits(ts: seq<real>, j: nat, n: nat)
    requires j <= n < |ts|
  {
    Count(ts, j, n) as real + 1.0 <= 5.0 + 0.1 * (ts[n] - ts[j])
  }

  ghost predicate AllFit(ts: seq<real>, n: nat)
    requires n < |ts|
  {
    forall j :: 0 <= j <= n ==> Fits(ts, j, n)
  }

  lemma FitsWindow(ts: seq<real>, j: nat, n: nat)
    requires j <= n < |ts|
    ensures Fits(ts, j, n) <==> Window(ts, j, n) >= 1.0
  {
    hide Count;
  }

  /** The sliding-window law: a call is let through exactly when every window ending at it still
      has room for one more. */
  lemma SlidingWindow(ts: seq<real>, n: nat)
    requires NonDecreasing(ts) && n < |ts|
    ensures Admitted(ts, n) <==> AllFit(ts, n)
  {
    assert Admitted(ts, n) <==> Level(ts, n) >= 1.0;
    assert AllFit(ts, n) <==> forall j :: 0 <= j <= n ==> Fits(ts, j, n);
    hide *;
    var i := LevelIsLeastWindow(ts, n);
    forall j | 0 <= j <= n
      ensures Fits(ts, j, n) <==> Window(ts, j, n) >= 1.0
    {
      FitsWindow(ts, j, n);
    }
  }

  // ---------- Refused calls leave no trace ----------

  function Without(ts: seq<real>, k: nat): (r: seq<real>)
    requires k < |ts|
    ensures |r| == |ts| - 1
  {
    ts[..k] + ts[k + 1..]
  }

  lemma RefillTwice(b: Bucket, mid: real, now: real)
    requires b.last <= mid <= now && Refill(b, mid) < 1.0
    ensures Refill(Bucket(Refill(b, mid), mid), now) == Refill(b, now)
  {
  }

  /** The next call finds the same level whether or not the refused call happened. */
  lemma NextCallSame(ts: seq<real>, k: nat)
    requires NonDecreasing(ts) && k + 1 < |ts| && !Admitted(ts, k)
    ensures Level(ts, k + 1) == Level(Without(ts, k), k)
  {
    assert k > 0 by { FirstCall(ts); }
    var us := Without(ts, k);
    assert us[..k] == ts[..k] && us[k] == ts[k + 1];
    assert Front(ts[..k + 1]) == ts[..k] && Last(ts[..k + 1]) == ts[k];
    RefillTwice(After(ts[..k]).value, ts[k], ts[k + 1]);
  }

  /** A call is decided, and leaves the bucket, by its level and its reading. */
  lemma LevelDecides(ts: seq<real>, n: nat)
    requires n < |ts|
    ensures Admitted(ts, n) <==> Level(ts, n) >= 1.0
    ensures After(ts[..n + 1]) == Some(Bucket(Level(ts, n) - (if Admitted(ts, n) then 1.0 else 0.0), ts[n]))
  {
    assert Front(ts[..n + 1]) == ts[..n] && Last(ts[..n + 1]) == ts[n];
  }

  /** From a refused call on, the bucket with it and the bucket without it meet at the next call. */
  lemma {:induction false} BucketWithout(ts: seq<real>, k: nat, n: nat)
    requires NonDecreasing(ts) && k < n < |ts| && !Admitted(ts, k)
    ensures Level(ts, n) == Level(Without(ts, k), n - 1)
    ensures Admitted(ts, n) == Admitted(Without(ts, k), n - 1)
    ensures After(ts[..n + 1]) == After(Without(ts, k)[..n])
  {
    hide Admitted, After, NonDecreasing, Refill;
    var us := Without(ts, k);
    assert us[n - 1] == ts[n];
    if n == k + 1 {
      NextCallSame(ts, k);
    } else {
      BucketWithout(ts, k, n - 1);
    }
    LevelDecides(ts, n);
    LevelDecides(us, n - 1);
  }

  /** Deleting a refused call changes no other decision. */
  lemma RefusedLeavesNoTrace(ts: seq<real>, k: nat, n: nat)
    requires NonDecreasing(ts) && k < |ts| && n < |ts| && n != k && !Admitted(ts, k)
    ensures Admitted(ts, n) == Admitted(Without(ts, k), if n < k then n else n - 1)
  {
    if n < k {
      assert Without(ts, k)[..n] == ts[..n];
    } else {
      BucketWithout(ts, k, n);
    }
  }

  // ---------- Any clock ----------

  /** Total forward movement of the readings: the sum of the differences that are positive. */
  function Forward(ts: seq<real>): (d: real)
    ensures d >= 0.0
  {
    if |ts| <= 1 then 0.0
    else
      var step := ts[|ts| - 1] - ts[|ts| - 2];
      Forward(ts[..|ts| - 1]) + if step > 0.0 then step else 0.0
  }

  function CountAll(ts: seq<real>): (k: int)
    ensures 0 <= k <= |ts|
  {
    Count(ts, 0, |ts|)
  }

  lemma SameDecision(ts: seq<real>, n: nat, k: nat)
    requires k < n <= |ts|
    ensures Admitted(ts, k) == Admitted(ts[..n], k)
  {
    assert ts[..n][..k] == ts[..k];
  }

  lemma {:induction false} CountPrefix(ts: seq<real>, n: nat)
    requires n <= |ts|
    ensures Count(ts, 0, n) == CountAll(ts[..n])
    decreases n
  {
    hide Admitted;
    if n > 0 {
      CountPrefix(ts, n - 1);
      CountPrefix(ts[..n], n - 1);
      assert ts[..n][..n - 1] == ts[..n - 1];
      SameDecision(ts, n, n - 1);
    }
  }

  /** Whatever the clock does, tokens spent and tokens left never exceed the burst plus what forward
      movement refilled, and the level stays within the bucket. */
  lemma {:induction false} NeverOverspent(ts: seq<real>)
    requires ts != []
    ensures var b := After(ts).value;
            && 0.0 <= b.level <= 5.0
            && b.level + CountAll(ts) as real <= 5.0 + 0.1 * Forward(ts)
  {
    var n := |ts| - 1;
    var f := Front(ts);
    CountPrefix(ts, n);
    assert CountAll(ts) == CountAll(f) + if Admitted(ts, n) then 1 else 0;
    if |ts| > 1 {
      NeverOverspent(f);
    } else {
      assert f == [];
    }
  }

  /** Admissions of one pubkey are at most the burst plus a tenth of the forward clock movement. */
  lemma AdmissionsBounded(ts: seq<real>)
    ensures CountAll(ts) as real <= 5.0 + 0.1 * Forward(ts)
  {
    if ts != [] {
      NeverOverspent(ts);
    }
  }

  // ---------- Buckets inside the store ----------

  /** The readings of one pubkey's attestation calls in a history. */
  function Readings(h: seq<Event>, pk: Pubkey): (ts: seq<real>) {
    if h == [] then []
    else if Last(h).Attest? && Last(h).pubkey == pk then Readings(Front(h), pk) + [Last(h).now]
    else Readings(Front(h), pk)
  }

  function StoredBucket(s: Inner, pk: Pubkey): (b: Option<Bucket>) {
    if pk in s.attestBuckets then Some(s.attestBuckets[pk]) else None
  }

  lemma InsertKeepsBuckets(s: Inner, e: Event)
    requires Allowed(s, e) && !e.Attest?
    ensures Step(s, e).attestBuckets == s.attestBuckets
  {
  }

  /** Buckets are independent: what the store keeps for a pubkey depends on its own readings only,
      whatever is interleaved. */
  lemma {:induction false} BucketIsOwnReadings(h: seq<Event>, pk: Pubkey)
    requires Valid(h)
    ensures StoredBucket(Run(h), pk) == After(Readings(h, pk))
  {
    hide Charge, Inserted, Forgotten;
    if h != [] {
      BucketIsOwnReadings(Front(h), pk);
      var ts := Readings(h, pk);
      if Last(h).Attest? && Last(h).pubkey == pk {
        assert Front(ts) == Readings(Front(h), pk) && Last(ts) == Last(h).now;
      }
      if !Last(h).Attest? {
        InsertKeepsBuckets(Run(Front(h)), Last(h));
      }
    }
  }

  /** The decision the store takes in any history is the decision of the pubkey's own run, and with
      nondecreasing readings that is the sliding-window law. */
  lemma StoreDecides(h: seq<Event>, pk: Pubkey, now: real)
    requires Valid(h)
    ensures var ts := Readings(h, pk) + [now];
            && Attested(Run(h), pk, now).1 == Admitted(ts, |ts| - 1)
            && (NonDecreasing(ts) ==>
                  (Attested(Run(h), pk, now).1 <==> AllFit(ts, |ts| - 1)))
  {
    var ts := Readings(h, pk) + [now];
    var n := |ts| - 1;
    BucketIsOwnReadings(h, pk);
    assert ts[..n] == Readings(h, pk);
    if NonDecreasing(ts) {
      SlidingWindow(ts, n);
    }
  }
}
