/** The RAM session store (src/state.rs). `Inner` is the content behind the lock, the functions on
    it are the atomic steps, and the class runs those steps in place. */
module Store {
  import opened Bits

  type Pubkey = p: seq<Byte> | |p| == 65 witness seq(65, _ => 0 as Byte)
  type MemberHash = Hash32

  const DEVICE_CAP: nat := 3
  const ATTEST_BURST: real := 5.0
  const ATTEST_REFILL_PER_SEC: real := 0.1

  datatype MemberEntry =
    MemberEntry(clientPubkey: Pubkey, memberHash: MemberHash, sessionToken: string, originalTxId: string)

  /** One per pubkey: its live bearers, oldest first. */
  datatype Member = Member(memberHash: MemberHash, originalTxId: string, sessions: seq<string>)

  /** Tokens left and the reading at which they were counted. */
  datatype Bucket = Bucket(level: real, last: real)

  datatype Inner = Inner(
    byPubkey: map<Pubkey, Member>,
    byToken: map<string, Pubkey>,
    seenNonces: set<string>,
    attestBuckets: map<Pubkey, Bucket>)

  const EMPTY := Inner(map[], map[], {}, map[])

  // ---------- Atomic steps ----------

  function Sessions(s: Inner, pk: Pubkey): (q: seq<string>) {
    if pk in s.byPubkey then s.byPubkey[pk].sessions else []
  }

  function Elems(q: seq<string>): (r: set<string>)
    ensures forall t :: t in r <==> t in q
  {
    set t | t in q
  }

  /** The at most n newest elements of a queue, oldest first. */
  function Newest(q: seq<string>, n: nat): (r: seq<string>)
    ensures |r| == if |q| <= n then |q| else n
  {
    if |q| <= n then q else q[|q| - n..]
  }

  /** What falls off when only the n newest are kept. */
  function Overflow(q: seq<string>, n: nat): (r: seq<string>)
    ensures r + Newest(q, n) == q
  {
    if |q| <= n then [] else q[..|q| - n]
  }

  function Inserted(s: Inner, e: MemberEntry): (r: Inner) {
    var pk, q := e.clientPubkey, Sessions(s, e.clientPubkey) + [e.sessionToken];
    s.(byPubkey := s.byPubkey[pk := Member(e.memberHash, e.originalTxId, Newest(q, DEVICE_CAP))],
       byToken := (s.byToken - Elems(Overflow(q, DEVICE_CAP)))[e.sessionToken := pk])
  }

  function Forgotten(s: Inner, pk: Pubkey): (r: Inner)
    requires pk in s.byPubkey
  {
    s.(byPubkey := s.byPubkey - {pk}, byToken := s.byToken - Elems(s.byPubkey[pk].sessions))
  }

  /** The map is searched in no particular order, so any member with the hash can be the one found. */
  predicate CanFind(s: Inner, hash: MemberHash, found: Option<Pubkey>) {
    match found
    case Some(pk) => pk in s.byPubkey && s.byPubkey[pk].memberHash == hash
    case None => forall pk :: pk in s.byPubkey ==> s.byPubkey[pk].memberHash != hash
  }

  function Revoked(s: Inner, found: Option<Pubkey>): (r: Inner)
    requires found.Some? ==> found.value in s.byPubkey
  {
    match found case None => s case Some(pk) => Forgotten(s, pk)
  }

  function Noted(s: Inner, nonce: string): (r: Inner) {
    s.(seenNonces := s.seenNonces + {nonce})
  }

  function Resolve(s: Inner, token: string): (r: Option<MemberEntry>) {
    if token in s.byToken && s.byToken[token] in s.byPubkey then
      var pk := s.byToken[token];
      Some(MemberEntry(pk, s.byPubkey[pk].memberHash, token, s.byPubkey[pk].originalTxId))
    else None
  }

  /** Seconds between two readings; a reading that goes backwards counts as zero. */
  function Elapsed(last: real, now: real): (d: real)
    ensures d >= 0.0
  {
    if now >= last then now - last else 0.0
  }

  /** The level of a bucket brought up to a reading. */
  function Refill(b: Bucket, now: real): (level: real) {
    var level := b.level + Elapsed(b.last, now) * ATTEST_REFILL_PER_SEC;
    if level <= ATTEST_BURST then level else ATTEST_BURST
  }

  function BucketOf(s: Inner, pk: Pubkey, now: real): (b: Bucket) {
    if pk in s.attestBuckets then s.attestBuckets[pk] else Bucket(ATTEST_BURST, now)
  }

  /** A call at a reading: the refilled level pays for it or the call is refused. */
  function Charge(b: Bucket, now: real): (r: (Bucket, bool)) {
    var level := Refill(b, now);
    if level >= 1.0 then (Bucket(level - 1.0, now), true) else (Bucket(level, now), false)
  }

  function Attested(s: Inner, pk: Pubkey, now: real): (r: (Inner, bool)) {
    var (b, ok) := Charge(BucketOf(s, pk, now), now);
    (s.(attestBuckets := s.attestBuckets[pk := b]), ok)
  }

  // ---------- The store, updated in place ----------

  class MemberStore {
    var byPubkey: map<Pubkey, Member>
    var byToken: map<string, Pubkey>
    var seenNonces: set<string>
    var attestBuckets: map<Pubkey, Bucket>

    ghost function View(): (s: Inner)
      reads this
    {
      Inner(byPubkey, byToken, seenNonces, attestBuckets)
    }

    constructor ()
      ensures View() == EMPTY
    {
      byPubkey, byToken, seenNonces, attestBuckets := map[], map[], {}, map[];
    }

    method SessionCount(pk: Pubkey) returns (n: nat)
      ensures n == |Sessions(View(), pk)|
    {
      n := if pk in byPubkey then |byPubkey[pk].sessions| else 0;
    }

    method ContainsToken(token: string) returns (live: bool)
      ensures live <==> token in View().byToken
    {
      live := token in byToken;
    }

    method GetByToken(token: string) returns (r: Option<MemberEntry>)
      ensures r == Resolve(View(), token)
    {
      if token !in byToken {
        return None;
      }
      var pk := byToken[token];
      if pk !in byPubkey {
        return None;
      }
      var member := byPubkey[pk];
      r := Some(MemberEntry(pk, member.memberHash, token, member.originalTxId));
    }

    /** Remove each token from the bearer index. */
    method DropTokens(tokens: seq<string>)
      modifies this`byToken
      ensures byToken == old(byToken) - Elems(tokens)
    {
      for i := 0 to |tokens|
        invariant byToken == old(byToken) - Elems(tokens[..i])
      {
        byToken := byToken - {tokens[i]};
        assert Elems(tokens[..i + 1]) == Elems(tokens[..i]) + {tokens[i]};
      }
      assert tokens[..|tokens|] == tokens;
    }

    method Insert(entry: MemberEntry) returns (ok: bool)
      modifies this
      ensures ok && View() == Inserted(old(View()), entry)
    {
      var pk := entry.clientPubkey;
      var member := if pk in byPubkey then byPubkey[pk] else Member(entry.memberHash, entry.originalTxId, []);
      member := member.(memberHash := entry.memberHash, originalTxId := entry.originalTxId);
      var sessions := member.sessions + [entry.sessionToken];
      ghost var q := sessions;
      var evicted: seq<string> := [];
      while |sessions| > DEVICE_CAP
        invariant evicted + sessions == q
        invariant |sessions| >= DEVICE_CAP || evicted == []
      {
        var front := sessions[0];
        sessions := sessions[1..];
        evicted := evicted + [front];
      }
      assert sessions == Newest(q, DEVICE_CAP) && evicted == Overflow(q, DEVICE_CAP);
      byPubkey := byPubkey[pk := member.(sessions := sessions)];
      DropTokens(evicted);
      byToken := byToken[entry.sessionToken := pk];
      ok := true;
    }

    method RevokeByMemberHash(hash: MemberHash) returns (ok: bool)
      modifies this
      ensures exists found ::
        CanFind(old(View()), hash, found) && ok == found.Some? && View() == Revoked(old(View()), found)
    {
      var rest := byPubkey.Keys;
      var found: Option<Pubkey> := None;
      while rest != {} && found.None?
        invariant rest <= byPubkey.Keys
        invariant found.Some? ==> CanFind(View(), hash, found)
        invariant found.None? ==> forall pk :: pk in byPubkey && pk !in rest ==> byPubkey[pk].memberHash != hash
        decreases rest
      {
        var pk :| pk in rest;
        if byPubkey[pk].memberHash == hash {
          found := Some(pk);
        }
        rest := rest - {pk};
      }
      assert CanFind(old(View()), hash, found);
      ok := found.Some?;
      if found.Some? {
        var m := byPubkey[found.value];
        byPubkey := byPubkey - {found.value};
        DropTokens(m.sessions);
      }
    }

    method NoteNonce(nonce: string) returns (isNew: bool)
      modifies this`seenNonces
      ensures isNew <==> nonce !in old(seenNonces)
      ensures View() == Noted(old(View()), nonce)
    {
      isNew := nonce !in seenNonces;
      seenNonces := seenNonces + {nonce};
    }

    /** `now` is the reading taken before the lock. */
    method AllowAttestation(pk: Pubkey, now: real) returns (ok: bool)
      modifies this`attestBuckets
      ensures (View(), ok) == Attested(old(View()), pk, now)
    {
      if pk !in attestBuckets {
        attestBuckets := attestBuckets[pk := Bucket(ATTEST_BURST, now)];
      }
      var bucket := attestBuckets[pk];
      var raised := bucket.level + Elapsed(bucket.last, now) * ATTEST_REFILL_PER_SEC;
      bucket := bucket.(level := if raised <= ATTEST_BURST then raised else ATTEST_BURST);
      bucket := bucket.(last := now);
      if bucket.level >= 1.0 {
        bucket := bucket.(level := bucket.level - 1.0);
        ok := true;
      } else {
        ok := false;
      }
      attestBuckets := attestBuckets[pk := bucket];
      assert attestBuckets == old(attestBuckets)[pk := bucket];
    }
  }
}
