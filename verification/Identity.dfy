/** What enrols and revokes do to identities, over every history (src/enroll.rs:93-113,
    src/state.rs:120-193), and how large the store can grow. */
module Identity {
  import opened Bits
  import opened Store
  import opened History

  type Pairs = set<(seq<Byte>, seq<Byte>)>

  /** Every enrol was let through by a manifest denoting these pairs. */
  ghost predicate Paired(h: seq<Event>, pairs: Pairs) {
    forall e :: e in h && e.Enrol? ==> (e.entry.clientPubkey, e.entry.memberHash) in pairs
  }

  /** No hash is listed under two pubkeys. */
  ghost predicate HashesUnique(pairs: Pairs) {
    forall p, q :: p in pairs && q in pairs && p.1 == q.1 ==> p.0 == q.0
  }

  predicate Holds(s: Inner, pk: Pubkey, hash: MemberHash) {
    pk in s.byPubkey && s.byPubkey[pk].memberHash == hash
  }

  /** At most one member holds the hash. */
  ghost predicate AtMostOne(s: Inner, hash: MemberHash) {
    forall p, q :: Holds(s, p, hash) && Holds(s, q, hash) ==> p == q
  }

  /** No live bearer resolves to the hash. */
  ghost predicate HashDead(s: Inner, hash: MemberHash) {
    forall t :: Resolve(s, t).Some? ==> Resolve(s, t).value.memberHash != hash
  }

  lemma {:induction false} MembersPaired(h: seq<Event>, pairs: Pairs)
    requires Valid(h) && Paired(h, pairs)
    ensures forall pk :: pk in Run(h).byPubkey ==> (pk, Run(h).byPubkey[pk].memberHash) in pairs
  {
    if h != [] {
      MembersPaired(Front(h), pairs);
      var s, e := Run(Front(h)), Last(h);
      assert e in h;
      forall pk | pk in Run(h).byPubkey
        ensures (pk, Run(h).byPubkey[pk].memberHash) in pairs
      {
        if !EnrolsKey(e, pk) {
          assert pk in s.byPubkey && Run(h).byPubkey[pk] == s.byPubkey[pk];
        }
      }
    }
  }

  /** Each live bearer resolves to an identity the manifest lists. */
  lemma ResolvesToPair(h: seq<Event>, pairs: Pairs, token: string)
    requires Valid(h) && Paired(h, pairs)
    ensures token in Run(h).byToken ==>
      var r := Resolve(Run(h), token);
      r.Some? && (r.value.clientPubkey, r.value.memberHash) in pairs && r.value.sessionToken == token
  {
    IndexAlwaysSound(h);
    MembersPaired(h, pairs);
  }

  // ---------- Revocation ----------

  lemma RevokeOutcome(h: seq<Event>, hash: MemberHash, found: Option<Pubkey>)
    requires Valid(h) && CanFind(Run(h), hash, found)
    ensures Valid(h + [Revoke(hash, found)])
    ensures Run(h + [Revoke(hash, found)]) == Revoked(Run(h), found)
    ensures Fresh(h) ==> Fresh(h + [Revoke(hash, found)])
  {
    var all := h + [Revoke(hash, found)];
    assert Front(all) == h && Last(all) == Revoke(hash, found);
    assert forall i :: 0 <= i < |all| && all[i].Enrol? ==> i < |h| && all[i] == h[i];
  }

  /** A revoke kills every bearer of the member it finds and gives no bearer a new meaning; with
      tokens that never repeat it touches no other bearer at all. */
  lemma RevokeExact(h: seq<Event>, hash: MemberHash, found: Option<Pubkey>, token: string)
    requires Valid(h) && CanFind(Run(h), hash, found)
    ensures Valid(h + [Revoke(hash, found)])
    ensures var before, after := Resolve(Run(h), token), Resolve(Run(h + [Revoke(hash, found)]), token);
            && (after == before || after.None?)
            && (before.Some? && found == Some(before.value.clientPubkey) ==> after.None?)
            && (Fresh(h) && (before.None? || found != Some(before.value.clientPubkey)) ==> after == before)
  {
    var s := Run(h);
    RevokeOutcome(h, hash, found);
    IndexAlwaysSound(h);
    if Fresh(h) {
      FreshIndexComplete(h);
    }
    hide Outcome, Fresh;
    if found.Some? {
      ForgottenParts(s, found.value);
    }
  }

  lemma OtherMemberAlive(h: seq<Event>, found: Option<Pubkey>, other: Pubkey)
    requires Valid(h) && Fresh(h) && other in Run(h).byPubkey && found != Some(other)
    requires found.Some? ==> found.value in Run(h).byPubkey
    ensures exists t :: Resolve(Revoked(Run(h), found), t).Some?
                        && Resolve(Revoked(Run(h), found), t).value.memberHash == Run(h).byPubkey[other].memberHash
  {
    var s := Run(h);
    FreshIndexComplete(h);
    IndexAlwaysSound(h);
    hide Outcome;
    var t := Sessions(s, other)[0];
    assert t in Sessions(s, other) && s.byToken[t] == other;
    if found.Some? {
      ForgottenParts(s, found.value);
      assert t !in Sessions(s, found.value);
    }
    assert Resolve(Revoked(s, found), t).Some?;
  }

  lemma OneMemberClears(s: Inner, hash: MemberHash, found: Option<Pubkey>)
    requires CanFind(s, hash, found) && AtMostOne(s, hash)
    ensures HashDead(Revoked(s, found), hash)
  {
    forall t | Resolve(Revoked(s, found), t).Some?
      ensures Resolve(Revoked(s, found), t).value.memberHash != hash
    {
      var pk := Resolve(Revoked(s, found), t).value.clientPubkey;
      assert found.Some? ==> Holds(s, found.value, hash);
      assert found != Some(pk) && (s.byPubkey[pk].memberHash == hash ==> Holds(s, pk, hash));
    }
  }

  /** Right after a revoke no live bearer resolves to the hash if at most one member held it, and with
      tokens that never repeat only then: the code removes the first match only. */
  lemma RevokeClearsIff(h: seq<Event>, hash: MemberHash, found: Option<Pubkey>)
    requires Valid(h) && CanFind(Run(h), hash, found)
    ensures Valid(h + [Revoke(hash, found)])
    ensures AtMostOne(Run(h), hash) ==> HashDead(Run(h + [Revoke(hash, found)]), hash)
    ensures Fresh(h) ==> (HashDead(Run(h + [Revoke(hash, found)]), hash) <==> AtMostOne(Run(h), hash))
  {
    hide Outcome, Fresh, Resolve, Revoked;
    var s := Run(h);
    RevokeOutcome(h, hash, found);
    if AtMostOne(s, hash) {
      OneMemberClears(s, hash, found);
    } else if Fresh(h) {
      var p: Pubkey, q: Pubkey :| Holds(s, p, hash) && Holds(s, q, hash) && p != q;
      OtherMemberAlive(h, found, if found == Some(p) then q else p);
    }
  }

  /** If the manifest lists each hash under at most one pubkey, a revoke always clears its hash. */
  lemma RevokeClears(h: seq<Event>, pairs: Pairs, hash: MemberHash, found: Option<Pubkey>)
    requires Valid(h) && Paired(h, pairs) && HashesUnique(pairs) && CanFind(Run(h), hash, found)
    ensures Valid(h + [Revoke(hash, found)])
    ensures HashDead(Run(h + [Revoke(hash, found)]), hash)
  {
    MembersPaired(h, pairs);
    var s := Run(h);
    forall p, q | Holds(s, p, hash) && Holds(s, q, hash)
      ensures p == q
    {
      assert (p, hash) in pairs && (q, hash) in pairs;
    }
    assert AtMostOne(s, hash);
    RevokeClearsIff(h, hash, found);
  }

  /** A manifest with one hash under two pubkeys: after a revoke the other device still chats. */
  lemma SharedHashSurvives(a: Pubkey, b: Pubkey, hash: MemberHash, tx: string, t: string, u: string)
    requires a != b && t != u
    ensures var h := [Enrol(MemberEntry(a, hash, t, tx)), Enrol(MemberEntry(b, hash, u, tx)), Revoke(hash, Some(a))];
            Valid(h) && Fresh(h) && Resolve(Run(h), u) == Some(MemberEntry(b, hash, u, tx))
  {
    var x, y := MemberEntry(a, hash, t, tx), MemberEntry(b, hash, u, tx);
    var s1 := Inserted(EMPTY, x);
    var s2 := Inserted(s1, y);
    InsertedParts(EMPTY, x);
    InsertedParts(s1, y);
    ForgottenParts(s2, a);
    assert Newest([] + [t], DEVICE_CAP) == [t];
    assert s2.byPubkey[a].memberHash == hash && Forgotten(s2, a).byPubkey[b] == s2.byPubkey[b];
    hide Inserted, Forgotten;
    RunThree(Enrol(x), Enrol(y), Revoke(hash, Some(a)));
  }

  // ---------- Enrolment ----------

  lemma EnrolOutcome(h: seq<Event>, e: MemberEntry)
    requires Valid(h)
    ensures Valid(h + [Enrol(e)]) && Run(h + [Enrol(e)]) == Inserted(Run(h), e)
  {
    var all := h + [Enrol(e)];
    assert Front(all) == h && Last(all) == Enrol(e);
  }

  lemma EnrolAnyToken(s: Inner, e: MemberEntry, token: string)
    requires IndexSound(s)
    ensures var before, after := Resolve(s, token), Resolve(Inserted(s, e), token);
            && (token == e.sessionToken ==> after == Some(e))
            && (token != e.sessionToken && before.None? ==> after.None?)
  {
    InsertedParts(s, e);
    hide Newest, Overflow;
  }

  /** Before an enrol with a fresh token: the index mirrors the queues and the token is new to both. */
  lemma EnrolReady(h: seq<Event>, e: MemberEntry)
    requires Valid(h) && Fresh(h + [Enrol(e)])
    ensures var s := Run(h);
            IndexSound(s) && IndexComplete(s) && Capped(s) && e.sessionToken !in s.byToken
  {
    hide Valid, Run, Sessions;
    var all, s := h + [Enrol(e)], Run(h);
    assert Front(all) == h;
    FreshFront(all);
    FreshIndexComplete(h);
    IndexAlwaysSound(h);
    if e.sessionToken in s.byToken {
      QueueDrawn(h, s.byToken[e.sessionToken]);
    }
  }

  lemma EvictsOldest(q: seq<string>, t: string)
    requires |q| <= DEVICE_CAP
    ensures Overflow(q + [t], DEVICE_CAP) == if |q| == DEVICE_CAP then [q[0]] else []
  {
  }

  lemma InsertExact(s: Inner, e: MemberEntry, token: string)
    requires IndexSound(s) && IndexComplete(s) && Capped(s) && e.sessionToken !in s.byToken
    ensures var before, after := Resolve(s, token), Resolve(Inserted(s, e), token);
            && (before.Some? && before.value.clientPubkey != e.clientPubkey ==> after == before)
            && (before.Some? && before.value.clientPubkey == e.clientPubkey ==>
                  (after.None? <==> |Sessions(s, e.clientPubkey)| == 3
                                    && Sessions(s, e.clientPubkey)[0] == token))
  {
    InsertedParts(s, e);
    EvictsOldest(Sessions(s, e.clientPubkey), e.sessionToken);
    hide Newest, Overflow;
    var r := Inserted(s, e);
    assert forall p :: p in s.byPubkey && p != e.clientPubkey ==> r.byPubkey[p] == s.byPubkey[p];
  }

  /** An enrol makes its own bearer live and revives no other; with tokens that never repeat it
      disturbs no bearer of another pubkey and of its own can only evict the oldest. */
  lemma EnrolExact(h: seq<Event>, e: MemberEntry, token: string)
    requires Valid(h)
    ensures Valid(h + [Enrol(e)])
    ensures var before, after := Resolve(Run(h), token), Resolve(Run(h + [Enrol(e)]), token);
            && (token == e.sessionToken ==> after == Some(e))
            && (token != e.sessionToken && before.None? ==> after.None?)
    ensures Fresh(h + [Enrol(e)]) ==>
            var before, after := Resolve(Run(h), token), Resolve(Run(h + [Enrol(e)]), token);
            && (before.Some? && before.value.clientPubkey != e.clientPubkey ==> after == before)
            && (before.Some? && before.value.clientPubkey == e.clientPubkey ==>
                  (after.None? <==> |Sessions(Run(h), e.clientPubkey)| == 3
                                    && Sessions(Run(h), e.clientPubkey)[0] == token))
  {
    EnrolOutcome(h, e);
    IndexAlwaysSound(h);
    EnrolAnyToken(Run(h), e, token);
    if Fresh(h + [Enrol(e)]) {
      EnrolReady(h, e);
      InsertExact(Run(h), e, token);
    }
  }

  // ---------- Size ----------

  function Queued(s: Inner, pks: set<Pubkey>): (r: set<string>) {
    set pk, t | pk in pks && t in Sessions(s, pk) :: t
  }

  lemma SubsetSize<T>(a: set<T>, b: set<T>)
    requires a <= b
    ensures |a| <= |b|
  {
    assert b == a + (b - a);
  }

  lemma UnionSize<T>(a: set<T>, b: set<T>)
    ensures |a + b| <= |a| + |b|
  {
    assert a + b == a + (b - a) && |b - a| <= |b| by {
      SubsetSize(b - a, b);
    }
  }

  lemma {:induction false} ElemsSize(q: seq<string>)
    ensures |Elems(q)| <= |q|
  {
    if q != [] {
      ElemsSize(q[1..]);
      assert Elems(q) == Elems(q[1..]) + {q[0]};
    }
  }

  lemma {:induction false} QueuedSize(s: Inner, pks: set<Pubkey>)
    requires Capped(s) && pks <= s.byPubkey.Keys
    ensures |Queued(s, pks)| <= 3 * |pks|
  {
    if pks != {} {
      var pk :| pk in pks;
      var rest := pks - {pk};
      QueuedSize(s, rest);
      ElemsSize(Sessions(s, pk));
      assert Queued(s, pks) == Queued(s, rest) + Elems(Sessions(s, pk));
      UnionSize(Queued(s, rest), Elems(Sessions(s, pk)));
    }
  }

  /** The bearer index never holds more than three entries per member. */
  lemma IndexBounded(h: seq<Event>)
    requires Valid(h)
    ensures |Run(h).byToken| <= 3 * |Run(h).byPubkey|
  {
    IndexAlwaysSound(h);
    var s := Run(h);
    hide Outcome;
    forall t | t in s.byToken
      ensures t in Queued(s, s.byPubkey.Keys)
    {
      assert t in Sessions(s, s.byToken[t]);
    }
    SubsetSize(s.byToken.Keys, Queued(s, s.byPubkey.Keys));
    QueuedSize(s, s.byPubkey.Keys);
  }

  /** Every request came from a pubkey that passed the handshake gate. */
  ghost predicate Gated(h: seq<Event>, cohort: set<seq<Byte>>) {
    forall e :: e in h ==> (e.Enrol? ==> e.entry.clientPubkey in cohort) && (e.Attest? ==> e.pubkey in cohort)
  }

  lemma {:induction false} KeysInCohort(h: seq<Event>, cohort: set<seq<Byte>>)
    requires Valid(h) && Gated(h, cohort)
    ensures forall pk :: pk in Run(h).byPubkey ==> pk in cohort
    ensures forall pk :: pk in Run(h).attestBuckets ==> pk in cohort
  {
    if h != [] {
      KeysInCohort(Front(h), cohort);
      assert Last(h) in h;
    }
  }

  lemma CohortSize(cohort: set<seq<Byte>>)
    ensures |set pk: Pubkey | pk in cohort| <= |cohort|
  {
    var typed: set<seq<Byte>> := set pk: Pubkey | pk in cohort;
    SubsetSize(typed, cohort);
  }

  /** Members, bearers and attestation buckets are bounded by the cohort. */
  lemma StoreBounded(h: seq<Event>, cohort: set<seq<Byte>>)
    requires Valid(h) && Gated(h, cohort)
    ensures |Run(h).byPubkey| <= |cohort| && |Run(h).attestBuckets| <= |cohort|
    ensures |Run(h).byToken| <= 3 * |cohort|
  {
    KeysInCohort(h, cohort);
    IndexBounded(h);
    var s := Run(h);
    hide Outcome;
    SubsetSize(s.byPubkey.Keys, set pk: Pubkey | pk in cohort);
    SubsetSize(s.attestBuckets.Keys, set pk: Pubkey | pk in cohort);
    CohortSize(cohort);
  }
}
