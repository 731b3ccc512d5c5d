/** Every run of the store. A history lists the atomic steps in the order of their critical
    sections; the state after it is compared with what a scan of the history says. */
module History {
  import opened Bits
  import opened Store

  datatype Event =
    | Enrol(entry: MemberEntry)
    | Revoke(hash: MemberHash, found: Option<Pubkey>)
    | Note(nonce: string)
    | Attest(pubkey: Pubkey, now: real)

  predicate Allowed(s: Inner, e: Event) {
    e.Revoke? ==> CanFind(s, e.hash, e.found)
  }

  function Step(s: Inner, e: Event): (r: Inner)
    requires Allowed(s, e)
  {
    match e
    case Enrol(entry) => Inserted(s, entry)
    case Revoke(_, found) => Revoked(s, found)
    case Note(nonce) => Noted(s, nonce)
    case Attest(pk, now) => Attested(s, pk, now).0
  }

  function Front<T>(h: seq<T>): (r: seq<T>)
    requires h != []
    ensures |r| == |h| - 1
  {
    h[..|h| - 1]
  }

  function Last<T>(h: seq<T>): (e: T)
    requires h != []
  {
    h[|h| - 1]
  }

  /** The state after a history, if each step was possible where it stands. */
  function Outcome(h: seq<Event>): (r: Option<Inner>) {
    if h == [] then Some(EMPTY)
    else
      match Outcome(Front(h))
      case None => None
      case Some(s) => if Allowed(s, Last(h)) then Some(Step(s, Last(h))) else None
  }

  predicate Valid(h: seq<Event>) {
    Outcome(h).Some?
  }

  function Run(h: seq<Event>): (s: Inner)
    requires Valid(h)
  {
    Outcome(h).value
  }

  // ---------- What a scan of the history says ----------

  predicate RevokesKey(e: Event, pk: Pubkey) {
    e.Revoke? && e.found == Some(pk)
  }

  predicate EnrolsKey(e: Event, pk: Pubkey) {
    e.Enrol? && e.entry.clientPubkey == pk
  }

  /** Bearers minted for a pubkey since its last revocation, oldest first. */
  function MintedSince(h: seq<Event>, pk: Pubkey): (q: seq<string>) {
    if h == [] then []
    else if EnrolsKey(Last(h), pk) then MintedSince(Front(h), pk) + [Last(h).entry.sessionToken]
    else if RevokesKey(Last(h), pk) then []
    else MintedSince(Front(h), pk)
  }

  function CountEnrols(h: seq<Event>, pk: Pubkey): (n: nat) {
    if h == [] then 0 else CountEnrols(Front(h), pk) + if EnrolsKey(Last(h), pk) then 1 else 0
  }

  /** Step i minted a bearer for pk, pk was not revoked since, and fewer than n enrols of pk followed. */
  predicate Among(h: seq<Event>, i: int, n: nat, pk: Pubkey, token: string) {
    && 0 <= i < |h| && EnrolsKey(h[i], pk) && h[i].entry.sessionToken == token
    && (forall j :: i < j < |h| ==> !RevokesKey(h[j], pk))
    && CountEnrols(h[i + 1..], pk) < n
  }

  /** Tokens drawn by the enrols of a history never repeat. */
  predicate Fresh(h: seq<Event>) {
    forall i, j :: 0 <= i < j < |h| && h[i].Enrol? && h[j].Enrol?
        ==> h[i].entry.sessionToken != h[j].entry.sessionToken
  }

  // ---------- The queue is the end of the history ----------

  lemma NewestPush(q: seq<string>, t: string, n: nat)
    ensures Newest(Newest(q, n) + [t], n) == Newest(q + [t], n)
    ensures n > 0 ==> Newest(q + [t], n) == Newest(q, n - 1) + [t]
  {
  }

  /** The queue of every pubkey is the three newest bearers minted since its last revocation, in
      order, and a pubkey is a member exactly when there is one. */
  lemma {:induction false} QueueIsHistory(h: seq<Event>, pk: Pubkey)
    requires Valid(h)
    ensures Sessions(Run(h), pk) == Newest(MintedSince(h, pk), 3)
    ensures pk in Run(h).byPubkey <==> MintedSince(h, pk) != []
  {
    hide Newest, Overflow, Elems;
    if h != [] {
      QueueIsHistory(Front(h), pk);
      if EnrolsKey(Last(h), pk) {
        NewestPush(MintedSince(Front(h), pk), Last(h).entry.sessionToken, DEVICE_CAP);
      }
    } else {
      assert Newest([], DEVICE_CAP) == [];
    }
  }

  lemma AmongFront(h: seq<Event>, i: int, n: nat, pk: Pubkey, token: string)
    requires h != [] && 0 <= i < |h| - 1
    ensures EnrolsKey(Last(h), pk) ==> (Among(h, i, n + 1, pk, token) <==> Among(Front(h), i, n, pk, token))
    ensures !EnrolsKey(Last(h), pk) && !RevokesKey(Last(h), pk)
            ==> (Among(h, i, n, pk, token) <==> Among(Front(h), i, n, pk, token))
  {
    var tail := h[i + 1..];
    assert Front(tail) == Front(h)[i + 1..] && Last(tail) == Last(h);
    assert forall j :: 0 <= j < |h| - 1 ==> h[j] == Front(h)[j];
  }

  ghost predicate SomeAmong(h: seq<Event>, n: nat, pk: Pubkey, token: string) {
    exists i :: Among(h, i, n, pk, token)
  }

  lemma AmongSplit(h: seq<Event>, n: nat, pk: Pubkey, token: string, m: nat)
    requires h != []
    requires forall i :: 0 <= i < |h| - 1 ==> (Among(h, i, n, pk, token) <==> Among(Front(h), i, m, pk, token))
    ensures SomeAmong(h, n, pk, token) <==> SomeAmong(Front(h), m, pk, token) || Among(h, |h| - 1, n, pk, token)
  {
    if SomeAmong(h, n, pk, token) {
      var i :| Among(h, i, n, pk, token);
      assert i == |h| - 1 || Among(Front(h), i, m, pk, token);
    }
    if SomeAmong(Front(h), m, pk, token) {
      var i :| Among(Front(h), i, m, pk, token);
      assert Among(h, i, n, pk, token);
    }
  }

  /** How one more step changes which positions are among the last n. */
  lemma SomeAmongStep(h: seq<Event>, n: nat, pk: Pubkey, token: string)
    requires h != [] && n > 0
    ensures EnrolsKey(Last(h), pk)
            ==> (SomeAmong(h, n, pk, token)
                 <==> SomeAmong(Front(h), n - 1, pk, token) || Last(h).entry.sessionToken == token)
    ensures RevokesKey(Last(h), pk) ==> !SomeAmong(h, n, pk, token)
    ensures !EnrolsKey(Last(h), pk) && !RevokesKey(Last(h), pk)
            ==> (SomeAmong(h, n, pk, token) <==> SomeAmong(Front(h), n, pk, token))
  {
    var k := |h| - 1;
    var m := if EnrolsKey(Last(h), pk) then n - 1 else n;
    assert h[k + 1..] == [];
    if !RevokesKey(Last(h), pk) {
      forall i | 0 <= i < k
        ensures Among(h, i, n, pk, token) <==> Among(Front(h), i, m, pk, token)
      {
        AmongFront(h, i, m, pk, token);
      }
      AmongSplit(h, n, pk, token, m);
    }
  }

  lemma NewestNone(h: seq<Event>, n: nat, pk: Pubkey, token: string)
    requires h == [] || n == 0
    ensures token !in Newest(MintedSince(h, pk), n) && !SomeAmong(h, n, pk, token)
  {
    assert Newest(MintedSince(h, pk), n) == [];
  }

  /** Being among the n newest of the scan is being one of the last n enrols of the pubkey, with no
      revocation in between. */
  lemma {:induction false} NewestIsAmong(h: seq<Event>, n: nat, pk: Pubkey, token: string)
    ensures token in Newest(MintedSince(h, pk), n) <==> SomeAmong(h, n, pk, token)
  {
    hide SomeAmong, Among, Newest;
    if h == [] || n == 0 {
      NewestNone(h, n, pk, token);
    } else {
      SomeAmongStep(h, n, pk, token);
      if EnrolsKey(Last(h), pk) {
        NewestIsAmong(Front(h), n - 1, pk, token);
        NewestPush(MintedSince(Front(h), pk), Last(h).entry.sessionToken, n);
      } else if !RevokesKey(Last(h), pk) {
        NewestIsAmong(Front(h), n, pk, token);
      } else {
        assert Newest([], n) == [];
      }
    }
  }

  // ---------- The bearer index ----------

  /** Each index entry points at a member whose queue holds the bearer. */
  ghost predicate IndexSound(s: Inner) {
    forall t :: t in s.byToken ==> t in Sessions(s, s.byToken[t])
  }

  /** Each queued bearer is indexed, under its own pubkey: queues of different pubkeys are disjoint. */
  ghost predicate IndexComplete(s: Inner) {
    forall pk, t :: t in Sessions(s, pk) ==> t in s.byToken && s.byToken[t] == pk
  }

  /** Every member holds between one and three bearers. */
  ghost predicate Capped(s: Inner) {
    forall pk :: pk in s.byPubkey ==> 0 < |Sessions(s, pk)| <= 3
  }

  lemma NewestKeepsLast(q: seq<string>, t: string, n: nat)
    requires n > 0
    ensures t in Newest(q + [t], n)
    ensures forall u :: u in q + [t] ==> u in Newest(q + [t], n) || u in Overflow(q + [t], n)
    ensures forall u :: u in Newest(q + [t], n) || u in Overflow(q + [t], n) ==> u in q || u == t
  {
    var all := q + [t];
    var r := Newest(all, n);
    assert r[|r| - 1] == t;
    assert Overflow(all, n) + r == all;
  }

  /** An insert, read bearer by bearer and queue by queue. */
  lemma InsertedParts(s: Inner, e: MemberEntry)
    ensures var r, q := Inserted(s, e), Sessions(s, e.clientPubkey) + [e.sessionToken];
            && Sessions(r, e.clientPubkey) == Newest(q, DEVICE_CAP)
            && (forall p :: p != e.clientPubkey ==> Sessions(r, p) == Sessions(s, p))
            && (forall u :: u in r.byToken <==>
                  (u == e.sessionToken || (u in s.byToken && u !in Overflow(q, DEVICE_CAP))))
            && (forall u :: u in r.byToken ==>
                  r.byToken[u] == if u == e.sessionToken then e.clientPubkey else s.byToken[u])
            && r.byPubkey.Keys == s.byPubkey.Keys + {e.clientPubkey}
  {
    hide Newest, Overflow;
  }

  lemma ForgottenParts(s: Inner, pk: Pubkey)
    requires pk in s.byPubkey
    ensures var r := Forgotten(s, pk);
            && Sessions(r, pk) == [] && (forall p :: p != pk ==> Sessions(r, p) == Sessions(s, p))
            && (forall u :: u in r.byToken <==> u in s.byToken && u !in Sessions(s, pk))
            && (forall u :: u in r.byToken ==> r.byToken[u] == s.byToken[u])
            && r.byPubkey.Keys == s.byPubkey.Keys - {pk}
  {
  }

  lemma SoundInsert(s: Inner, e: MemberEntry)
    requires IndexSound(s) && Capped(s)
    ensures IndexSound(Inserted(s, e)) && Capped(Inserted(s, e))
  {
    hide Newest, Overflow, Inserted, Sessions;
    var pk, t, r := e.clientPubkey, e.sessionToken, Inserted(s, e);
    InsertedParts(s, e);
    NewestKeepsLast(Sessions(s, pk), t, DEVICE_CAP);
    forall u | u in r.byToken
      ensures u in Sessions(r, r.byToken[u])
    {
      if u != t {
        assert u in Sessions(s, s.byToken[u]);
        assert s.byToken[u] == pk ==> u in Sessions(s, pk) + [t];
      }
    }
  }

  lemma SoundForget(s: Inner, pk: Pubkey)
    requires IndexSound(s) && Capped(s) && pk in s.byPubkey
    ensures IndexSound(Forgotten(s, pk)) && Capped(Forgotten(s, pk))
  {
    var r := Forgotten(s, pk);
    assert forall p :: Sessions(r, p) == if p == pk then [] else Sessions(s, p);
  }

  lemma SoundStep(s: Inner, e: Event)
    requires IndexSound(s) && Capped(s) && Allowed(s, e)
    ensures IndexSound(Step(s, e)) && Capped(Step(s, e))
  {
    hide Inserted, Forgotten;
    if e.Enrol? {
      SoundInsert(s, e.entry);
    } else if e.Revoke? && e.found.Some? {
      SoundForget(s, e.found.value);
    } else {
      assert forall p :: Sessions(Step(s, e), p) == Sessions(s, p);
    }
  }

  /** Even if tokens repeat, the index never dangles, so the two lookups always agree. */
  lemma {:induction false} IndexAlwaysSound(h: seq<Event>)
    requires Valid(h)
    ensures IndexSound(Run(h)) && Capped(Run(h))
    ensures forall t :: t in Run(h).byToken <==> Resolve(Run(h), t).Some?
  {
    if h != [] {
      IndexAlwaysSound(Front(h));
      SoundStep(Run(Front(h)), Last(h));
      hide Step, IndexSound, Capped;
    }
    var s := Run(h);
    assert IndexSound(s) ==> forall t :: t in s.byToken ==> s.byToken[t] in s.byPubkey;
  }

  function Drawn(h: seq<Event>): (r: set<string>) {
    set e | e in h && e.Enrol? :: e.entry.sessionToken
  }

  ghost predicate NoDuplicates(q: seq<string>) {
    forall i, j :: 0 <= i < j < |q| ==> q[i] != q[j]
  }

  lemma FreshFront(h: seq<Event>)
    requires h != [] && Fresh(h)
    ensures Fresh(Front(h)) && Drawn(Front(h)) <= Drawn(h)
    ensures Last(h).Enrol? ==> Last(h).entry.sessionToken !in Drawn(Front(h))
    ensures Last(h).Enrol? ==> Last(h).entry.sessionToken in Drawn(h)
  {
    forall e | e in Front(h) && e.Enrol?
      ensures Last(h).Enrol? ==> e.entry.sessionToken != Last(h).entry.sessionToken
    {
      var i :| 0 <= i < |h| - 1 && h[i] == e;
    }
    assert Last(h) in h;
  }

  lemma {:induction false} MintedDistinct(h: seq<Event>, pk: Pubkey)
    requires Fresh(h)
    ensures NoDuplicates(MintedSince(h, pk))
    ensures Elems(MintedSince(h, pk)) <= Drawn(h)
  {
    if h != [] {
      FreshFront(h);
      MintedDistinct(Front(h), pk);
    }
  }

  lemma DistinctSplit(q: seq<string>, n: nat)
    requires NoDuplicates(q)
    ensures forall t :: t in Overflow(q, n) ==> t !in Newest(q, n)
  {
    forall t | t in Overflow(q, n)
      ensures t !in Newest(q, n)
    {
      var i :| 0 <= i < |Overflow(q, n)| && Overflow(q, n)[i] == t;
      assert q[i] == t;
      assert forall j :: 0 <= j < |Newest(q, n)| ==> Newest(q, n)[j] == q[|q| - |Newest(q, n)| + j];
    }
  }

  lemma PushDistinct(q: seq<string>, t: string)
    requires NoDuplicates(q) && t !in q
    ensures NoDuplicates(q + [t])
  {
  }

  lemma CompleteInsert(s: Inner, e: MemberEntry)
    requires IndexSound(s) && IndexComplete(s)
    requires forall pk :: e.sessionToken !in Sessions(s, pk)
    requires NoDuplicates(Sessions(s, e.clientPubkey))
    ensures IndexComplete(Inserted(s, e))
  {
    hide Newest, Overflow, Inserted, Sessions, NoDuplicates;
    var pk, t, r := e.clientPubkey, e.sessionToken, Inserted(s, e);
    var q := Sessions(s, pk) + [t];
    InsertedParts(s, e);
    NewestKeepsLast(Sessions(s, pk), t, DEVICE_CAP);
    PushDistinct(Sessions(s, pk), t);
    DistinctSplit(q, DEVICE_CAP);
    forall p, u | u in Sessions(r, p)
      ensures u in r.byToken && r.byToken[u] == p
    {
      if p != pk {
        assert u in Sessions(s, p) && s.byToken[u] == p && u != t;
        assert u !in Sessions(s, pk);
      }
    }
  }

  lemma CompleteForget(s: Inner, pk: Pubkey)
    requires IndexComplete(s) && pk in s.byPubkey
    ensures IndexComplete(Forgotten(s, pk))
  {
    var r := Forgotten(s, pk);
    forall p, u | u in Sessions(r, p)
      ensures u in r.byToken && r.byToken[u] == p
    {
      assert p != pk && u in Sessions(s, p) && s.byToken[u] == p;
      assert u !in Sessions(s, pk);
    }
  }

  lemma QueueDrawn(h: seq<Event>, pk: Pubkey)
    requires Valid(h) && Fresh(h)
    ensures NoDuplicates(Sessions(Run(h), pk)) && Elems(Sessions(Run(h), pk)) <= Drawn(h)
  {
    QueueIsHistory(h, pk);
    MintedDistinct(h, pk);
    var q := MintedSince(h, pk);
    assert forall t :: t in Newest(q, DEVICE_CAP) ==> t in q;
  }

  /** With tokens that never repeat the converse holds too: index and queues describe the same
      bearers, and no bearer is in two queues. */
  lemma {:induction false} FreshIndexComplete(h: seq<Event>)
    requires Valid(h) && Fresh(h)
    ensures IndexComplete(Run(h))
  {
    if h != [] {
      var f, e := Front(h), Last(h);
      FreshFront(h);
      FreshIndexComplete(f);
      IndexAlwaysSound(f);
      if e.Enrol? {
        forall pk
          ensures e.entry.sessionToken !in Sessions(Run(f), pk) && NoDuplicates(Sessions(Run(f), pk))
        {
          QueueDrawn(f, pk);
        }
        CompleteInsert(Run(f), e.entry);
      } else if e.Revoke? && e.found.Some? {
        CompleteForget(Run(f), e.found.value);
      } else {
        assert forall pk :: Sessions(Run(h), pk) == Sessions(Run(f), pk);
      }
    }
  }

  // ---------- Which bearers are live ----------

  /** A live bearer is always among the three most recent enrols of its pubkey since that pubkey's
      last revocation, and with tokens that never repeat those are exactly the live ones. */
  lemma LiveIffRecent(h: seq<Event>, token: string, pk: Pubkey)
    requires Valid(h)
    ensures token in Run(h).byToken && Run(h).byToken[token] == pk ==> SomeAmong(h, 3, pk, token)
    ensures Fresh(h) ==>
              (token in Run(h).byToken && Run(h).byToken[token] == pk <==> SomeAmong(h, 3, pk, token))
  {
    hide Newest, MintedSince, SomeAmong, Outcome;
    QueueIsHistory(h, pk);
    NewestIsAmong(h, DEVICE_CAP, pk, token);
    IndexAlwaysSound(h);
    if Fresh(h) {
      FreshIndexComplete(h);
    }
  }

  lemma {:induction false} PrefixValid(h: seq<Event>, more: seq<Event>)
    requires Valid(h + more)
    ensures Valid(h)
    decreases |more|
  {
    if more == [] {
      assert h + more == h;
    } else {
      assert Front(h + more) == h + Front(more);
      PrefixValid(h, Front(more));
    }
  }

  lemma {:induction false} CountGrows(a: seq<Event>, b: seq<Event>, pk: Pubkey)
    ensures CountEnrols(a, pk) <= CountEnrols(a + b, pk)
    decreases |b|
  {
    if b == [] {
      assert a + b == a;
    } else {
      assert Front(a + b) == a + Front(b);
      CountGrows(a, Front(b), pk);
    }
  }

  lemma AmongPrefix(h: seq<Event>, more: seq<Event>, i: int, n: nat, pk: Pubkey, token: string)
    requires Among(h + more, i, n, pk, token) && i < |h|
    ensures Among(h, i, n, pk, token)
  {
    var all := h + more;
    assert forall j :: 0 <= j < |h| ==> all[j] == h[j];
    assert all[i + 1..] == h[i + 1..] + more;
    CountGrows(h[i + 1..], more, pk);
  }

  /** Once dead, a bearer never becomes live again, whatever happens afterwards. */
  lemma DeadStaysDead(h: seq<Event>, more: seq<Event>, token: string)
    requires Valid(h + more) && Fresh(h + more)
    requires token in Drawn(h)
    ensures Valid(h)
    ensures token !in Run(h).byToken ==> token !in Run(h + more).byToken
  {
    PrefixValid(h, more);
    var all := h + more;
    assert Fresh(h) by {
      assert forall j :: 0 <= j < |h| ==> all[j] == h[j];
    }
    if token in Run(all).byToken {
      var pk := Run(all).byToken[token];
      LiveIffRecent(all, token, pk);
      var i :| Among(all, i, DEVICE_CAP, pk, token);
      var e :| e in h && e.Enrol? && e.entry.sessionToken == token;
      var k :| 0 <= k < |h| && h[k] == e;
      assert all[k] == e && all[i].Enrol? && i == k;
      AmongPrefix(h, more, i, DEVICE_CAP, pk, token);
      LiveIffRecent(h, token, pk);
    }
  }

  lemma RepeatedTokenStates(x: MemberEntry, y: MemberEntry)
    requires x.clientPubkey != y.clientPubkey && x.sessionToken == y.sessionToken
    ensures var s2 := Inserted(Inserted(EMPTY, x), y);
            && x.clientPubkey in s2.byPubkey && s2.byPubkey[x.clientPubkey].memberHash == x.memberHash
            && var s3 := Forgotten(s2, x.clientPubkey);
            && x.sessionToken in Sessions(s3, y.clientPubkey) && x.sessionToken !in s3.byToken && !IndexComplete(s3)
  {
    var s1 := Inserted(EMPTY, x);
    var s2 := Inserted(s1, y);
    InsertedParts(EMPTY, x);
    InsertedParts(s1, y);
    ForgottenParts(s2, x.clientPubkey);
    assert Newest([] + [x.sessionToken], DEVICE_CAP) == [x.sessionToken];
  }

  lemma RunThree(e0: Event, e1: Event, e2: Event)
    requires Allowed(EMPTY, e0) && Allowed(Step(EMPTY, e0), e1) && Allowed(Step(Step(EMPTY, e0), e1), e2)
    ensures Outcome([e0, e1, e2]) == Some(Step(Step(Step(EMPTY, e0), e1), e2))
  {
    hide Step, Allowed;
    assert Front([e0, e1, e2]) == [e0, e1] && Front([e0, e1]) == [e0] && Front([e0]) == [];
    assert Outcome([e0]) == Some(Step(EMPTY, e0));
    assert Outcome([e0, e1]) == Some(Step(Step(EMPTY, e0), e1));
  }

  /** With repeated tokens the index and the queues can part: a bearer minted for two pubkeys is
      lost to both when the first one is revoked. */
  lemma RepeatedTokenBreaksIndex(a: Pubkey, b: Pubkey, ha: MemberHash, hb: MemberHash, tx: string, token: string)
    requires a != b && ha != hb
    ensures var x, y := MemberEntry(a, ha, token, tx), MemberEntry(b, hb, token, tx);
            var h := [Enrol(x), Enrol(y), Revoke(ha, Some(a))];
            && Valid(h) && !Fresh(h)
            && token in Sessions(Run(h), b) && token !in Run(h).byToken && !IndexComplete(Run(h))
  {
    var e0, e1, e2 := Enrol(MemberEntry(a, ha, token, tx)), Enrol(MemberEntry(b, hb, token, tx)), Revoke(ha, Some(a));
    RepeatedTokenStates(e0.entry, e1.entry);
    hide Inserted, Forgotten, IndexComplete, Sessions;
    RunThree(e0, e1, e2);
    assert [e0, e1, e2][0].entry.sessionToken == [e0, e1, e2][1].entry.sessionToken;
  }
}
