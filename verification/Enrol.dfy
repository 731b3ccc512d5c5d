/** The decision sequence of POST /enroll (src/enroll.rs:55-116). Credential verification, UTF-8 and
    SHA-256 are arbitrary functions; lower-casing is Unicode's. */
module Enrol {
  import opened Bits
  import opened Store
  import opened History
  import Base64
  import Hex
  import Identity
  import Manifest
  import Sha1
  import Uuid

  datatype Transaction = Transaction(originalTransactionId: string, appAccountToken: Option<string>)

  datatype Anchors = Anchors(
    verifyJwt: string -> Option<seq<Byte>>,
    verifyJws: string -> Option<Transaction>,
    utf8: string -> seq<Byte>,
    lowercase: char -> string,
    sha256: seq<Byte> -> MemberHash,
    namespace: seq<Byte>,
    manifest: seq<Manifest.Entry>)

  datatype Response = NoCertificate | BadJwt | BadJws | AccountMismatch | NotInManifest | Minted(token: string)

  function MemberHashOf(a: Anchors, sub: seq<Byte>, tx: Transaction): (h: MemberHash) {
    a.sha256(sub + a.utf8(tx.originalTransactionId))
  }

  /** The sixteen bytes the account token must denote. */
  function AccountBytes(a: Anchors, sub: seq<Byte>): (r: seq<Byte>)
    ensures |r| == 16
  {
    Uuid.Stamp(Sha1.Hash(a.namespace + sub)[..16])
  }

  /** The account token, hyphens and case aside, is hex for those bytes. */
  predicate AccountMatches(a: Anchors, sub: seq<Byte>, tx: Transaction) {
    && tx.appAccountToken.Some?
    && Hex.Decode(Uuid.WithoutHyphens(tx.appAccountToken.value)) == Some(AccountBytes(a, sub))
  }

  /** Everything an enrol has to prove, in terms of bytes rather than of the texts compared. */
  predicate Eligible(a: Anchors, client: Option<Pubkey>, jwt: string, jws: string) {
    && client.Some? && a.verifyJwt(jwt).Some? && a.verifyJws(jws).Some?
    && var (sub, tx) := (a.verifyJwt(jwt).value, a.verifyJws(jws).value);
    && AccountMatches(a, sub, tx)
    && (client.value, MemberHashOf(a, sub, tx)) in Manifest.Pairs(a.manifest)
  }

  method InManifest(members: seq<Manifest.Entry>, point: seq<Byte>, hash: seq<Byte>) returns (found: bool)
    ensures found <==> (point, hash) in Manifest.Pairs(members)
  {
    hide Hex.Encode, Hex.EqIgnoreAsciiCase, Manifest.Pairs;
    Manifest.ContainsPairIff(members, point, hash);
    var pkHex := Hex.HexEncode(point);
    var mhHex := Hex.HexEncode(hash);
    found := false;
    for i := 0 to |members|
      invariant !found
      invariant forall k :: 0 <= k < i ==>
        !(Hex.EqIgnoreAsciiCase(members[k].pubkey, pkHex) && Hex.EqIgnoreAsciiCase(members[k].hash, mhHex))
    {
      if Hex.EqIgnoreAsciiCase(members[i].pubkey, pkHex) && Hex.EqIgnoreAsciiCase(members[i].hash, mhHex) {
        found := true;
        assert members[i] in members;
        return;
      }
    }
  }

  /** Eligibility, test by test: a client certificate, both credentials verified, an account token that is
      hex for the stamped SHA-1 of namespace and sub, and the client paired in the manifest with the hash of
      sub followed by the transaction id. */
  lemma EligibleIff(a: Anchors, client: Option<Pubkey>, jwt: string, jws: string)
    ensures Eligible(a, client, jwt, jws) <==>
            && client.Some? && a.verifyJwt(jwt).Some? && a.verifyJws(jws).Some?
            && var (sub, tx) := (a.verifyJwt(jwt).value, a.verifyJws(jws).value);
            && tx.appAccountToken.Some?
            && Hex.Decode(Uuid.WithoutHyphens(tx.appAccountToken.value))
               == Some(Uuid.Stamp(Sha1.Hash(a.namespace + sub)[..16]))
            && (client.value, a.sha256(sub + a.utf8(tx.originalTransactionId))) in Manifest.Pairs(a.manifest)
  {
    hide Hex.Decode, Uuid.WithoutHyphens, Uuid.Stamp, Sha1.Hash, Manifest.Pairs;
  }

  lemma InsertedMember(s: Inner, e: MemberEntry)
    ensures var r := Inserted(s, e);
            && e.clientPubkey in r.byPubkey && r.byPubkey[e.clientPubkey].memberHash == e.memberHash
            && e.sessionToken in r.byToken && r.byToken[e.sessionToken] == e.clientPubkey
  {
    hide Newest, Overflow;
  }

  /** A bearer is minted exactly for eligible requests and recorded under the client's pubkey with the hash
      the manifest lists; any other request leaves the store alone, and each refusal has its condition. */
  method Handle(store: MemberStore, a: Anchors, client: Option<Pubkey>, jwt: string, jws: string, random: seq<Byte>)
    returns (resp: Response)
    requires |a.namespace| == 16 && Uuid.Lowercases(a.lowercase)
    modifies store
    ensures resp == NoCertificate <==> client.None?
    ensures resp == BadJwt <==> client.Some? && a.verifyJwt(jwt).None?
    ensures resp == BadJws <==> client.Some? && a.verifyJwt(jwt).Some? && a.verifyJws(jws).None?
    ensures client.Some? && a.verifyJwt(jwt).Some? && a.verifyJws(jws).Some? ==>
      var (sub, tx) := (a.verifyJwt(jwt).value, a.verifyJws(jws).value);
      resp == AccountMismatch <==>
        || tx.appAccountToken.None?
        || Hex.Decode(Uuid.WithoutHyphens(tx.appAccountToken.value))
           != Some(Uuid.Stamp(Sha1.Hash(a.namespace + sub)[..16]))
    ensures client.Some? && a.verifyJwt(jwt).Some? && a.verifyJws(jws).Some? && resp != AccountMismatch ==>
      var (sub, tx) := (a.verifyJwt(jwt).value, a.verifyJws(jws).value);
      var hash := a.sha256(sub + a.utf8(tx.originalTransactionId));
      && (resp == NotInManifest <==> (client.value, hash) !in Manifest.Pairs(a.manifest))
      && (resp != NotInManifest ==>
            && resp == Minted(Base64.UrlEncode(random))
            && store.View() == Inserted(old(store.View()),
                                        MemberEntry(client.value, hash, resp.token, tx.originalTransactionId))
            && client.value in store.byPubkey && store.byPubkey[client.value].memberHash == hash
            && resp.token in store.byToken && store.byToken[resp.token] == client.value)
    ensures !resp.Minted? ==> store.View() == old(store.View())
    ensures resp.Minted? <==> Eligible(a, client, jwt, jws)
  {
    hide Hex.Decode, Sha1.Hash, Uuid.Stamp, Uuid.Format, Uuid.UuidEq, Uuid.WithoutHyphens, Manifest.Pairs,
         Base64.UrlEncode, Inserted;
    if client.None? {
      return NoCertificate;
    }
    var claims := a.verifyJwt(jwt);
    if claims.None? {
      return BadJwt;
    }
    var sub := claims.value;
    var verified := a.verifyJws(jws);
    if verified.None? {
      return BadJws;
    }
    var tx := verified.value;
    var expected := Uuid.UuidV5(a.namespace, sub);
    if tx.appAccountToken.None? {
      return AccountMismatch;
    }
    Uuid.UuidEqIff(a.lowercase, AccountBytes(a, sub), tx.appAccountToken.value);
    if !Uuid.UuidEq(a.lowercase, expected, tx.appAccountToken.value) {
      return AccountMismatch;
    }
    var memberHash := a.sha256(sub + a.utf8(tx.originalTransactionId));
    var listed := InManifest(a.manifest, client.value, memberHash);
    if !listed {
      return NotInManifest;
    }
    var token := Base64.B64UrlNoPad(random);
    var ok := store.Insert(MemberEntry(client.value, memberHash, token, tx.originalTransactionId));
    InsertedMember(old(store.View()), MemberEntry(client.value, memberHash, token, tx.originalTransactionId));
    resp := Minted(token);
  }

  /** A minted entry is a pair of the manifest, so histories of this handler are paired. */
  lemma MintedStaysPaired(a: Anchors, client: Pubkey, jwt: string, jws: string, token: string, h: seq<Event>)
    requires Eligible(a, Some(client), jwt, jws) && Identity.Paired(h, Manifest.Pairs(a.manifest))
    ensures var (sub, tx) := (a.verifyJwt(jwt).value, a.verifyJws(jws).value);
            var hash := a.sha256(sub + a.utf8(tx.originalTransactionId));
            Identity.Paired(h + [Enrol(MemberEntry(client, hash, token, tx.originalTransactionId))],
                            Manifest.Pairs(a.manifest))
  {
    hide Manifest.Pairs, AccountMatches;
    var (sub, tx) := (a.verifyJwt(jwt).value, a.verifyJws(jws).value);
    var hash := a.sha256(sub + a.utf8(tx.originalTransactionId));
    var e := Enrol(MemberEntry(client, hash, token, tx.originalTransactionId));
    assert forall x :: x in h + [e] ==> x in h || x == e;
  }

  /** Draws that never repeat give tokens that never repeat: the encoding is injective. */
  lemma FreshDrawsFreshTokens(h: seq<Event>, draws: seq<seq<Byte>>)
    requires |draws| == |h|
    requires forall i :: 0 <= i < |h| && h[i].Enrol? ==> h[i].entry.sessionToken == Base64.UrlEncode(draws[i])
    requires forall i, j :: 0 <= i < j < |h| && h[i].Enrol? && h[j].Enrol? ==> draws[i] != draws[j]
    ensures Fresh(h)
  {
    hide Base64.UrlEncode;
    forall i, j | 0 <= i < j < |h| && h[i].Enrol? && h[j].Enrol?
      ensures h[i].entry.sessionToken != h[j].entry.sessionToken
    {
      Base64.EncodeInjective(draws[i], draws[j]);
    }
  }

  /** An eligible enrol came from a pubkey that passes the handshake gate. */
  lemma EligiblePassesHandshake(a: Anchors, client: Pubkey, jwt: string, jws: string)
    requires Eligible(a, Some(client), jwt, jws)
    ensures Manifest.ContainsPubkey(a.manifest, client)
  {
    hide Manifest.Pairs, Hex.Decode, Uuid.WithoutHyphens, Manifest.ContainsPair, Manifest.ContainsPubkey;
    var hash := MemberHashOf(a, a.verifyJwt(jwt).value, a.verifyJws(jws).value);
    Manifest.ContainsPairIff(a.manifest, client, hash);
    Manifest.PairImpliesHandshake(a.manifest, client, hash);
  }

  /** With every pubkey admitted by the handshake gate, the store is bounded by the manifest. */
  lemma GatedStoreBounded(h: seq<Event>, members: seq<Manifest.Entry>)
    requires Valid(h)
    requires forall e :: e in h ==>
      && (e.Enrol? ==> Manifest.ContainsPubkey(members, e.entry.clientPubkey))
      && (e.Attest? ==> Manifest.ContainsPubkey(members, e.pubkey))
    ensures var n := |Manifest.Pubkeys(members)|;
            |Run(h).byPubkey| <= n && |Run(h).attestBuckets| <= n && |Run(h).byToken| <= 3 * n
  {
    hide Manifest.ContainsPubkey, Manifest.Pubkeys, Outcome;
    var cohort := Manifest.Pubkeys(members);
    forall e | e in h
      ensures (e.Enrol? ==> e.entry.clientPubkey in cohort) && (e.Attest? ==> e.pubkey in cohort)
    {
      if e.Enrol? {
        Manifest.ContainsPubkeyIff(members, e.entry.clientPubkey);
      } else if e.Attest? {
        Manifest.ContainsPubkeyIff(members, e.pubkey);
      }
    }
    Identity.StoreBounded(h, cohort);
  }
}
