/** The x5c chain walk of src/enroll.rs:128-177 against the one-pass path validation of section 6.1 of
    RFC 5280. A chain lists the leaf first and the pinned root last. Parsing, hashing and signature
    verification are arbitrary functions. */
module ChainCheck {
  import opened Bits
  import opened Collect
  import Base64

  datatype BasicConstraints = NoBasic | BadBasic | Basic(ca: bool, pathLen: Option<nat>)

  datatype KeyUsage = NoUsage | BadUsage | Usage(certSign: bool)

  datatype Cert = Cert(der: seq<Byte>, inWindow: bool, basic: BasicConstraints, usage: KeyUsage, selfIssued: bool)

  // ---------- The code ----------

  predicate IsCa(c: Cert) {
    c.basic.Basic? && c.basic.ca
  }

  function PathLen(c: Cert): (r: Option<nat>) {
    if c.basic.Basic? then c.basic.pathLen else None
  }

  /** The depth test: every certificate below an issuer except the leaf counts. */
  predicate DepthOk(c: Cert, depth: nat)
    requires depth > 0
  {
    PathLen(c).Some? ==> depth - 1 <= PathLen(c).value
  }

  predicate CertOk(c: Cert, depth: nat) {
    c.inWindow && (depth > 0 ==> IsCa(c) && DepthOk(c, depth) && (c.usage.Usage? ==> c.usage.certSign))
  }

  /** What certificates are judged with: the pinned hash of the root, the hash, the parser, and whether
      one certificate is signed by the key of another. */
  datatype Trust = Trust(
    rootHash: Hash32,
    sha256: seq<Byte> -> Hash32,
    parse: seq<Byte> -> Option<Cert>,
    signedBy: (Cert, Cert) -> bool)

  predicate Pinned(t: Trust, chain: seq<Cert>) {
    2 <= |chain| <= 5 && t.sha256(chain[|chain| - 1].der) == t.rootHash
  }

  /** The signature pass, then the constraint pass. */
  predicate Accepted(t: Trust, chain: seq<Cert>) {
    && Pinned(t, chain)
    && (forall i :: 0 <= i < |chain| - 1 ==> t.signedBy(chain[i], chain[i + 1]))
    && (forall d :: 0 <= d < |chain| ==> CertOk(chain[d], d))
  }

  function ParseAll(t: Trust, ders: seq<seq<Byte>>): (r: Option<seq<Cert>>)
    ensures r.Some? ==> |r.value| == |ders|
    ensures r.Some? <==> forall i :: 0 <= i < |ders| ==> t.parse(ders[i]).Some?
    ensures r.Some? ==> forall i :: 0 <= i < |ders| ==> r.value[i] == t.parse(ders[i]).value.(der := ders[i])
  {
    if ders == [] then Some([])
    else
      match (ParseAll(t, ders[..|ders| - 1]), t.parse(ders[|ders| - 1]))
      case (Some(front), Some(c)) => Some(front + [c.(der := ders[|ders| - 1])])
      case _ => None
  }

  /** The certificates an x5c header denotes. */
  function Certificates(t: Trust, x5c: seq<string>): (r: Option<seq<Cert>>) {
    match DecodeAll(Base64.Decode, x5c) case None => None case Some(ders) => ParseAll(t, ders)
  }

  /** The verdict on an x5c header. */
  predicate HeaderAccepted(t: Trust, x5c: seq<string>) {
    var chain := Certificates(t, x5c);
    chain.Some? && Accepted(t, chain.value)
  }

  predicate PathAccepted(chain: seq<Cert>) {
    forall d :: 1 <= d < |chain| ==> DepthOk(chain[d], d)
  }

  // ---------- Section 6.1 of RFC 5280 ----------

  /** Step (l) applies to intermediates that are not self-issued; the root is the trust anchor. */
  predicate Counts(chain: seq<Cert>, d: nat)
    requires d < |chain|
  {
    0 < d < |chain| - 1 && !chain[d].selfIssued
  }

  function Lower(max: int, limit: Option<nat>): (r: int) {
    if limit.Some? && limit.value < max then limit.value else max
  }

  /** Steps (l) and (m), from depth d down to the leaf, with max_path_length on entry. */
  predicate Walk(chain: seq<Cert>, d: nat, max: int)
    requires d < |chain|
  {
    d == 0 ||
    var left := if Counts(chain, d) then max - 1 else max;
    (Counts(chain, d) ==> max > 0) && Walk(chain, d - 1, Lower(left, PathLen(chain[d])))
  }

  predicate RfcPathAccepted(chain: seq<Cert>)
    requires chain != []
  {
    Walk(chain, |chain| - 1, |chain|)
  }

  /** Steps (k) and (n): the certificate may sign others. */
  predicate MaySign(c: Cert) {
    IsCa(c) && !c.usage.BadUsage? && (c.usage.Usage? ==> c.usage.certSign)
  }

  /** One pass from depth d down to the leaf: the signature and validity checks of section 6.1.3 on each
      certificate, and on each issuer the preparation of the next of section 6.1.4. */
  predicate Validates(t: Trust, chain: seq<Cert>, d: nat, max: int)
    requires d < |chain|
  {
    && chain[d].inWindow && (d + 1 < |chain| ==> t.signedBy(chain[d], chain[d + 1]))
    && (d == 0 ||
        var left := if Counts(chain, d) then max - 1 else max;
        && MaySign(chain[d]) && (Counts(chain, d) ==> max > 0)
        && Validates(t, chain, d - 1, Lower(left, PathLen(chain[d]))))
  }

  predicate RfcAccepted(t: Trust, chain: seq<Cert>) {
    Pinned(t, chain) && Validates(t, chain, |chain| - 1, |chain|)
  }

  // ---------- What the counter decides ----------

  /** Certificates at depths 1..d that step (l) charges. */
  function Charged(chain: seq<Cert>, d: nat): (n: nat)
    requires d < |chain|
    ensures n <= d && (|chain| >= 2 && d == |chain| - 1 ==> n <= d - 1)
  {
    if d == 0 then 0 else Charged(chain, d - 1) + if Counts(chain, d) then 1 else 0
  }

  predicate RoomBelow(chain: seq<Cert>, d: nat)
    requires 1 <= d < |chain|
  {
    PathLen(chain[d]).Some? ==> Charged(chain, d - 1) <= PathLen(chain[d]).value
  }

  lemma {:induction false} WalkIff(chain: seq<Cert>, d: nat, max: int)
    requires d < |chain| && max >= 0
    ensures Walk(chain, d, max) <==>
            Charged(chain, d) <= max && forall k :: 1 <= k <= d ==> RoomBelow(chain, k)
  {
    if d > 0 {
      var left := if Counts(chain, d) then max - 1 else max;
      if left >= 0 {
        WalkIff(chain, d - 1, Lower(left, PathLen(chain[d])));
        assert Charged(chain, d - 1) <= Lower(left, PathLen(chain[d]))
          <==> Charged(chain, d) <= max && RoomBelow(chain, d);
      }
    }
  }

  /** The running counter accepts exactly when each constraint has room for the certificates below
      it that are charged. */
  lemma RfcPathIff(chain: seq<Cert>)
    requires chain != []
    ensures RfcPathAccepted(chain) <==> forall d :: 1 <= d < |chain| ==> RoomBelow(chain, d)
  {
    WalkIff(chain, |chain| - 1, |chain|);
  }

  ghost predicate NoneSelfIssued(chain: seq<Cert>) {
    forall d :: 0 < d < |chain| - 1 ==> !chain[d].selfIssued
  }

  lemma {:induction false} ChargedAll(chain: seq<Cert>, d: nat)
    requires d + 1 < |chain|
    ensures NoneSelfIssued(chain) ==> Charged(chain, d) == d
    ensures (exists k :: 0 < k <= d && chain[k].selfIssued) ==> Charged(chain, d) < d
  {
    if d > 0 {
      ChargedAll(chain, d - 1);
      if exists k :: 0 < k <= d && chain[k].selfIssued {
        var k :| 0 < k <= d && chain[k].selfIssued;
        assert k == d || exists i :: 0 < i <= d - 1 && chain[i].selfIssued;
      }
    }
  }

  /** The depth test accepts nothing the counter rejects. */
  lemma NeverMorePermissive(chain: seq<Cert>)
    requires chain != [] && PathAccepted(chain)
    ensures RfcPathAccepted(chain)
  {
    RfcPathIff(chain);
    forall d | 1 <= d < |chain|
      ensures RoomBelow(chain, d)
    {
      assert DepthOk(chain[d], d);
    }
  }

  /** With no self-issued intermediate the two verdicts are the same. */
  lemma PathVerdictsAgree(chain: seq<Cert>)
    requires chain != [] && NoneSelfIssued(chain)
    ensures PathAccepted(chain) <==> RfcPathAccepted(chain)
  {
    RfcPathIff(chain);
    forall d | 1 <= d < |chain|
      ensures RoomBelow(chain, d) <==> DepthOk(chain[d], d)
    {
      ChargedAll(chain, d - 1);
    }
  }

  /** The same chain with other path-length constraints. */
  function WithLimits(chain: seq<Cert>, limits: seq<Option<nat>>): (r: seq<Cert>)
    requires |limits| == |chain|
    ensures |r| == |chain|
  {
    seq(|chain|, d requires 0 <= d < |chain| => chain[d].(basic := Basic(true, limits[d])))
  }

  ghost predicate AgreeForAllLimits(chain: seq<Cert>)
    requires chain != []
  {
    forall limits :: |limits| == |chain| ==>
      (PathAccepted(WithLimits(chain, limits)) <==> RfcPathAccepted(WithLimits(chain, limits)))
  }

  lemma {:induction false} LimitsKeepCharges(chain: seq<Cert>, limits: seq<Option<nat>>, d: nat)
    requires |limits| == |chain| && d < |chain|
    ensures Charged(WithLimits(chain, limits), d) == Charged(chain, d)
  {
    if d > 0 {
      LimitsKeepCharges(chain, limits, d - 1);
    }
  }

  /** A root constraint one short of the number of intermediates separates the two. */
  lemma RootLimit(chain: seq<Cert>) returns (limits: seq<Option<nat>>)
    requires chain != [] && !NoneSelfIssued(chain)
    ensures |limits| == |chain|
    ensures !PathAccepted(WithLimits(chain, limits)) && RfcPathAccepted(WithLimits(chain, limits))
  {
    var n := |chain| - 1;
    limits := seq(n + 1, d => if d == n then Some((n - 2) as nat) else None) by {
      assert n >= 2;
    }
    var c := WithLimits(chain, limits);
    assert !DepthOk(c[n], n);
    ChargedAll(chain, n - 1);
    LimitsKeepCharges(chain, limits, n - 1);
    RfcPathIff(c);
  }

  /** Self-issued intermediates are the only source of disagreement: the verdicts agree under every
      choice of constraints if and only if there is none. */
  lemma AgreeIffNoneSelfIssued(chain: seq<Cert>)
    requires chain != []
    ensures AgreeForAllLimits(chain) <==> NoneSelfIssued(chain)
  {
    if NoneSelfIssued(chain) {
      forall limits | |limits| == |chain|
        ensures PathAccepted(WithLimits(chain, limits)) <==> RfcPathAccepted(WithLimits(chain, limits))
      {
        var c := WithLimits(chain, limits);
        assert forall d :: 0 < d < |chain| - 1 ==> c[d].selfIssued == chain[d].selfIssued;
        PathVerdictsAgree(c);
      }
    } else {
      var limits := RootLimit(chain);
      assert PathAccepted(WithLimits(chain, limits)) != RfcPathAccepted(WithLimits(chain, limits));
    }
  }

  // ---------- The whole walk ----------

  /** The verdict of the code, test by test. */
  lemma AcceptedIff(t: Trust, chain: seq<Cert>)
    ensures Accepted(t, chain) <==>
            && 2 <= |chain| <= 5 && t.sha256(chain[|chain| - 1].der) == t.rootHash
            && (forall i :: 0 <= i < |chain| - 1 ==> t.signedBy(chain[i], chain[i + 1]))
            && (forall i :: 0 <= i < |chain| ==> chain[i].inWindow)
            && (forall i :: 1 <= i < |chain| ==>
                  && chain[i].basic.Basic? && chain[i].basic.ca && chain[i].usage != Usage(false)
                  && (chain[i].basic.pathLen.Some? ==> i - 1 <= chain[i].basic.pathLen.value))
  {
  }

  /** Intermediates below depth d that are not self-issued. */
  function Issuers(chain: seq<Cert>, d: nat): (r: set<int>)
    requires d <= |chain|
  {
    set k | 0 < k < d && !chain[k].selfIssued
  }

  lemma {:induction false} ChargedIsCount(chain: seq<Cert>, d: nat)
    requires 0 < d < |chain|
    ensures Charged(chain, d - 1) == |Issuers(chain, d)|
  {
    if d == 1 {
      assert Issuers(chain, 1) == {};
    } else {
      ChargedIsCount(chain, d - 1);
      if chain[d - 1].selfIssued {
        assert Issuers(chain, d) == Issuers(chain, d - 1);
      } else {
        assert Issuers(chain, d) == Issuers(chain, d - 1) + {d - 1};
      }
    }
  }

  predicate SignedBelow(t: Trust, chain: seq<Cert>, d: nat)
    requires d < |chain|
  {
    forall k :: 0 <= k <= d && k + 1 < |chain| ==> t.signedBy(chain[k], chain[k + 1])
  }

  predicate FitBelow(chain: seq<Cert>, d: nat)
    requires d < |chain|
  {
    forall k :: 0 <= k <= d ==> chain[k].inWindow && (k > 0 ==> MaySign(chain[k]))
  }

  /** The single pass is the counter together with every per-certificate test. */
  lemma {:induction false} ValidatesIff(t: Trust, chain: seq<Cert>, d: nat, max: int)
    requires d < |chain|
    ensures Validates(t, chain, d, max) <==>
            SignedBelow(t, chain, d) && FitBelow(chain, d) && Walk(chain, d, max)
  {
    hide MaySign;
    if d > 0 {
      var left := if Counts(chain, d) then max - 1 else max;
      ValidatesIff(t, chain, d - 1, Lower(left, PathLen(chain[d])));
      assert SignedBelow(t, chain, d) <==>
        SignedBelow(t, chain, d - 1) && (d + 1 < |chain| ==> t.signedBy(chain[d], chain[d + 1]));
      assert FitBelow(chain, d) <==> FitBelow(chain, d - 1) && chain[d].inWindow && MaySign(chain[d]);
    }
  }

  ghost predicate Readable(chain: seq<Cert>) {
    forall d :: 1 <= d < |chain| ==> !chain[d].usage.BadUsage?
  }

  /** The code's separate passes are the pin, the signatures, the per-certificate tests and the depth
      test; only unreadable key usage passes where the standard's test fails. */
  lemma AcceptedParts(t: Trust, chain: seq<Cert>)
    requires Pinned(t, chain)
    ensures Accepted(t, chain) && Readable(chain) <==>
            SignedBelow(t, chain, |chain| - 1) && FitBelow(chain, |chain| - 1) && PathAccepted(chain)
  {
    forall d | 0 <= d < |chain|
      ensures CertOk(chain[d], d) && (d > 0 ==> !chain[d].usage.BadUsage?) <==>
              chain[d].inWindow && (d > 0 ==> MaySign(chain[d]) && DepthOk(chain[d], d))
    {
    }
    hide CertOk, MaySign, DepthOk, Pinned;
  }

  /** Chains with readable key usage and no self-issued intermediate are judged as the standard
      judges them, from the root pin to the leaf. */
  lemma VerdictsAgree(t: Trust, chain: seq<Cert>)
    requires NoneSelfIssued(chain) && Readable(chain)
    ensures Accepted(t, chain) <==> RfcAccepted(t, chain)
  {
    hide SignedBelow, FitBelow, PathAccepted, Walk;
    if Pinned(t, chain) {
      AcceptedParts(t, chain);
      ValidatesIff(t, chain, |chain| - 1, |chain|);
      PathVerdictsAgree(chain);
    }
  }

  /** The verdict of the standard, test by test: a path length limits the number of intermediates below
      that are not self-issued, and key usage must be readable. */
  lemma RfcAcceptedIff(t: Trust, chain: seq<Cert>)
    ensures RfcAccepted(t, chain) <==>
            && 2 <= |chain| <= 5 && t.sha256(chain[|chain| - 1].der) == t.rootHash
            && (forall i :: 0 <= i < |chain| - 1 ==> t.signedBy(chain[i], chain[i + 1]))
            && (forall i :: 0 <= i < |chain| ==> chain[i].inWindow)
            && (forall i :: 1 <= i < |chain| ==>
                  && chain[i].basic.Basic? && chain[i].basic.ca
                  && (chain[i].usage == NoUsage || chain[i].usage == Usage(true))
                  && (chain[i].basic.pathLen.Some? ==> |Issuers(chain, i)| <= chain[i].basic.pathLen.value))
  {
    if Pinned(t, chain) {
      ValidatesIff(t, chain, |chain| - 1, |chain|);
      RfcPathIff(chain);
      forall d | 1 <= d < |chain|
        ensures MaySign(chain[d]) && RoomBelow(chain, d) <==>
                && chain[d].basic.Basic? && chain[d].basic.ca
                && (chain[d].usage == NoUsage || chain[d].usage == Usage(true))
                && (chain[d].basic.pathLen.Some? ==> |Issuers(chain, d)| <= chain[d].basic.pathLen.value)
      {
        ChargedIsCount(chain, d);
      }
      hide Validates, Walk, Issuers, RoomBelow, MaySign;
      assert Walk(chain, |chain| - 1, |chain|) == RfcPathAccepted(chain);
    }
  }

  /** An accepted chain is acceptable to the standard exactly when every issuer's key usage can be
      read: the code treats unreadable key usage as absent. */
  lemma AcceptedChainIff(t: Trust, chain: seq<Cert>)
    requires Accepted(t, chain)
    ensures RfcAccepted(t, chain) <==> Readable(chain)
  {
    ValidatesIff(t, chain, |chain| - 1, |chain|);
    AcceptedParts(t, chain);
    if Readable(chain) {
      NeverMorePermissive(chain);
    } else {
      var d :| 1 <= d < |chain| && chain[d].usage.BadUsage?;
      assert !MaySign(chain[d]);
    }
  }

  /** The certificate an entry of a header denotes. */
  function CertOf(t: Trust, text: string): (c: Cert)
    requires Base64.Decode(text).Some? && t.parse(Base64.Decode(text).value).Some?
  {
    var der := Base64.Decode(text).value;
    t.parse(der).value.(der := der)
  }

  lemma CertificatesIff(t: Trust, x5c: seq<string>)
    ensures Certificates(t, x5c).Some? <==>
            forall i :: 0 <= i < |x5c| ==> Base64.Decode(x5c[i]).Some? && t.parse(Base64.Decode(x5c[i]).value).Some?
    ensures Certificates(t, x5c).Some? ==>
            && |Certificates(t, x5c).value| == |x5c|
            && forall i :: 0 <= i < |x5c| ==> Certificates(t, x5c).value[i] == CertOf(t, x5c[i])
  {
    hide Base64.Decode;
    var ders := DecodeAll(Base64.Decode, x5c);
    if ders.Some? {
      assert forall i :: 0 <= i < |x5c| ==> Base64.Decode(x5c[i]) == Some(ders.value[i]);
    }
  }

  /** What it takes for a header to be accepted, test by test: two to five entries that decode and parse,
      the pinned hash over the last, each signed by the next, all in their validity window, and every one
      but the first a CA within its path length whose readable key usage allows signing certificates. */
  lemma HeaderAcceptedIff(t: Trust, x5c: seq<string>)
    ensures HeaderAccepted(t, x5c) <==>
            && 2 <= |x5c| <= 5
            && (forall i :: 0 <= i < |x5c| ==>
                  Base64.Decode(x5c[i]).Some? && t.parse(Base64.Decode(x5c[i]).value).Some?)
            && t.sha256(Base64.Decode(x5c[|x5c| - 1]).value) == t.rootHash
            && (forall i :: 0 <= i < |x5c| - 1 ==> t.signedBy(CertOf(t, x5c[i]), CertOf(t, x5c[i + 1])))
            && (forall i :: 0 <= i < |x5c| ==> CertOf(t, x5c[i]).inWindow)
            && (forall i :: 1 <= i < |x5c| ==>
                  var c := CertOf(t, x5c[i]);
                  && c.basic.Basic? && c.basic.ca && c.usage != Usage(false)
                  && (c.basic.pathLen.Some? ==> i - 1 <= c.basic.pathLen.value))
  {
    CertificatesIff(t, x5c);
    hide Base64.Decode, Certificates;
    var chain := Certificates(t, x5c);
    if chain.Some? {
      assert forall i :: 0 <= i < |x5c| ==> chain.value[i] == CertOf(t, x5c[i]);
      AcceptedIff(t, chain.value);
      hide Accepted;
    }
  }

  /** The verdict on a header is the standard's verdict on the certificates it denotes. */
  lemma HeaderVerdict(t: Trust, x5c: seq<string>)
    ensures Certificates(t, x5c).None? ==> !HeaderAccepted(t, x5c)
    ensures Certificates(t, x5c).Some? ==>
      var chain := Certificates(t, x5c).value;
      && (NoneSelfIssued(chain) && Readable(chain) ==> (HeaderAccepted(t, x5c) <==> RfcAccepted(t, chain)))
      && (HeaderAccepted(t, x5c) && Readable(chain) ==> RfcAccepted(t, chain))
  {
    hide Accepted, RfcAccepted, NoneSelfIssued, Readable;
    var chain := Certificates(t, x5c);
    if chain.Some? {
      if NoneSelfIssued(chain.value) && Readable(chain.value) {
        VerdictsAgree(t, chain.value);
      }
      if Accepted(t, chain.value) {
        AcceptedChainIff(t, chain.value);
      }
    }
  }

  /** Certificates may be written in either alphabet: a header with the same symbols has the same
      verdict. */
  lemma HeaderAlphabets(t: Trust, x5c: seq<string>, other: seq<string>)
    requires |x5c| == |other|
    requires forall i :: 0 <= i < |x5c| ==>
      |x5c[i]| == |other[i]| && forall j :: 0 <= j < |x5c[i]| ==> Base64.SameSymbol(x5c[i][j], other[i][j])
    ensures HeaderAccepted(t, x5c) <==> HeaderAccepted(t, other)
  {
    hide Base64.Decode, Base64.SameSymbol;
    forall i | 0 <= i < |x5c|
      ensures Base64.Decode(x5c[i]) == Base64.Decode(other[i])
    {
      Base64.AlphabetsInterchange(x5c[i], other[i]);
    }
    DecodeAllSame(Base64.Decode, x5c, other);
  }

  /** A chain that is accepted only because unreadable key usage counts as absent. */
  lemma UnreadableUsageAccepted(t: Trust, leaf: Cert, root: Cert)
    requires leaf.inWindow && root.inWindow && root.basic == Basic(true, None) && root.usage == BadUsage
    requires t.sha256(root.der) == t.rootHash && t.signedBy(leaf, root)
    ensures Accepted(t, [leaf, root]) && !RfcAccepted(t, [leaf, root])
  {
    var chain := [leaf, root];
    assert chain[0] == leaf && chain[1] == root;
    AcceptedChainIff(t, chain);
  }
}
