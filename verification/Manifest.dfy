/** Cohort membership by case-insensitive hex text (src/manifest.rs:9-37, src/enroll.rs:93-99). */
module Manifest {
  import opened Bits
  import Hex

  datatype Entry = Entry(pubkey: string, hash: string)

  /** The handshake gate. */
  predicate ContainsPubkey(members: seq<Entry>, point: seq<Byte>) {
    var hex := Hex.Encode(point);
    exists m :: m in members && Hex.EqIgnoreAsciiCase(m.pubkey, hex)
  }

  /** The pair match of /enroll. */
  predicate ContainsPair(members: seq<Entry>, point: seq<Byte>, hash: seq<Byte>) {
    var (pkHex, mhHex) := (Hex.Encode(point), Hex.Encode(hash));
    exists m :: m in members && Hex.EqIgnoreAsciiCase(m.pubkey, pkHex) && Hex.EqIgnoreAsciiCase(m.hash, mhHex)
  }

  /** The (pubkey, hash) pairs the entries denote, as bytes; undecodable entries denote nothing. */
  function Pairs(members: seq<Entry>): (r: set<(seq<Byte>, seq<Byte>)>) {
    set m | m in members && Hex.Decode(m.pubkey).Some? && Hex.Decode(m.hash).Some?
      :: (Hex.Decode(m.pubkey).value, Hex.Decode(m.hash).value)
  }

  function Pubkeys(members: seq<Entry>): (r: set<seq<Byte>>) {
    set m | m in members && Hex.Decode(m.pubkey).Some? :: Hex.Decode(m.pubkey).value
  }

  /** Text membership is byte membership. */
  lemma ContainsPubkeyIff(members: seq<Entry>, point: seq<Byte>)
    ensures ContainsPubkey(members, point) <==> point in Pubkeys(members)
  {
    hide Hex.Encode, Hex.Decode, Hex.EqIgnoreAsciiCase;
    forall m | m in members
      ensures Hex.EqIgnoreAsciiCase(m.pubkey, Hex.Encode(point)) <==> Hex.Decode(m.pubkey) == Some(point)
    {
      Hex.MatchIffDecodes(m.pubkey, point);
    }
  }

  lemma ContainsPairIff(members: seq<Entry>, point: seq<Byte>, hash: seq<Byte>)
    ensures ContainsPair(members, point, hash) <==> (point, hash) in Pairs(members)
  {
    hide Hex.Encode, Hex.Decode, Hex.EqIgnoreAsciiCase;
    forall m | m in members
      ensures Hex.EqIgnoreAsciiCase(m.pubkey, Hex.Encode(point)) <==> Hex.Decode(m.pubkey) == Some(point)
      ensures Hex.EqIgnoreAsciiCase(m.hash, Hex.Encode(hash)) <==> Hex.Decode(m.hash) == Some(hash)
    {
      Hex.MatchIffDecodes(m.pubkey, point);
      Hex.MatchIffDecodes(m.hash, hash);
    }
  }

  /** Whoever passes the pair match of /enroll also passes the handshake. */
  lemma PairImpliesHandshake(members: seq<Entry>, point: seq<Byte>, hash: seq<Byte>)
    requires ContainsPair(members, point, hash)
    ensures ContainsPubkey(members, point)
  {
  }
}
