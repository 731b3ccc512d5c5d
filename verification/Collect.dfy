/** Decoding a list of texts: all of them, or nothing. */
module Collect {
  import opened Bits

  function DecodeAll(f: string -> Option<seq<Byte>>, ss: seq<string>): (r: Option<seq<seq<Byte>>>)
    ensures r.Some? ==> |r.value| == |ss|
    ensures r.Some? <==> forall i :: 0 <= i < |ss| ==> f(ss[i]).Some?
    ensures r.Some? ==> forall i :: 0 <= i < |ss| ==> f(ss[i]) == Some(r.value[i])
  {
    if ss == [] then Some([])
    else
      match (DecodeAll(f, ss[..|ss| - 1]), f(ss[|ss| - 1]))
      case (Some(front), Some(x)) => Some(front + [x])
      case _ => None
  }

  lemma {:induction false} DecodeAllNone(f: string -> Option<seq<Byte>>, ss: seq<string>, k: nat)
    requires k <= |ss| && DecodeAll(f, ss[..k]).None?
    ensures DecodeAll(f, ss).None?
    decreases |ss|
  {
    if k < |ss| {
      assert ss[..|ss| - 1][..k] == ss[..k];
      DecodeAllNone(f, ss[..|ss| - 1], k);
    } else {
      assert ss[..k] == ss;
    }
  }

  lemma {:induction false} DecodeAllSame(f: string -> Option<seq<Byte>>, a: seq<string>, b: seq<string>)
    requires |a| == |b| && forall i :: 0 <= i < |a| ==> f(a[i]) == f(b[i])
    ensures DecodeAll(f, a) == DecodeAll(f, b)
  {
    if a != [] {
      DecodeAllSame(f, a[..|a| - 1], b[..|b| - 1]);
    }
  }
}
