/** The GPU report pipeline across the process boundary (src/attestation.rs:70-132, 186-264 and
    nix/gpu-report.py). The quote device, the board and its driver, the subprocess, and the JSON reader
    and library base64 decoder are arbitrary; each may fail at any call. */
module Attestation {
  import opened Bits
  import opened Store
  import opened Collect
  import Hex
  import Base64
  import Pem

  const EXPECTED_GPU_COUNT: nat := 8
  const NONCE_LEN: nat := 32
  const NVLE: int := 2
  type Answer = (seq<Byte>, seq<seq<Byte>>)

  /** One element of the JSON the script prints. */
  datatype Gpu = Gpu(report: string, certChain: seq<string>)

  /** What the script can observe: whether the driver library opens and closes, device count,
      confidential-computing state, multi-GPU mode, and per device the signed report for a nonce and
      the certificate bundle; and its library base64 decoder. None is a raised error. */
  datatype Board = Board(
    opens: bool,
    closes: bool,
    count: Option<nat>,
    ccFeature: Option<int>,
    multiGpuMode: Option<int>,
    report: (nat, seq<Byte>) -> Option<seq<Byte>>,
    certs: nat -> Option<string>,
    b64decode: string -> Option<seq<Byte>>)

  /** What the service depends on: the quote device, lossy UTF-8 decoding, whether the script can be
      started, the board it sees, whether its JSON is read back, and whether the blocking task
      survives. */
  datatype Host = Host(
    quote: seq<Byte> -> Option<seq<Byte>>,
    lossyText: seq<Byte> -> string,
    starts: bool,
    board: Board,
    understood: seq<Gpu> -> bool,
    joins: bool)

  // ---------- What the devices answered ----------

  /** The white space that Python's str.split removes. */
  predicate IsSpace(c: char) {
    var n := c as int;
    || 0x09 <= n <= 0x0d || 0x1c <= n <= 0x20 || n == 0x85 || n == 0xa0 || n == 0x1680
    || 0x2000 <= n <= 0x200a || n == 0x2028 || n == 0x2029 || n == 0x202f || n == 0x205f || n == 0x3000
  }

  function Squeezed(s: string): (r: string) {
    if s == [] then [] else Squeezed(s[..|s| - 1]) + if IsSpace(s[|s| - 1]) then [] else [s[|s| - 1]]
  }

  function SqueezeAll(bodies: seq<string>): (r: seq<string>)
    ensures |r| == |bodies|
  {
    seq(|bodies|, i requires 0 <= i < |bodies| => Squeezed(bodies[i]))
  }

  /** The certificates of a bundle, or None if one of its blocks does not decode. */
  function BundleDers(board: Board, text: string): (r: Option<seq<seq<Byte>>>) {
    DecodeAll(board.b64decode, SqueezeAll(Pem.Slices(text, Pem.IndexBlocks(Pem.PEM, text, 0))))
  }

  /** Device i's report and certificates for a nonce, unless an error is raised or one is empty. */
  function DeviceAnswer(board: Board, i: nat, nonce: seq<Byte>): (r: Option<Answer>) {
    match (board.report(i, nonce), board.certs(i))
    case (Some(raw), Some(bundle)) =>
      (match BundleDers(board, bundle)
       case Some(ders) => if raw == [] || ders == [] then None else Some((raw, ders))
       case None => None)
    case _ => None
  }

  /** The answers of devices 0 .. n - 1, each to its own nonce. */
  function Answers(board: Board, nonces: seq<seq<Byte>>, n: nat): (r: Option<seq<Answer>>)
    requires n <= |nonces|
    ensures r.Some? ==> |r.value| == n
    ensures r.Some? ==> forall i :: 0 <= i < n ==> DeviceAnswer(board, i, nonces[i]) == Some(r.value[i])
    ensures r.None? ==> exists i :: 0 <= i < n && DeviceAnswer(board, i, nonces[i]).None?
  {
    if n == 0 then Some([])
    else
      match (Answers(board, nonces, n - 1), DeviceAnswer(board, n - 1, nonces[n - 1]))
      case (Some(front), Some(x)) => Some(front + [x])
      case _ => None
  }

  /** At least one nonce is required, and the board must present exactly one device per nonce. */
  predicate BoardReady(board: Board, n: nat) {
    && 0 < n && board.opens && board.closes && board.count == Some(n)
    && board.ccFeature.Some? && board.ccFeature.value != 0 && board.multiGpuMode == Some(NVLE)
  }

  /** The whole board attested, or refused. */
  function BoardAnswers(board: Board, nonces: seq<seq<Byte>>): (r: Option<seq<Answer>>) {
    if BoardReady(board, |nonces|) then Answers(board, nonces, |nonces|) else None
  }

  // ---------- The script ----------

  function EncodeAll(ders: seq<seq<Byte>>): (r: seq<string>)
    ensures |r| == |ders|
  {
    seq(|ders|, i requires 0 <= i < |ders| => Base64.StdEncode(ders[i]))
  }

  function Printed(a: Answer): (g: Gpu) {
    Gpu(Base64.StdEncode(a.0), EncodeAll(a.1))
  }

  /** A --nonce-hex argument: hex for exactly NONCE_LEN bytes. */
  function NonceOf(arg: string): (r: Option<seq<Byte>>)
    ensures r.Some? ==> |r.value| == NONCE_LEN
  {
    var n := Hex.Decode(arg);
    if n.Some? && |n.value| == NONCE_LEN then n else None
  }

  method ParseNonces(args: seq<string>) returns (r: Option<seq<seq<Byte>>>)
    ensures r == DecodeAll(NonceOf, args)
  {
    hide Hex.Decode;
    var nonces: seq<seq<Byte>> := [];
    for k := 0 to |args|
      invariant DecodeAll(NonceOf, args[..k]) == Some(nonces)
    {
      assert args[..k + 1][..k] == args[..k];
      var n := Hex.HexDecode(args[k]);
      if n.None? || |n.value| != NONCE_LEN {
        DecodeAllNone(NonceOf, args, k + 1);
        return None;
      }
      nonces := nonces + [n.value];
    }
    assert args[..|args|] == args;
    return Some(nonces);
  }

  method Squeeze(s: string) returns (r: string)
    ensures r == Squeezed(s)
  {
    hide IsSpace;
    r := "";
    for k := 0 to |s|
      invariant r == Squeezed(s[..k])
    {
      assert s[..k + 1][..k] == s[..k];
      if !IsSpace(s[k]) {
        r := r + [s[k]];
      }
    }
    assert s[..|s|] == s;
  }

  lemma {:induction false} SlicesIndexed(text: string, blocks: seq<Pem.Block>)
    ensures |Pem.Slices(text, blocks)| == |blocks|
    ensures forall i :: 0 <= i < |blocks| ==> Pem.Slices(text, blocks)[i] == Pem.Slice(text, blocks[i])
  {
    hide Pem.Slice;
    if blocks != [] {
      SlicesIndexed(text, blocks[1..]);
    }
  }

  method DerCertsFromPem(board: Board, text: string) returns (r: Option<seq<string>>)
    ensures r == match BundleDers(board, text) case None => None case Some(ders) => Some(EncodeAll(ders))
  {
    hide Pem.IndexBlocks, Pem.Slice, Base64.StdEncode, Squeezed;
    var blocks := Pem.LocateByIndex(text);
    SlicesIndexed(text, blocks);
    ghost var bodies := SqueezeAll(Pem.Slices(text, blocks));
    var out: seq<string> := [];
    for k := 0 to |blocks|
      invariant DecodeAll(board.b64decode, bodies[..k]).Some?
      invariant out == EncodeAll(DecodeAll(board.b64decode, bodies[..k]).value)
    {
      assert bodies[..k + 1][..k] == bodies[..k];
      var squeezed := Squeeze(Pem.Slice(text, blocks[k]));
      var der := board.b64decode(squeezed);
      if der.None? {
        DecodeAllNone(board.b64decode, bodies, k + 1);
        return None;
      }
      out := out + [Base64.StdEncode(der.value)];
    }
    assert bodies[..|blocks|] == bodies;
    return Some(out);
  }

  function PrintedAll(answers: seq<Answer>): (r: seq<Gpu>)
    ensures |r| == |answers|
  {
    seq(|answers|, i requires 0 <= i < |answers| => Printed(answers[i]))
  }

  /** What the script prints for its arguments; None is a nonzero exit. */
  function Output(board: Board, args: seq<string>): (r: Option<seq<Gpu>>) {
    match DecodeAll(NonceOf, args)
    case None => None
    case Some(nonces) =>
      match BoardAnswers(board, nonces) case None => None case Some(a) => Some(PrintedAll(a))
  }

  lemma AnswersNone(board: Board, nonces: seq<seq<Byte>>, i: nat)
    requires i < |nonces| && DeviceAnswer(board, i, nonces[i]).None?
    ensures Answers(board, nonces, |nonces|).None?
  {
    hide DeviceAnswer;
  }

  method HelperMain(board: Board, args: seq<string>) returns (r: Option<seq<Gpu>>)
    ensures r == Output(board, args)
  {
    hide NonceOf, Base64.StdEncode, BundleDers, EncodeAll, DecodeAll;
    if args == [] {
      return None;
    }
    var parsed := ParseNonces(args);
    if parsed.None? {
      return None;
    }
    var nonces := parsed.value;
    if !board.opens || board.count != Some(|nonces|) {
      return None;
    }
    if board.ccFeature.None? || board.ccFeature.value == 0 || board.multiGpuMode != Some(NVLE) {
      return None;
    }
    var gpus: seq<Gpu> := [];
    for i := 0 to |nonces|
      invariant Answers(board, nonces, i).Some?
      invariant gpus == PrintedAll(Answers(board, nonces, i).value)
    {
      var report := board.report(i, nonces[i]);
      var cert := board.certs(i);
      if report.None? || cert.None? {
        AnswersNone(board, nonces, i);
        return None;
      }
      var chain := DerCertsFromPem(board, cert.value);
      if chain.None? || report.value == [] || chain.value == [] {
        AnswersNone(board, nonces, i);
        return None;
      }
      gpus := gpus + [Gpu(Base64.StdEncode(report.value), chain.value)];
    }
    if !board.closes {
      return None;
    }
    return Some(gpus);
  }

  // ---------- The service ----------

  function HexAll(nonces: seq<seq<Byte>>): (r: seq<string>)
    ensures |r| == |nonces|
  {
    seq(|nonces|, i requires 0 <= i < |nonces| => Hex.Encode(nonces[i]))
  }

  /** Hex out and hex in. */
  lemma {:induction false} NoncesSurvive(nonces: seq<seq<Byte>>)
    requires forall i :: 0 <= i < |nonces| ==> |nonces[i]| == NONCE_LEN
    ensures DecodeAll(NonceOf, HexAll(nonces)) == Some(nonces)
  {
    hide Hex.Encode, Hex.Decode;
    if nonces != [] {
      var k := |nonces| - 1;
      NoncesSurvive(nonces[..k]);
      Hex.DecodeEncode(nonces[k]);
      assert HexAll(nonces)[..k] == HexAll(nonces[..k]);
      assert nonces == nonces[..k] + [nonces[k]];
    }
  }

  lemma {:induction false} ChainSurvives(ders: seq<seq<Byte>>)
    ensures DecodeAll(Base64.Decode, EncodeAll(ders)) == Some(ders)
  {
    hide Base64.StdEncode, Base64.Decode;
    if ders != [] {
      var k := |ders| - 1;
      ChainSurvives(ders[..k]);
      Base64.DecodeEncode(ders[k]);
      assert EncodeAll(ders)[..k] == EncodeAll(ders[..k]);
      assert ders == ders[..k] + [ders[k]];
    }
  }

  method DecodeChain(chain: seq<string>) returns (r: Option<seq<seq<Byte>>>)
    ensures r == DecodeAll(Base64.Decode, chain)
  {
    hide Base64.Decode;
    var out: seq<seq<Byte>> := [];
    for k := 0 to |chain|
      invariant DecodeAll(Base64.Decode, chain[..k]) == Some(out)
    {
      assert chain[..k + 1][..k] == chain[..k];
      var der := Base64.B64DecodeAny(chain[k]);
      if der.None? {
        DecodeAllNone(Base64.Decode, chain, k + 1);
        return None;
      }
      out := out + [der.value];
    }
    assert chain[..|chain|] == chain;
    return Some(out);
  }

  /** A printed element decoded again; an empty report or chain counts as a failure. */
  function DecodedGpu(g: Gpu): (r: Option<Answer>) {
    match (Base64.Decode(g.report), DecodeAll(Base64.Decode, g.certChain))
    case (Some(report), Some(chain)) => if report == [] || chain == [] then None else Some((report, chain))
    case _ => None
  }

  method DecodeGpu(g: Gpu) returns (r: Option<Answer>)
    ensures r == DecodedGpu(g)
  {
    hide Base64.Decode, DecodeAll;
    var report := Base64.B64DecodeAny(g.report);
    if report.None? {
      return None;
    }
    var chain := DecodeChain(g.certChain);
    if chain.None? || report.value == [] || chain.value == [] {
      return None;
    }
    return Some((report.value, chain.value));
  }

  /** Base64 out and base64 in. */
  lemma GpuSurvives(a: Answer)
    requires a.0 != [] && a.1 != []
    ensures DecodedGpu(Printed(a)) == Some(a)
  {
    hide Base64.Decode, Base64.StdEncode, EncodeAll, DecodeAll;
    Base64.DecodeEncode(a.0);
    ChainSurvives(a.1);
  }

  /** What the service gets of the devices' answers: all of them, or nothing if the script cannot be
      started, refuses or is not understood. */
  function HostAnswers(host: Host, nonces: seq<seq<Byte>>): (r: Option<seq<Answer>>) {
    match BoardAnswers(host.board, nonces)
    case None => None
    case Some(a) => if host.starts && host.understood(PrintedAll(a)) then Some(a) else None
  }

  /** The answer is what device i itself reported for the nonce, and the certificates of its own bundle. */
  lemma DeviceAnswerIff(board: Board, i: nat, nonce: seq<Byte>, a: Answer)
    ensures DeviceAnswer(board, i, nonce) == Some(a) <==>
            && board.report(i, nonce) == Some(a.0) && a.0 != []
            && board.certs(i).Some? && BundleDers(board, board.certs(i).value) == Some(a.1) && a.1 != []
  {
    hide BundleDers;
  }

  /** Answers that are, device by device, what the board said. */
  ghost predicate AreAnswers(board: Board, nonces: seq<seq<Byte>>, answers: seq<Answer>) {
    |answers| == |nonces| &&
    forall i :: 0 <= i < |nonces| ==>
      && board.report(i, nonces[i]) == Some(answers[i].0) && answers[i].0 != []
      && board.certs(i).Some? && BundleDers(board, board.certs(i).value) == Some(answers[i].1) && answers[i].1 != []
  }

  lemma AreAnswersIff(board: Board, nonces: seq<seq<Byte>>, answers: seq<Answer>)
    ensures AreAnswers(board, nonces, answers) <==>
            |answers| == |nonces| && forall i :: 0 <= i < |nonces| ==>
              DeviceAnswer(board, i, nonces[i]) == Some(answers[i])
  {
    hide DeviceAnswer, BundleDers;
    if |answers| == |nonces| {
      forall i | 0 <= i < |nonces|
        ensures DeviceAnswer(board, i, nonces[i]) == Some(answers[i]) <==>
                && board.report(i, nonces[i]) == Some(answers[i].0) && answers[i].0 != []
                && board.certs(i).Some? && BundleDers(board, board.certs(i).value) == Some(answers[i].1)
                && answers[i].1 != []
      {
        DeviceAnswerIff(board, i, nonces[i], answers[i]);
      }
    }
  }

  /** The service gets a list exactly when the script starts, the board is ready, every single device
      answers and the output is understood; and then it is the list of the devices' own answers. */
  lemma AnsweredIff(host: Host, nonces: seq<seq<Byte>>, answers: seq<Answer>)
    ensures HostAnswers(host, nonces) == Some(answers) <==>
            && host.starts && host.board.opens && host.board.closes
            && 0 < |nonces| && host.board.count == Some(|nonces|)
            && host.board.ccFeature.Some? && host.board.ccFeature != Some(0) && host.board.multiGpuMode == Some(2)
            && AreAnswers(host.board, nonces, answers)
            && host.understood(PrintedAll(answers))
  {
    hide DeviceAnswer, PrintedAll, AreAnswers;
    var all := Answers(host.board, nonces, |nonces|);
    AreAnswersIff(host.board, nonces, answers);
    if all.Some? {
      AreAnswersIff(host.board, nonces, all.value);
    }
    if AreAnswers(host.board, nonces, answers) {
      assert all.Some? && all.value == answers;
    }
  }

  lemma AnswersUnique(board: Board, nonces: seq<seq<Byte>>, a: seq<Answer>, b: seq<Answer>)
    requires AreAnswers(board, nonces, a) && AreAnswers(board, nonces, b)
    ensures a == b
  {
    hide BundleDers;
    forall i | 0 <= i < |a|
      ensures a[i] == b[i]
    {
      assert Some(a[i].0) == Some(b[i].0) && Some(a[i].1) == Some(b[i].1);
    }
  }

  /** Nothing comes back exactly when one of those fails. */
  lemma UnansweredIff(host: Host, nonces: seq<seq<Byte>>)
    ensures HostAnswers(host, nonces).None? <==>
            || !host.starts || !host.board.opens || !host.board.closes
            || |nonces| == 0 || host.board.count != Some(|nonces|)
            || host.board.ccFeature.None? || host.board.ccFeature == Some(0) || host.board.multiGpuMode != Some(2)
            || (forall answers :: !AreAnswers(host.board, nonces, answers))
            || (exists answers :: AreAnswers(host.board, nonces, answers) && !host.understood(PrintedAll(answers)))
  {
    hide DeviceAnswer, PrintedAll, AreAnswers;
    var all := Answers(host.board, nonces, |nonces|);
    forall answers
      ensures AreAnswers(host.board, nonces, answers) ==> all.Some?
    {
      AreAnswersIff(host.board, nonces, answers);
    }
    if all.Some? {
      AreAnswersIff(host.board, nonces, all.value);
      forall answers | AreAnswers(host.board, nonces, answers)
        ensures answers == all.value
      {
        AnswersUnique(host.board, nonces, answers, all.value);
      }
    }
  }

  /** Run the script with one nonce per GPU and decode what it printed. Nothing is lost or changed
      on the way: the outcome is exactly what the board answered. */
  method GpuReportsAll(host: Host, nonces: seq<seq<Byte>>) returns (r: Option<seq<Answer>>)
    requires forall i :: 0 <= i < |nonces| ==> |nonces[i]| == NONCE_LEN
    ensures r == HostAnswers(host, nonces)
  {
    hide Hex.Encode, NonceOf, Printed, DecodedGpu, DecodeAll, BoardReady, BundleDers;
    var args: seq<string> := [];
    for k := 0 to |nonces|
      invariant args == HexAll(nonces[..k])
    {
      var arg := Hex.HexEncode(nonces[k]);
      args := args + [arg];
    }
    assert nonces[..|nonces|] == nonces;
    NoncesSurvive(nonces);
    if !host.starts {
      return None;
    }
    var gpus := HelperMain(host.board, args);
    if gpus.None? || !host.understood(gpus.value) || |gpus.value| != |nonces| {
      return None;
    }
    ghost var answers := BoardAnswers(host.board, nonces).value;
    var out: seq<Answer> := [];
    for k := 0 to |gpus.value|
      invariant out == answers[..k]
    {
      var g := gpus.value[k];
      assert DeviceAnswer(host.board, k, nonces[k]) == Some(answers[k]);
      GpuSurvives(answers[k]);
      var a := DecodeGpu(g);
      if a.None? {
        return None;
      }
      out := out + [a.value];
    }
    assert answers[..|answers|] == answers;
    return Some(out);
  }

  /** The bytes hashed for one GPU. */
  function HashInput(nonce: seq<Byte>, spki: seq<Byte>, index: Byte): (r: seq<Byte>)
    ensures |r| == |nonce| + |spki| + 1
  {
    nonce + spki + [index]
  }

  /** The 65-byte inputs determine nonce, key hash and slot. */
  lemma HashInputInjective(n1: Hash32, s1: Hash32, i1: Byte, n2: Hash32, s2: Hash32, i2: Byte)
    requires HashInput(n1, s1, i1) == HashInput(n2, s2, i2)
    ensures n1 == n2 && s1 == s2 && i1 == i2
  {
    var x, y := HashInput(n1, s1, i1), HashInput(n2, s2, i2);
    assert x[..32] == n1 && y[..32] == n2 && x[32..64] == s1 && y[32..64] == s2;
    assert x[64] == i1 && y[64] == i2;
  }

  /** The slot number as the byte that is hashed. */
  function Slot(i: nat): (b: Byte)
    requires i < EXPECTED_GPU_COUNT
  {
    i as Byte
  }

  /** The eight slot bytes. */
  const SLOTS: seq<Byte> := [0, 1, 2, 3, 4, 5, 6, 7]

  lemma SlotIs(i: nat)
    requires i < 8
    ensures Slot(i) == SLOTS[i]
  {
    if i < 4 {
      assert i == 0 || i == 1 || i == 2 || i == 3;
    } else {
      assert i == 4 || i == 5 || i == 6 || i == 7;
    }
  }

  lemma SlotsDistinct(i: nat, j: nat)
    requires i < EXPECTED_GPU_COUNT && j < EXPECTED_GPU_COUNT && i != j
    ensures Slot(i) != Slot(j)
  {
    Hex.NibbleAsInt(i);
    Hex.NibbleAsInt(j);
  }

  /** Two challenges hash the same bytes only for the same nonce, key hash and slot: the eight inputs of
      one request are pairwise distinct and no other request shares one. */
  lemma ChallengesDistinct(n1: Hash32, s1: Hash32, i: nat, n2: Hash32, s2: Hash32, j: nat)
    requires i < EXPECTED_GPU_COUNT && j < EXPECTED_GPU_COUNT
    ensures HashInput(n1, s1, Slot(i)) == HashInput(n2, s2, Slot(j)) <==> n1 == n2 && s1 == s2 && i == j
  {
    hide Slot, HashInput;
    if HashInput(n1, s1, Slot(i)) == HashInput(n2, s2, Slot(j)) {
      HashInputInjective(n1, s1, Slot(i), n2, s2, Slot(j));
      if i != j {
        SlotsDistinct(i, j);
      }
    }
  }

  function GpuNonces(sha256: seq<Byte> -> Hash32, nonce: seq<Byte>, spki: seq<Byte>): (r: seq<seq<Byte>>)
    ensures |r| == EXPECTED_GPU_COUNT
    ensures forall i :: 0 <= i < |r| ==> r[i] == sha256(HashInput(nonce, spki, Slot(i)))
  {
    seq(EXPECTED_GPU_COUNT, i requires 0 <= i < EXPECTED_GPU_COUNT => sha256(HashInput(nonce, spki, Slot(i))))
  }

  datatype Response =
    | RateLimited
    | BadNonce
    | Unavailable
    | Envelope(cpuReport: string, cpuChain: seq<string>, gpuReports: seq<string>, gpuChains: seq<seq<string>>)

  method EncodeEach(ders: seq<seq<Byte>>) returns (r: seq<string>)
    ensures r == EncodeAll(ders)
  {
    hide Base64.StdEncode;
    r := [];
    for k := 0 to |ders|
      invariant r == EncodeAll(ders[..k])
    {
      var e := Base64.B64Encode(ders[k]);
      r := r + [e];
    }
    assert ders[..|ders|] == ders;
  }

  method EncodeGpus(gpus: seq<Answer>) returns (reports: seq<string>, chains: seq<seq<string>>)
    ensures |reports| == |chains| == |gpus|
    ensures forall i :: 0 <= i < |gpus| ==>
      reports[i] == Base64.StdEncode(gpus[i].0) && chains[i] == EncodeAll(gpus[i].1)
  {
    hide Base64.StdEncode, EncodeAll;
    reports, chains := [], [];
    for k := 0 to |gpus|
      invariant |reports| == |chains| == k
      invariant forall i :: 0 <= i < k ==>
        reports[i] == Base64.StdEncode(gpus[i].0) && chains[i] == EncodeAll(gpus[i].1)
    {
      var report := Base64.B64Encode(gpus[k].0);
      var chain := EncodeEach(gpus[k].1);
      reports := reports + [report];
      chains := chains + [chain];
    }
  }

  /** One slot: report and chain are, in standard padded base64, what device i reported for the challenge
      and the certificates of its own bundle. */
  lemma SlotIsFaithful(board: Board, challenge: seq<Byte>, i: nat, a: Answer)
    requires DeviceAnswer(board, i, challenge) == Some(a)
    ensures board.report(i, challenge) == Some(a.0) && a.0 != []
    ensures board.certs(i).Some? && BundleDers(board, board.certs(i).value) == Some(a.1) && a.1 != []
    ensures Base64.Decode(Base64.StdEncode(a.0)) == Some(a.0) && DecodeAll(Base64.Decode, EncodeAll(a.1)) == Some(a.1)
  {
    hide DeviceAnswer, BundleDers, Base64.StdEncode, Base64.Decode, DecodeAll, EncodeAll;
    DeviceAnswerIff(board, i, challenge, a);
    Base64.DecodeEncode(a.0);
    ChainSurvives(a.1);
  }

  /** All slots of one request. */
  method AttestGpus(host: Host, sha256: seq<Byte> -> Hash32, nonce: seq<Byte>, spki: seq<Byte>)
    returns (r: Option<(seq<string>, seq<seq<string>>)>)
    ensures r.None? <==> HostAnswers(host, GpuNonces(sha256, nonce, spki)).None?
    ensures r.Some? ==>
      && |r.value.0| == |r.value.1| == 8
      && forall i :: 0 <= i < 8 ==>
           var raw := host.board.report(i, sha256(nonce + spki + [SLOTS[i]]));
           && raw.Some? && raw.value != [] && r.value.0[i] == Base64.StdEncode(raw.value)
           && Base64.Decode(r.value.0[i]) == raw
    ensures r.Some? ==>
      forall i :: 0 <= i < 8 ==>
        && host.board.certs(i).Some?
        && var ders := BundleDers(host.board, host.board.certs(i).value);
        && ders.Some? && ders.value != [] && r.value.1[i] == EncodeAll(ders.value)
        && DecodeAll(Base64.Decode, r.value.1[i]) == ders
  {
    hide Answers, DeviceAnswer, EncodeAll, Base64.StdEncode, Base64.Decode, DecodeAll, BundleDers;
    var gpuNonces := GpuNonces(sha256, nonce, spki);
    var gpus := GpuReportsAll(host, gpuNonces);
    if gpus.None? {
      return None;
    }
    var reports, chains := EncodeGpus(gpus.value);
    forall i | 0 <= i < 8
      ensures host.board.report(i, sha256(nonce + spki + [SLOTS[i]])) == Some(gpus.value[i].0)
      ensures gpus.value[i].0 != [] && gpus.value[i].1 != [] && host.board.certs(i).Some?
      ensures BundleDers(host.board, host.board.certs(i).value) == Some(gpus.value[i].1)
      ensures Base64.Decode(reports[i]) == Some(gpus.value[i].0)
      ensures DecodeAll(Base64.Decode, chains[i]) == Some(gpus.value[i].1)
    {
      SlotIs(i);
      assert gpuNonces[i] == sha256(nonce + spki + [SLOTS[i]]);
      SlotIsFaithful(host.board, gpuNonces[i], i, gpus.value[i]);
    }
    return Some((reports, chains));
  }

  /** The handler fails closed, or returns one report per slot and each of them is, byte for byte, that
      device's answer to the hash of nonce, key hash and slot. */
  method Handle(store: MemberStore, client: Option<Pubkey>, now: real, nonceHex: Option<string>, spki: Hash32,
                sha256: seq<Byte> -> Hash32, host: Host)
    returns (resp: Response)
    modifies store
    ensures store.View() == if client.Some? then Attested(old(store.View()), client.value, now).0 else old(store.View())
    ensures resp == RateLimited <==> client.Some? && !Attested(old(store.View()), client.value, now).1
    ensures resp == BadNonce <==>
      resp != RateLimited &&
      (nonceHex.None? || Hex.Decode(nonceHex.value).None? || |Hex.Decode(nonceHex.value).value| != 32)
    ensures resp == Unavailable <==>
      && resp != RateLimited && resp != BadNonce
      && var nonce := Hex.Decode(nonceHex.value).value;
         || !host.joins || host.quote(nonce + spki).None? || host.quote(nonce + spki) == Some([])
         || HostAnswers(host, GpuNonces(sha256, nonce, spki)).None?
    ensures resp.Envelope? ==>
      && nonceHex.Some? && Hex.Decode(nonceHex.value).Some? && |Hex.Decode(nonceHex.value).value| == 32
      && var nonce := Hex.Decode(nonceHex.value).value;
      && host.quote(nonce + spki).Some?
      && var quote := host.quote(nonce + spki).value;
      && resp.cpuReport == Base64.StdEncode(quote) && Base64.Decode(resp.cpuReport) == Some(quote)
      && resp.cpuChain == EncodeAll(Pem.Lift(Pem.Bodies(Pem.PEM, host.lossyText(quote))))
    ensures resp.Envelope? ==>
      && |resp.gpuReports| == |resp.gpuChains| == 8
      && var nonce := Hex.Decode(nonceHex.value).value;
         forall i :: 0 <= i < 8 ==>
           var raw := host.board.report(i, sha256(nonce + spki + [SLOTS[i]]));
           && raw.Some? && raw.value != [] && resp.gpuReports[i] == Base64.StdEncode(raw.value)
           && Base64.Decode(resp.gpuReports[i]) == raw
    ensures resp.Envelope? ==>
      forall i :: 0 <= i < 8 ==>
        && host.board.certs(i).Some?
        && var ders := BundleDers(host.board, host.board.certs(i).value);
        && ders.Some? && ders.value != [] && resp.gpuChains[i] == EncodeAll(ders.value)
        && DecodeAll(Base64.Decode, resp.gpuChains[i]) == ders
  {
    hide Hex.Decode, Base64.Decode, Base64.StdEncode, Pem.Lift, Pem.Bodies, BundleDers, EncodeAll, DecodeAll,
         Attested, HostAnswers;
    if client.Some? {
      var ok := store.AllowAttestation(client.value, now);
      if !ok {
        return RateLimited;
      }
    }
    if nonceHex.None? {
      return BadNonce;
    }
    var decoded := Hex.HexDecode(nonceHex.value);
    if decoded.None? || |decoded.value| != NONCE_LEN {
      return BadNonce;
    }
    var nonce := decoded.value;
    var q := host.quote(nonce + spki);
    if q.None? || q.value == [] {
      return Unavailable;
    }
    var cpuChain := Pem.PckChainFromQuote(host.lossyText(q.value));
    var gpus := AttestGpus(host, sha256, nonce, spki);
    if gpus.None? || !host.joins {
      return Unavailable;
    }
    var cpuReport := Base64.B64Encode(q.value);
    Base64.DecodeEncode(q.value);
    var cpuChain64 := EncodeEach(cpuChain);
    resp := Envelope(cpuReport, cpuChain64, gpus.value.0, gpus.value.1);
  }
}
