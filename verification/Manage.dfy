/** POST /manage (src/manage.rs:40-72): verify, note the nonce, apply the action. The handler takes the
    lock twice, so requests interleave between those two steps. Signature checking and JSON parsing
    are arbitrary functions. */
module Manage {
  import opened Bits
  import opened Store
  import opened History
  import Base64
  import Hex
  import Identity

  datatype Action = Action(action: string, nonce: string, memberHash: Option<string>)

  datatype Keys = Keys(signed: (seq<Byte>, seq<Byte>) -> bool, parse: seq<Byte> -> Option<Action>)

  datatype Envelope = Envelope(payload: string, signature: string)

  datatype Reply = Unauthorized | Malformed | Replayed | BadHash | UnknownAction | Applied(revoked: bool)

  datatype Checked = Rejected(outcome: Reply) | Signed(action: Action)

  // ---------- One request ----------

  /** Everything before the first lock. */
  function Check(keys: Keys, env: Envelope): (r: Checked)
    ensures r.Rejected? ==> r.outcome == Unauthorized || r.outcome == Malformed
  {
    match (Base64.Decode(env.payload), Base64.Decode(env.signature))
    case (Some(payload), Some(signature)) =>
      if !keys.signed(payload, signature) then Rejected(Unauthorized)
      else (match keys.parse(payload) case None => Rejected(Malformed) case Some(action) => Signed(action))
    case _ => Rejected(Unauthorized)
  }

  /** The hash a revoke action names, if it is a well-formed revoke. */
  function Target(action: Action): (r: Option<MemberHash>) {
    if action.action == "revoke" && action.memberHash.Some? then
      var hash := Hex.Decode(action.memberHash.value);
      if hash.Some? && |hash.value| == 32 then Some(hash.value) else None
    else None
  }

  method Verify(keys: Keys, env: Envelope) returns (r: Checked)
    ensures r == Check(keys, env)
  {
    hide Base64.Decode;
    var payload := Base64.B64DecodeAny(env.payload);
    var signature := Base64.B64DecodeAny(env.signature);
    if payload.None? || signature.None? {
      return Rejected(Unauthorized);
    }
    if !keys.signed(payload.value, signature.value) {
      return Rejected(Unauthorized);
    }
    var action := keys.parse(payload.value);
    if action.None? {
      return Rejected(Malformed);
    }
    return Signed(action.value);
  }

  /** The second critical section. */
  method Apply(store: MemberStore, action: Action) returns (o: Reply)
    modifies store
    ensures Target(action).None? ==> store.View() == old(store.View()) && (o == BadHash || o == UnknownAction)
    ensures Target(action).None? ==> (o == BadHash <==> action.action == "revoke")
    ensures Target(action).Some? ==> exists found ::
      CanFind(old(store.View()), Target(action).value, found)
      && store.View() == Revoked(old(store.View()), found) && o == Applied(found.Some?)
  {
    hide Hex.Decode;
    if action.action == "revoke" {
      var decoded: Option<seq<Byte>> := None;
      if action.memberHash.Some? {
        decoded := Hex.HexDecode(action.memberHash.value);
      }
      if decoded.None? || |decoded.value| != 32 {
        return BadHash;
      }
      var revoked := store.RevokeByMemberHash(decoded.value);
      return Applied(revoked);
    }
    return UnknownAction;
  }

  lemma TargetCases(action: Action)
    ensures action.action != "revoke" ==> Target(action).None?
    ensures action.action == "revoke" ==>
      var hash := if action.memberHash.Some? then Hex.Decode(action.memberHash.value) else None;
      if hash.None? || |hash.value| != 32 then Target(action).None? else Target(action) == Some(hash.value)
  {
    hide Hex.Decode;
  }

  /** A request counts as signed with an action exactly when both fields decode, the key accepts the
      signature over the decoded payload, and that payload parses to the action. */
  lemma SignedIff(keys: Keys, env: Envelope, action: Action)
    ensures Check(keys, env) == Signed(action) <==>
            exists p, s :: Base64.Decode(env.payload) == Some(p) && Base64.Decode(env.signature) == Some(s)
                           && keys.signed(p, s) && keys.parse(p) == Some(action)
  {
    hide Base64.Decode;
  }

  /** A revoke has a target exactly when it names 32 bytes in hex. */
  lemma TargetIff(action: Action, hash: MemberHash)
    ensures Target(action) == Some(hash) <==>
            && action.action == "revoke"
            && exists text :: action.memberHash == Some(text) && Hex.Decode(text) == Some(hash)
  {
    hide Hex.Decode;
  }

  /** One request with nothing in between. A request that is not signed by the management key, or is
      malformed or replayed, leaves no trace; any other spends its nonce, and only a revoke that names a
      hash does more. */
  method Handle(store: MemberStore, keys: Keys, env: Envelope) returns (o: Reply)
    modifies store
    ensures var p, s := Base64.Decode(env.payload), Base64.Decode(env.signature);
            p.None? || s.None? || !keys.signed(p.value, s.value) ==>
              o == Unauthorized && store.View() == old(store.View())
    ensures var p, s := Base64.Decode(env.payload), Base64.Decode(env.signature);
            p.Some? && s.Some? && keys.signed(p.value, s.value) && keys.parse(p.value).None? ==>
              o == Malformed && store.View() == old(store.View())
    ensures var p, s := Base64.Decode(env.payload), Base64.Decode(env.signature);
            p.Some? && s.Some? && keys.signed(p.value, s.value) && keys.parse(p.value).Some? ==>
              var action, before := keys.parse(p.value).value, old(store.View());
              var noted := before.(seenNonces := before.seenNonces + {action.nonce});
              if action.nonce in before.seenNonces then o == Replayed && store.View() == before
              else if action.action != "revoke" then o == UnknownAction && store.View() == noted
              else
                var hash := if action.memberHash.Some? then Hex.Decode(action.memberHash.value) else None;
                if hash.None? || |hash.value| != 32 then o == BadHash && store.View() == noted
                else exists found :: CanFind(noted, hash.value, found) && o == Applied(found.Some?)
                                     && store.View() == Revoked(noted, found)
  {
    hide Target, CanFind, Revoked, Base64.Decode, Hex.Decode;
    var c := Verify(keys, env);
    if c.Rejected? {
      return c.outcome;
    }
    var isNew := store.NoteNonce(c.action.nonce);
    if !isNew {
      assert store.seenNonces == old(store.seenNonces);
      return Replayed;
    }
    o := Apply(store, c.action);
    TargetCases(c.action);
  }

  // ---------- Interleaved requests ----------

  datatype Phase =
    | Arrived
    | Verified
    | Guarded
    | Done(outcome: Reply)

  /** The store and how far each request has come. */
  datatype System = System(store: Inner, phases: seq<Phase>)

  /** One atomic step: of request i, or of another handler. */
  datatype Move =
    | VerifyMove(i: nat)
    | GuardMove(i: nat)
    | ApplyMove(i: nat, found: Option<Pubkey>)
    | OtherMove(event: Event)

  /** The requests of a run and the keys they are checked with. */
  datatype Requests = Requests(keys: Keys, envs: seq<Envelope>) {
    function Result(i: nat): (c: Checked)
      requires i < |envs|
    {
      Check(keys, envs[i])
    }

    predicate IsSigned(i: nat) {
      i < |envs| && Result(i).Signed?
    }

    function ActionOf(i: nat): (a: Action)
      requires IsSigned(i)
    {
      Result(i).action
    }
  }

  /** The store event of a move, if it touches the store. */
  function EventOf(rq: Requests, m: Move): (r: Option<Event>) {
    match m
    case VerifyMove(_) => None
    case GuardMove(i) => if rq.IsSigned(i) then Some(Note(rq.ActionOf(i).nonce)) else None
    case ApplyMove(i, found) =>
      if rq.IsSigned(i) && Target(rq.ActionOf(i)).Some? then
        Some(Revoke(Target(rq.ActionOf(i)).value, found))
      else None
    case OtherMove(e) => Some(e)
  }

  predicate Enabled(rq: Requests, sys: System, m: Move) {
    match m
    case VerifyMove(i) => i < |sys.phases| == |rq.envs| && sys.phases[i] == Arrived
    case GuardMove(i) => i < |sys.phases| == |rq.envs| && sys.phases[i] == Verified && rq.IsSigned(i)
    case ApplyMove(i, found) =>
      && i < |sys.phases| == |rq.envs| && sys.phases[i] == Guarded && rq.IsSigned(i)
      && (Target(rq.ActionOf(i)).Some? ==> CanFind(sys.store, Target(rq.ActionOf(i)).value, found))
    case OtherMove(e) => e.Enrol? || e.Attest?
  }

  /** The phase a request reaches by its move. */
  function NextPhase(rq: Requests, sys: System, m: Move): (p: Phase)
    requires Enabled(rq, sys, m) && !m.OtherMove?
  {
    match m
    case VerifyMove(i) => (match rq.Result(i) case Rejected(o) => Done(o) case Signed(_) => Verified)
    case GuardMove(i) => if rq.ActionOf(i).nonce in sys.store.seenNonces then Done(Replayed) else Guarded
    case ApplyMove(i, found) =>
      if Target(rq.ActionOf(i)).Some? then Done(Applied(found.Some?))
      else if rq.ActionOf(i).action == "revoke" then Done(BadHash)
      else Done(UnknownAction)
  }

  function After(rq: Requests, sys: System, m: Move): (r: System)
    requires Enabled(rq, sys, m)
  {
    var e := EventOf(rq, m);
    var store := if e.Some? && Allowed(sys.store, e.value) then Step(sys.store, e.value) else sys.store;
    System(store, if m.OtherMove? then sys.phases else sys.phases[m.i := NextPhase(rq, sys, m)])
  }

  function Start(rq: Requests): (sys: System) {
    System(EMPTY, seq(|rq.envs|, _ => Arrived))
  }

  /** The system after a run of moves, if each was possible where it stands. */
  function Exec(rq: Requests, moves: seq<Move>): (r: Option<System>)
    ensures r.Some? ==> |r.value.phases| == |rq.envs|
  {
    if moves == [] then Some(Start(rq))
    else
      match Exec(rq, Front(moves))
      case None => None
      case Some(sys) => if Enabled(rq, sys, Last(moves)) then Some(After(rq, sys, Last(moves))) else None
  }

  /** The store events of a run, in order. */
  function Events(rq: Requests, moves: seq<Move>): (h: seq<Event>) {
    if moves == [] then []
    else
      match EventOf(rq, Last(moves))
      case None => Events(rq, Front(moves))
      case Some(e) => Events(rq, Front(moves)) + [e]
  }

  /** The store of an interleaved run is the store of its history, so everything proved of histories
      holds of it. */
  lemma {:induction false} StoreIsHistory(rq: Requests, moves: seq<Move>)
    requires Exec(rq, moves).Some?
    ensures Valid(Events(rq, moves)) && Exec(rq, moves).value.store == Run(Events(rq, moves))
  {
    hide Check, Target, Step;
    if moves != [] {
      var f, m := Front(moves), Last(moves);
      StoreIsHistory(rq, f);
      var e := EventOf(rq, m);
      if e.Some? {
        var h := Events(rq, f) + [e.value];
        assert Front(h) == Events(rq, f) && Last(h) == e.value;
        assert Allowed(Run(Events(rq, f)), e.value);
      }
    }
  }

  // ---------- What every run keeps ----------

  /** The request got past the replay guard. */
  predicate Won(p: Phase) {
    p == Guarded || (p.Done? && (p.outcome == BadHash || p.outcome == UnknownAction || p.outcome.Applied?))
  }

  predicate ReachedGuard(p: Phase) {
    Won(p) || p == Done(Replayed)
  }

  /** Requests beyond verification were signed and well formed. */
  ghost predicate OnlySigned(rq: Requests, sys: System) {
    |sys.phases| == |rq.envs| &&
    forall i :: 0 <= i < |sys.phases| && (sys.phases[i] == Verified || ReachedGuard(sys.phases[i])) ==>
      rq.IsSigned(i)
  }

  /** The seen set is exactly the nonces of the requests that reached the guard. */
  ghost predicate SeenExact(rq: Requests, sys: System)
    requires OnlySigned(rq, sys)
  {
    forall n :: n in sys.store.seenNonces <==>
      exists i :: 0 <= i < |sys.phases| && ReachedGuard(sys.phases[i]) && rq.ActionOf(i).nonce == n
  }

  /** No two winners share a nonce, and every seen nonce has a winner. */
  ghost predicate WinnersDistinct(rq: Requests, sys: System)
    requires OnlySigned(rq, sys)
  {
    && (forall i, j :: 0 <= i < j < |sys.phases| && Won(sys.phases[i]) && Won(sys.phases[j])
          ==> rq.ActionOf(i).nonce != rq.ActionOf(j).nonce)
    && (forall n :: n in sys.store.seenNonces ==>
          exists i :: 0 <= i < |sys.phases| && Won(sys.phases[i]) && rq.ActionOf(i).nonce == n)
  }

  ghost predicate Good(rq: Requests, sys: System) {
    OnlySigned(rq, sys) && SeenExact(rq, sys) && WinnersDistinct(rq, sys)
  }

  lemma StepKeepsNonces(s: Inner, e: Event)
    requires Allowed(s, e) && !e.Note?
    ensures Step(s, e).seenNonces == s.seenNonces
  {
  }

  lemma SeenAfter(rq: Requests, sys: System, m: Move)
    requires Enabled(rq, sys, m)
    ensures After(rq, sys, m).store.seenNonces
            == if m.GuardMove? then sys.store.seenNonces + {rq.ActionOf(m.i).nonce} else sys.store.seenNonces
  {
    hide Check, Target, Inserted, Forgotten, Charge;
    var e := EventOf(rq, m);
    if e.Some? && Allowed(sys.store, e.value) && !e.value.Note? {
      StepKeepsNonces(sys.store, e.value);
    }
  }

  lemma SeenTransfer(rq: Requests, sys: System, r: System)
    requires Good(rq, sys) && OnlySigned(rq, r) && r.store.seenNonces == sys.store.seenNonces
    requires forall k :: 0 <= k < |sys.phases| ==>
      Won(r.phases[k]) == Won(sys.phases[k]) && ReachedGuard(r.phases[k]) == ReachedGuard(sys.phases[k])
    ensures Good(rq, r)
  {
    hide Check, Won;
    forall n
      ensures n in r.store.seenNonces <==>
        exists i :: 0 <= i < |r.phases| && ReachedGuard(r.phases[i]) && rq.ActionOf(i).nonce == n
    {
      if n in r.store.seenNonces {
        var i :| 0 <= i < |sys.phases| && ReachedGuard(sys.phases[i]) && rq.ActionOf(i).nonce == n;
        assert ReachedGuard(r.phases[i]);
      }
    }
    forall n | n in r.store.seenNonces
      ensures exists i :: 0 <= i < |r.phases| && Won(r.phases[i]) && rq.ActionOf(i).nonce == n
    {
      var i :| 0 <= i < |sys.phases| && Won(sys.phases[i]) && rq.ActionOf(i).nonce == n;
      assert Won(r.phases[i]);
    }
  }

  /** Moves that change neither who won nor who reached the guard. */
  lemma GoodQuiet(rq: Requests, sys: System, m: Move)
    requires Good(rq, sys) && Enabled(rq, sys, m) && !m.GuardMove?
    ensures Good(rq, After(rq, sys, m))
  {
    hide Check, Target, Step;
    var r := After(rq, sys, m);
    SeenAfter(rq, sys, m);
    assert forall k :: 0 <= k < |sys.phases| ==>
      Won(r.phases[k]) == Won(sys.phases[k]) && ReachedGuard(r.phases[k]) == ReachedGuard(sys.phases[k]);
    hide After, Enabled, EventOf, Won, ReachedGuard;
    assert OnlySigned(rq, r);
    SeenTransfer(rq, sys, r);
  }

  lemma GuardSeen(rq: Requests, sys: System, r: System, i: nat)
    requires Good(rq, sys) && OnlySigned(rq, r) && i < |r.phases| == |sys.phases| && rq.IsSigned(i)
    requires sys.phases[i] == Verified && r.store.seenNonces == sys.store.seenNonces + {rq.ActionOf(i).nonce}
    requires r.phases[i] == if rq.ActionOf(i).nonce in sys.store.seenNonces then Done(Replayed) else Guarded
    requires forall k :: 0 <= k < |sys.phases| && k != i ==> r.phases[k] == sys.phases[k]
    ensures SeenExact(rq, r)
  {
    hide Check;
    forall x
      ensures x in r.store.seenNonces <==>
        exists k :: 0 <= k < |r.phases| && ReachedGuard(r.phases[k]) && rq.ActionOf(k).nonce == x
    {
      if x in sys.store.seenNonces {
        var k :| 0 <= k < |sys.phases| && ReachedGuard(sys.phases[k]) && rq.ActionOf(k).nonce == x;
        assert ReachedGuard(r.phases[k]);
      } else if x == rq.ActionOf(i).nonce {
        assert ReachedGuard(r.phases[i]);
      }
    }
  }

  lemma GuardWinner(rq: Requests, sys: System, r: System, i: nat)
    requires Good(rq, sys) && OnlySigned(rq, r) && i < |r.phases| == |sys.phases| && rq.IsSigned(i)
    requires sys.phases[i] == Verified && r.store.seenNonces == sys.store.seenNonces + {rq.ActionOf(i).nonce}
    requires r.phases[i] == if rq.ActionOf(i).nonce in sys.store.seenNonces then Done(Replayed) else Guarded
    requires forall k :: 0 <= k < |sys.phases| && k != i ==> r.phases[k] == sys.phases[k]
    ensures forall x :: x in r.store.seenNonces ==>
              exists k :: 0 <= k < |r.phases| && Won(r.phases[k]) && rq.ActionOf(k).nonce == x
  {
    hide Check;
    forall x | x in r.store.seenNonces
      ensures exists k :: 0 <= k < |r.phases| && Won(r.phases[k]) && rq.ActionOf(k).nonce == x
    {
      if x in sys.store.seenNonces {
        var k :| 0 <= k < |sys.phases| && Won(sys.phases[k]) && rq.ActionOf(k).nonce == x;
        assert Won(r.phases[k]);
      } else {
        assert Won(r.phases[i]);
      }
    }
  }

  lemma GuardDistinct(rq: Requests, sys: System, r: System, i: nat)
    requires Good(rq, sys) && OnlySigned(rq, r) && i < |r.phases| == |sys.phases| && rq.IsSigned(i)
    requires forall k :: 0 <= k < |sys.phases| && k != i ==> r.phases[k] == sys.phases[k]
    requires Won(r.phases[i]) ==> rq.ActionOf(i).nonce !in sys.store.seenNonces
    ensures forall a, b :: 0 <= a < b < |r.phases| && Won(r.phases[a]) && Won(r.phases[b])
              ==> rq.ActionOf(a).nonce != rq.ActionOf(b).nonce
  {
    hide Check;
    forall a, b | 0 <= a < b < |r.phases| && Won(r.phases[a]) && Won(r.phases[b])
      ensures rq.ActionOf(a).nonce != rq.ActionOf(b).nonce
    {
      if a == i || b == i {
        var k := if a == i then b else a;
        assert ReachedGuard(sys.phases[k]);
        assert rq.ActionOf(k).nonce in sys.store.seenNonces;
      }
    }
  }

  lemma GoodGuard(rq: Requests, sys: System, i: nat)
    requires Good(rq, sys) && Enabled(rq, sys, GuardMove(i))
    ensures Good(rq, After(rq, sys, GuardMove(i)))
  {
    hide Check, Target, Step;
    var m, n := GuardMove(i), rq.ActionOf(i).nonce;
    var r := After(rq, sys, m);
    SeenAfter(rq, sys, m);
    assert r.phases[i] == if n in sys.store.seenNonces then Done(Replayed) else Guarded;
    assert forall k :: 0 <= k < |sys.phases| && k != i ==> r.phases[k] == sys.phases[k];
    hide After, Enabled, EventOf;
    assert OnlySigned(rq, r);
    GuardSeen(rq, sys, r, i);
    GuardWinner(rq, sys, r, i);
    GuardDistinct(rq, sys, r, i);
  }

  lemma GoodStart(rq: Requests)
    ensures Good(rq, Start(rq))
  {
    hide Check;
    assert forall i :: 0 <= i < |rq.envs| ==> !ReachedGuard(Start(rq).phases[i]);
  }

  /** In every interleaving: the seen set is exactly the nonces of the signed, well-formed requests
      that reached the guard, whatever became of their action, and each has exactly one winner. */
  lemma {:induction false} AlwaysGood(rq: Requests, moves: seq<Move>)
    requires Exec(rq, moves).Some?
    ensures Good(rq, Exec(rq, moves).value)
  {
    hide Check, After, Enabled;
    if moves == [] {
      GoodStart(rq);
    } else {
      var f, m := Front(moves), Last(moves);
      AlwaysGood(rq, f);
      hide Good;
      if m.GuardMove? {
        GoodGuard(rq, Exec(rq, f).value, m.i);
      } else {
        GoodQuiet(rq, Exec(rq, f).value, m);
      }
    }
  }

  /** Every nonce the store has seen came in an envelope whose decoded payload carries it and whose
      decoded signature the management key accepts. */
  lemma SeenNoncesSigned(rq: Requests, moves: seq<Move>, nonce: string)
    requires Exec(rq, moves).Some? && nonce in Exec(rq, moves).value.store.seenNonces
    ensures exists i :: 0 <= i < |rq.envs| &&
              var p, s := Base64.Decode(rq.envs[i].payload), Base64.Decode(rq.envs[i].signature);
              && p.Some? && s.Some? && rq.keys.signed(p.value, s.value)
              && rq.keys.parse(p.value).Some? && rq.keys.parse(p.value).value.nonce == nonce
  {
    hide Base64.Decode, Exec;
    AlwaysGood(rq, moves);
    var sys := Exec(rq, moves).value;
    var i :| 0 <= i < |sys.phases| && ReachedGuard(sys.phases[i]) && rq.ActionOf(i).nonce == nonce;
    assert rq.IsSigned(i);
  }

  // ---------- Whole runs ----------

  lemma {:induction false} PrefixRuns(rq: Requests, moves: seq<Move>, k: nat)
    requires Exec(rq, moves).Some? && k < |moves|
    ensures Exec(rq, moves[..k]).Some? && Enabled(rq, Exec(rq, moves[..k]).value, moves[k])
  {
    hide Enabled, After;
    if k < |moves| - 1 {
      PrefixRuns(rq, Front(moves), k);
      assert Front(moves)[..k] == moves[..k];
    } else {
      assert Front(moves) == moves[..k];
    }
  }

  /** A request whose action was applied stays finished. */
  lemma {:induction false} AppliedStaysDone(rq: Requests, moves: seq<Move>, k: nat)
    requires Exec(rq, moves).Some? && k < |moves| && moves[k].ApplyMove?
    ensures var sys := Exec(rq, moves).value;
            moves[k].i < |sys.phases| && sys.phases[moves[k].i].Done? && Won(sys.phases[moves[k].i])
  {
    hide Check, Target, Step;
    if k < |moves| - 1 {
      AppliedStaysDone(rq, Front(moves), k);
    }
  }

  /** Each nonce leads to at most one applied action, however requests interleave. */
  lemma OneApplyPerNonce(rq: Requests, moves: seq<Move>, p: nat, q: nat)
    requires Exec(rq, moves).Some? && p < q < |moves| && moves[p].ApplyMove? && moves[q].ApplyMove?
    ensures rq.IsSigned(moves[p].i) && rq.IsSigned(moves[q].i)
    ensures rq.ActionOf(moves[p].i).nonce != rq.ActionOf(moves[q].i).nonce
  {
    hide Check, Target, Step, After;
    PrefixRuns(rq, moves, p);
    PrefixRuns(rq, moves, q);
    var before := moves[..q];
    assert before[p] == moves[p];
    AppliedStaysDone(rq, before, p);
    AlwaysGood(rq, before);
  }

  predicate MoveOf(m: Move, i: nat) {
    !m.OtherMove? && m.i == i
  }

  /** The moves of a run without those of one request. */
  function WithoutRequest(moves: seq<Move>, i: nat): (r: seq<Move>) {
    if moves == [] then []
    else if MoveOf(Last(moves), i) then WithoutRequest(Front(moves), i)
    else WithoutRequest(Front(moves), i) + [Last(moves)]
  }

  /** The same store, and the same progress of every request other than i. */
  ghost predicate Alike(sys: System, other: System, i: nat) {
    && sys.store == other.store && |sys.phases| == |other.phases|
    && forall k :: 0 <= k < |sys.phases| && k != i ==> sys.phases[k] == other.phases[k]
  }

  /** A move of anyone else is possible in both and acts alike. */
  lemma AlikeStep(rq: Requests, sys: System, other: System, m: Move, i: nat)
    requires Alike(sys, other, i) && Enabled(rq, sys, m) && !MoveOf(m, i)
    ensures Enabled(rq, other, m) && Alike(After(rq, sys, m), After(rq, other, m), i)
  {
    hide Check, Target, Step, CanFind;
  }

  /** A move of an unsigned request changes nothing but its own progress. */
  lemma UnsignedStep(rq: Requests, sys: System, m: Move, i: nat)
    requires Enabled(rq, sys, m) && MoveOf(m, i) && !rq.IsSigned(i)
    ensures Alike(After(rq, sys, m), sys, i)
  {
    hide Check, Target, Step, CanFind;
  }

  lemma {:induction false} UnsignedLeavesNoTrace(rq: Requests, moves: seq<Move>, i: nat)
    requires Exec(rq, moves).Some? && !rq.IsSigned(i)
    ensures Exec(rq, WithoutRequest(moves, i)).Some?
    ensures Alike(Exec(rq, moves).value, Exec(rq, WithoutRequest(moves, i)).value, i)
  {
    hide Check, After, Enabled;
    if moves != [] {
      var f, m := Front(moves), Last(moves);
      UnsignedLeavesNoTrace(rq, f, i);
      var sys, other := Exec(rq, f).value, Exec(rq, WithoutRequest(f, i)).value;
      if MoveOf(m, i) {
        UnsignedStep(rq, sys, m, i);
      } else {
        AlikeStep(rq, sys, other, m, i);
        var w := WithoutRequest(moves, i);
        assert Front(w) == WithoutRequest(f, i) && Last(w) == m;
      }
    }
  }

  /** A request that fails verification leaves no trace: without its moves the run is still a run, with
      the same store and the same answer to everyone else. */
  lemma RejectedLeavesNoTrace(rq: Requests, moves: seq<Move>, i: nat)
    requires Exec(rq, moves).Some? && i < |rq.envs|
    requires var p, s := Base64.Decode(rq.envs[i].payload), Base64.Decode(rq.envs[i].signature);
             p.None? || s.None? || !rq.keys.signed(p.value, s.value) || rq.keys.parse(p.value).None?
    ensures Exec(rq, WithoutRequest(moves, i)).Some?
    ensures Alike(Exec(rq, moves).value, Exec(rq, WithoutRequest(moves, i)).value, i)
  {
    hide Base64.Decode, Exec, Alike;
    UnsignedLeavesNoTrace(rq, moves, i);
  }

  lemma ExecSnoc(rq: Requests, moves: seq<Move>, m: Move)
    requires Exec(rq, moves).Some? && Enabled(rq, Exec(rq, moves).value, m)
    ensures Exec(rq, moves + [m]) == Some(After(rq, Exec(rq, moves).value, m))
  {
    hide After, Enabled;
    assert Front(moves + [m]) == moves && Last(moves + [m]) == m;
  }

  /** The second half of a request in a run. */
  method ApplyInRun(store: MemberStore, rq: Requests, i: nat, ghost moves: seq<Move>)
    returns (o: Reply, ghost found: Option<Pubkey>)
    requires Exec(rq, moves).Some? && Exec(rq, moves).value.store == store.View()
    requires rq.IsSigned(i) && Exec(rq, moves).value.phases[i] == Guarded
    modifies store
    ensures Enabled(rq, Exec(rq, moves).value, ApplyMove(i, found))
    ensures var sys := After(rq, Exec(rq, moves).value, ApplyMove(i, found));
            sys.store == store.View() && sys.phases[i] == Done(o)
  {
    hide Check, Target, Exec, Revoked;
    ghost var sys := Exec(rq, moves).value;
    o := Apply(store, rq.ActionOf(i));
    found := None;
    if Target(rq.ActionOf(i)).Some? {
      found :| CanFind(sys.store, Target(rq.ActionOf(i)).value, found)
               && store.View() == Revoked(sys.store, found) && o == Applied(found.Some?);
    }
  }

  /** The handler's code is a run of its request: from any point of any interleaving it goes through the
      moves of the machine, and ends with the same store and the same answer. */
  method HandleInRun(store: MemberStore, rq: Requests, i: nat, ghost moves: seq<Move>)
    returns (o: Reply, ghost more: seq<Move>)
    requires i < |rq.envs| && Exec(rq, moves).Some? && Exec(rq, moves).value.store == store.View()
    requires Exec(rq, moves).value.phases[i] == Arrived
    modifies store
    ensures forall m :: m in more ==> MoveOf(m, i)
    ensures Exec(rq, moves + more).Some?
    ensures Exec(rq, moves + more).value.store == store.View() && Exec(rq, moves + more).value.phases[i] == Done(o)
  {
    hide Check, Target, Exec, CanFind, Revoked;
    var c := Verify(rq.keys, rq.envs[i]);
    ghost var verified := moves + [VerifyMove(i)];
    ExecSnoc(rq, moves, VerifyMove(i));
    if c.Rejected? {
      return c.outcome, [VerifyMove(i)];
    }
    var isNew := store.NoteNonce(c.action.nonce);
    ghost var guarded := verified + [GuardMove(i)];
    ExecSnoc(rq, verified, GuardMove(i));
    assert Exec(rq, guarded).value.store == store.View();
    if !isNew {
      assert guarded == moves + [VerifyMove(i), GuardMove(i)];
      return Replayed, [VerifyMove(i), GuardMove(i)];
    }
    ghost var found: Option<Pubkey>;
    o, found := ApplyInRun(store, rq, i, guarded);
    ExecSnoc(rq, guarded, ApplyMove(i, found));
    more := [VerifyMove(i), GuardMove(i), ApplyMove(i, found)];
    assert guarded + [ApplyMove(i, found)] == moves + more;
  }

  /** Enrols of a run were let through by a manifest denoting these pairs. */
  ghost predicate EnrolsPaired(moves: seq<Move>, pairs: Identity.Pairs) {
    forall m :: m in moves && m.OtherMove? && m.event.Enrol? ==>
      (m.event.entry.clientPubkey, m.event.entry.memberHash) in pairs
  }

  lemma {:induction false} EventsPaired(rq: Requests, moves: seq<Move>, pairs: Identity.Pairs)
    requires EnrolsPaired(moves, pairs)
    ensures Identity.Paired(Events(rq, moves), pairs)
  {
    hide Check, Target;
    if moves != [] {
      assert forall m :: m in Front(moves) ==> m in moves;
      EventsPaired(rq, Front(moves), pairs);
      assert Last(moves) in moves;
    }
  }

  lemma RevokeClearsAfter(rq: Requests, moves: seq<Move>, pairs: Identity.Pairs)
    requires Exec(rq, moves).Some? && EnrolsPaired(moves, pairs)
    requires moves != [] && Last(moves).ApplyMove? && rq.IsSigned(Last(moves).i)
    requires Identity.HashesUnique(pairs) && Target(rq.ActionOf(Last(moves).i)).Some?
    ensures Identity.HashDead(Exec(rq, moves).value.store, Target(rq.ActionOf(Last(moves).i)).value)
  {
    hide Check, Target, Resolve, Forgotten, Inserted;
    var f, m := Front(moves), Last(moves);
    var h := Events(rq, f);
    StoreIsHistory(rq, f);
    assert forall x :: x in f ==> x in moves;
    EventsPaired(rq, f, pairs);
    StoreIsHistory(rq, moves);
    assert Events(rq, moves) == h + [Revoke(Target(rq.ActionOf(m.i)).value, m.found)];
    Identity.RevokeClears(h, pairs, Target(rq.ActionOf(m.i)).value, m.found);
  }

  /** In every interleaving of enrols and management requests, a live bearer resolves to an identity
      the manifest lists; and right after a revoke is applied, if the manifest lists each
      hash once, no live bearer resolves to it. */
  lemma EveryRunResolves(rq: Requests, moves: seq<Move>, pairs: Identity.Pairs, token: string)
    requires Exec(rq, moves).Some? && EnrolsPaired(moves, pairs)
    ensures var s := Exec(rq, moves).value.store;
            token in s.byToken ==>
              && Resolve(s, token).Some?
              && (Resolve(s, token).value.clientPubkey, Resolve(s, token).value.memberHash) in pairs
    ensures moves != [] && Last(moves).ApplyMove? && rq.IsSigned(Last(moves).i) && Identity.HashesUnique(pairs)
            ==> var target := Target(rq.ActionOf(Last(moves).i));
                target.Some? ==> Identity.HashDead(Exec(rq, moves).value.store, target.value)
  {
    hide Check, Target, Step, After, Outcome, Resolve;
    StoreIsHistory(rq, moves);
    EventsPaired(rq, moves, pairs);
    Identity.ResolvesToPair(Events(rq, moves), pairs, token);
    if moves != [] && Last(moves).ApplyMove? && rq.IsSigned(Last(moves).i)
       && Identity.HashesUnique(pairs) && Target(rq.ActionOf(Last(moves).i)).Some? {
      RevokeClearsAfter(rq, moves, pairs);
    }
  }
}
