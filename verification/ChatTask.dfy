/** The relay task as the loop of src/chat.rs:81-96, on the store it shares and the channel it fills.
    Others act on both while it runs; every such run is a run of the state machine of `Chat`. */
module ChatTask {
  import opened Bits
  import opened Store
  import opened History
  import opened Chat

  /** What the client and the other handlers do meanwhile. */
  datatype Act =
    | TakeItem
    | Leave
    | Insert(entry: MemberEntry)
    | RevokeHash(hash: MemberHash)
    | Spend(nonce: string)
    | Attestation(pubkey: Pubkey, now: real)

  class Task {
    const rq: Request
    const store: MemberStore
    var next: nat
    var queue: seq<Item>
    var delivered: seq<Item>
    var hungUp: bool
    /** What others do at each of the next points where they can. */
    var meanwhile: seq<seq<Act>>

    ghost const begun: seq<Event>
    ghost var h: seq<Event>
    ghost var pc: Pc
    ghost var moves: seq<Move>

    ghost function Here(): (w: World)
      reads this
    {
      World(h, Relay(next, pc, queue, delivered, hungUp))
    }

    /** The fields are where the recorded moves lead, and the store is where the history leads. */
    ghost predicate Tracks()
      reads this, store
    {
      && Authorised(rq, begun) && Exec(rq, Start(begun), moves) == Some(Here())
      && Valid(h) && Run(h) == store.View()
    }

    /** Waiting for room in a full channel that nobody is going to empty. */
    ghost predicate Blocked()
      reads this
    {
      pc.Sending? && |queue| >= 16 && !hungUp && meanwhile == []
    }

    constructor (rq: Request, store: MemberStore, meanwhile: seq<seq<Act>>, ghost begun: seq<Event>)
      requires Authorised(rq, begun) && Run(begun) == store.View()
      ensures Tracks() && pc == Awaiting && moves == [] && h == begun && next == 0
      ensures this.rq == rq && this.store == store && this.meanwhile == meanwhile && this.begun == begun
    {
      this.rq, this.store, this.meanwhile, this.begun := rq, store, meanwhile, begun;
      next, queue, delivered, hungUp := 0, [], [], false;
      h, pc, moves := begun, Awaiting, [];
      new;
      ExecNothing(rq, Start(begun));
    }

    /** A recorded move that was possible and led to the present fields. */
    lemma Recorded(before: World, did: seq<Move>, m: Move)
      requires Authorised(rq, begun) && Exec(rq, Start(begun), did) == Some(before)
      requires Enabled(rq, before, m) && Do(rq, before, m) == Here() && moves == did + [m]
      requires Valid(h) && Run(h) == store.View()
      ensures Tracks()
    {
      ExecSnoc(rq, Start(begun), did, m);
    }

    /** A store step extends the history by its event. */
    method Stored(ghost e: Event)
      requires Authorised(rq, begun) && Exec(rq, Start(begun), moves) == Some(Here()) && Valid(h)
      requires Allowed(Run(h), e) && store.View() == Step(Run(h), e)
      modifies this`h, this`moves
      ensures Tracks()
      ensures h == old(h) + [e] && moves == old(moves) + [StoreMove(e)]
    {
      hide Exec, Allowed, Step, Authorised;
      ghost var before, did := Here(), moves;
      h, moves := h + [e], moves + [StoreMove(e)];
      assert Front(h) == before.h && Last(h) == e;
      Recorded(before, did, StoreMove(e));
    }

    method ActOnStore(a: Act)
      requires Tracks() && !a.TakeItem? && !a.Leave?
      modifies this`h, this`moves, store
      ensures Tracks()
    {
      hide Exec, Authorised, Inserted, Attested, Valid, Run;
      match a
      case Insert(entry) =>
        var _ := store.Insert(entry);
        Stored(Enrol(entry));
      case RevokeHash(hash) =>
        ghost var was := store.View();
        var _ := store.RevokeByMemberHash(hash);
        ghost var found :| CanFind(was, hash, found) && store.View() == Revoked(was, found);
        Stored(Revoke(hash, found));
      case Spend(nonce) =>
        var _ := store.NoteNonce(nonce);
        Stored(Note(nonce));
      case Attestation(pk, now) =>
        var _ := store.AllowAttestation(pk, now);
        Stored(Attest(pk, now));
    }

    method ActOnChannel(a: Act)
      requires Tracks() && (a.TakeItem? || a.Leave?)
      modifies this`queue, this`delivered, this`hungUp, this`moves
      ensures Tracks()
    {
      hide Exec, Authorised, Valid, Run;
      ghost var before, did := Here(), moves;
      if a == TakeItem && !hungUp && queue != [] {
        queue, delivered := queue[1..], delivered + [queue[0]];
        moves := moves + [Read];
        Recorded(before, did, Read);
      } else if a == Leave && !hungUp {
        hungUp, queue := true, [];
        moves := moves + [HangUp];
        Recorded(before, did, HangUp);
      }
    }

    /** The next round of what others do. */
    method Others()
      requires Tracks()
      modifies this`queue, this`delivered, this`hungUp, this`meanwhile, this`h, this`moves, store
      ensures Tracks()
      ensures meanwhile == if old(meanwhile) == [] then [] else old(meanwhile)[1..]
    {
      if meanwhile == [] {
        return;
      }
      var acts := meanwhile[0];
      meanwhile := meanwhile[1..];
      for i := 0 to |acts|
        invariant Tracks()
        invariant meanwhile == old(meanwhile)[1..]
      {
        if acts[i].TakeItem? || acts[i].Leave? {
          ActOnChannel(acts[i]);
        } else {
          ActOnStore(acts[i]);
        }
      }
    }

    /** The task's own next move. */
    method Moved(ghost before: World, ghost m: Move)
      requires Authorised(rq, begun) && Exec(rq, Start(begun), moves) == Some(before)
      requires Enabled(rq, before, m) && Valid(h) && Run(h) == store.View()
      requires before.h == h && Do(rq, before, m) == Here()
      modifies this`moves
      ensures Tracks()
    {
      ghost var did := moves;
      moves := moves + [m];
      Recorded(before, did, m);
    }

    /** Send an item, waiting for room while anyone may still make some. */
    method Push(item: Item) returns (sent: bool, waiting: bool)
      requires Tracks() && pc == Sending(item)
      modifies this, store
      ensures Tracks() && next == old(next)
      ensures waiting ==> pc == Sending(item) && Blocked() && !sent
      ensures !waiting ==> pc == if sent && item.Chunk? then Awaiting else Finished
    {
      hide Exec, Authorised, Valid, Run;
      while |queue| >= CHANNEL_CAPACITY && !hungUp && meanwhile != []
        invariant Tracks() && pc == Sending(item) && next == old(next)
        decreases |meanwhile|
      {
        Others();
      }
      ghost var before := Here();
      if hungUp {
        pc := Finished;
        Moved(before, Send);
        return false, false;
      }
      if |queue| >= CHANNEL_CAPACITY {
        return false, true;
      }
      queue := queue + [item];
      pc := if item == RevokedFrame then Finished else Awaiting;
      Moved(before, Send);
      return true, false;
    }

    /** Check the bearer once more and pass the frame on, or the revoked frame in its place. */
    method PassOn(data: seq<Byte>) returns (more: bool, waiting: bool)
      requires Tracks() && pc == Checking(data)
      modifies this, store
      ensures Tracks() && next == old(next)
      ensures waiting ==> !more && Blocked()
      ensures !waiting ==> pc == if more then Awaiting else Finished
    {
      hide Exec, Authorised, Valid, Run;
      Others();
      var live := store.ContainsToken(rq.token);
      var item := if live then Chunk(data) else RevokedFrame;
      ghost var checking := Here();
      pc := Sending(item);
      Moved(checking, Check);
      Others();
      var sent: bool;
      sent, waiting := Push(item);
      more := sent && live;
    }

    /** The loop. It ends when upstream ends or fails, when the client has hung up or when the bearer
        is dead; otherwise it is left waiting for room. */
    method Loop() returns (ended: bool)
      requires Tracks() && pc == Awaiting && next <= |rq.upstream|
      modifies this, store
      ensures Tracks()
      ensures if ended then pc == Finished else Blocked()
    {
      hide Exec, Authorised, Valid, Run;
      while next < |rq.upstream|
        invariant Tracks() && pc == Awaiting && next <= |rq.upstream|
        decreases |rq.upstream| - next
      {
        Others();
        var frame := rq.upstream[next];
        ghost var fetching := Here();
        if frame.Failed? {
          pc := Finished;
          Moved(fetching, Fetch);
          return true;
        }
        next := next + 1;
        if frame.Trailers? {
          Moved(fetching, Fetch);
          continue;
        }
        pc := Checking(frame.bytes);
        Moved(fetching, Fetch);
        var more, waiting := PassOn(frame.bytes);
        if !more {
          return !waiting;
        }
      }
      Others();
      ghost var last := Here();
      pc := Finished;
      Moved(last, Fetch);
      return true;
    }
  }

  // ---------- The handler ----------

  /** What asking the model backend comes to. */
  datatype Backend = NoRequest | NoAnswer | Refuses(status: nat) | Streams(frames: seq<Frame>)

  datatype Reply =
    | InvalidBearer
    | BadUpstreamRequest
    | BackendUnavailable
    | BackendRejected(status: nat)
    | Relayed(task: Task, ended: bool)

  /** The token of an authorisation header. */
  function Bearer(header: Option<string>): (r: Option<string>)
    ensures r.Some? <==> header.Some? && "Bearer " <= header.value
    ensures r.Some? ==> header.value == "Bearer " + r.value
  {
    var prefix := "Bearer ";
    if header.Some? && prefix <= header.value then Some(header.value[|prefix|..]) else None
  }

  /** From every point of a task's run at which the bearer was dead: at most seventeen more frames, and a
      data frame fetched since is answered by the revoked frame. */
  ghost predicate WindsDown(t: Task)
    reads t
  {
    forall k :: 0 <= k <= |t.moves| ==>
      && Exec(t.rq, Start(t.begun), t.moves[..k]).Some?
      && var v := Exec(t.rq, Start(t.begun), t.moves[..k]).value;
      && Valid(v.h)
      && (t.rq.token !in Run(v.h).byToken ==>
            && CountChunks(t.delivered) <= CountChunks(v.relay.delivered) + 17
            && Answered(t.rq, v.relay, t.Here().relay))
  }

  /** What a task's client has seen: a prefix of the data frames before any upstream error and at most one
      revoked frame, which is sent only to a bearer that died since the request began; and a task that ended
      left nothing out unless the bearer died or the client left. */
  ghost predicate FairView(t: Task)
    reads t
  {
    && |t.queue| <= 16
    && (forall k :: 0 <= k <= |t.rq.upstream| && (k == |t.rq.upstream| || t.rq.upstream[k].Failed?) ==>
          IsView(t.delivered, Chunks(t.rq.upstream[..k])))
    && (RevokedFrame in t.delivered + t.queue ==> DiedSince(t.rq, |t.begun|, t.Here()))
    && (t.pc == Finished && !t.hungUp && RevokedFrame !in t.delivered + t.queue ==>
          exists k :: 0 <= k <= |t.rq.upstream| && t.delivered + t.queue == Chunks(t.rq.upstream[..k])
                      && (k == |t.rq.upstream| || t.rq.upstream[k].Failed?))
  }

  /** Every run of the loop has a fair view and winds down. */
  lemma Seen(t: Task)
    requires t.Tracks()
    ensures FairView(t) && (Fresh(t.h) ==> WindsDown(t))
  {
    hide Exec, Valid, Run, Do, Enabled, Chunks, Fresh;
    AlwaysTidy(t.rq, t.begun, t.moves);
    forall k | 0 <= k <= |t.rq.upstream| && (k == |t.rq.upstream| || t.rq.upstream[k].Failed?)
      ensures IsView(t.delivered, Chunks(t.rq.upstream[..k]))
    {
      ClientView(t.rq, t.begun, t.moves, k);
    }
    RevokedOnlyIfDead(t.rq, t.begun, t.moves);
    if Fresh(t.h) {
      forall k | 0 <= k <= |t.moves|
        ensures Exec(t.rq, Start(t.begun), t.moves[..k]).Some?
        ensures Valid(Exec(t.rq, Start(t.begun), t.moves[..k]).value.h)
        ensures var v := Exec(t.rq, Start(t.begun), t.moves[..k]).value;
                t.rq.token !in Run(v.h).byToken ==>
                  && CountChunks(t.delivered) <= CountChunks(v.relay.delivered) + 17
                  && Answered(t.rq, v.relay, t.Here().relay)
      {
        SeventeenAlong(t.rq, t.begun, t.moves, k);
        AnsweredAlong(t.rq, t.begun, t.moves, k);
      }
    }
  }

  /** A chat request on the shared store. Each refusal has its exact condition and leaves the store
      alone; otherwise the stream is relayed and, whatever others do meanwhile, the client's view is
      fair and winds down once the bearer is dead. */
  method Serve(header: Option<string>, backend: Backend, store: MemberStore, meanwhile: seq<seq<Act>>,
               ghost begun: seq<Event>)
    returns (reply: Reply)
    requires Valid(begun) && Run(begun) == store.View()
    modifies store
    ensures reply == InvalidBearer <==> Bearer(header).None? || Bearer(header).value !in old(store.byToken)
    ensures reply == BadUpstreamRequest <==> reply != InvalidBearer && backend == NoRequest
    ensures reply == BackendUnavailable <==> reply != InvalidBearer && backend == NoAnswer
    ensures forall c :: reply == BackendRejected(c) <==> reply != InvalidBearer && backend == Refuses(c)
    ensures !reply.Relayed? ==> store.View() == old(store.View())
    ensures reply.Relayed? ==>
      var t := reply.task;
      && Bearer(header) == Some(t.rq.token) && backend == Streams(t.rq.upstream)
      && t.store == store && t.begun == begun && t.Tracks() && begun <= t.h
      && (if reply.ended then t.pc == Finished else t.Blocked())
      && FairView(t)
      && (Fresh(t.h) ==> WindsDown(t))
  {
    hide Exec, Valid, Run, Do, Enabled, Chunks, Fresh, FairView, WindsDown;
    var token := Bearer(header);
    if token.None? {
      return InvalidBearer;
    }
    var live := store.ContainsToken(token.value);
    if !live {
      return InvalidBearer;
    }
    match backend
    case NoRequest => return BadUpstreamRequest;
    case NoAnswer => return BackendUnavailable;
    case Refuses(status) => return BackendRejected(status);
    case Streams(frames) =>
      var t := new Task(Request(frames, token.value), store, meanwhile, begun);
      var ended := t.Loop();
      Seen(t);
      HistoryGrows(t.rq, Start(begun), t.moves);
      return Relayed(t, ended);
  }
}
