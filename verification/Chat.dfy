/** The chat relay (src/chat.rs:50-96): a task that pulls upstream frames, re-checks the bearer before
    each one and pushes into a bounded channel, while a client reads and the store changes. */
module Chat {
  import opened Bits
  import opened Store
  import opened History

  const CHANNEL_CAPACITY: nat := 16

  /** What the upstream body yields. */
  datatype Frame = Data(bytes: seq<Byte>) | Trailers | Failed

  /** What the client can receive. */
  datatype Item = Chunk(bytes: seq<Byte>) | RevokedFrame

  /** Where the task is: waiting for a frame, about to check, about to send, or gone. */
  datatype Pc = Awaiting | Checking(data: seq<Byte>) | Sending(item: Item) | Finished

  datatype Relay = Relay(next: nat, pc: Pc, channel: seq<Item>, delivered: seq<Item>, hungUp: bool)

  /** The relay beside the history of the store. */
  datatype World = World(h: seq<Event>, relay: Relay)

  datatype Move = Fetch | Check | Send | Read | HangUp | StoreMove(event: Event)

  /** One chat request: its upstream frames and its bearer. */
  datatype Request = Request(upstream: seq<Frame>, token: string)

  predicate Enabled(rq: Request, w: World, m: Move) {
    Valid(w.h) &&
    match m
    case Fetch => w.relay.pc == Awaiting && w.relay.next <= |rq.upstream|
    case Check => w.relay.pc.Checking?
    case Send => w.relay.pc.Sending? && (w.relay.hungUp || |w.relay.channel| < CHANNEL_CAPACITY)
    case Read => !w.relay.hungUp && w.relay.channel != []
    case HangUp => !w.relay.hungUp
    case StoreMove(e) => Allowed(Run(w.h), e)
  }

  function Fetched(rq: Request, r: Relay): (s: Relay)
    requires r.next <= |rq.upstream|
  {
    if r.next == |rq.upstream| then r.(pc := Finished)
    else
      match rq.upstream[r.next]
      case Data(d) => r.(pc := Checking(d), next := r.next + 1)
      case Trailers => r.(next := r.next + 1)
      case Failed => r.(pc := Finished)
  }

  function Sent(r: Relay): (s: Relay)
    requires r.pc.Sending?
  {
    if r.hungUp then r.(pc := Finished)
    else r.(channel := r.channel + [r.pc.item], pc := if r.pc.item == RevokedFrame then Finished else Awaiting)
  }

  function Do(rq: Request, w: World, m: Move): (r: World)
    requires Enabled(rq, w, m)
  {
    var r := w.relay;
    match m
    case Fetch => w.(relay := Fetched(rq, r))
    case Check =>
      var item := if rq.token in Run(w.h).byToken then Chunk(r.pc.data) else RevokedFrame;
      w.(relay := r.(pc := Sending(item)))
    case Send => w.(relay := Sent(r))
    case Read => w.(relay := r.(channel := r.channel[1..], delivered := r.delivered + [r.channel[0]]))
    case HangUp => w.(relay := r.(hungUp := true, channel := []))
    case StoreMove(e) => w.(h := w.h + [e])
  }

  /** The request was authorised with a live bearer; nothing has been relayed yet. */
  function Start(h: seq<Event>): (w: World) {
    World(h, Relay(0, Awaiting, [], [], false))
  }

  predicate Authorised(rq: Request, h: seq<Event>) {
    Valid(h) && rq.token in Run(h).byToken
  }

  /** The world after a run of moves from a given one, if each was possible where it stands. */
  function Exec(rq: Request, w: World, moves: seq<Move>): (r: Option<World>) {
    if moves == [] then Some(w)
    else
      match Exec(rq, w, Front(moves))
      case None => None
      case Some(v) => if Enabled(rq, v, Last(moves)) then Some(Do(rq, v, Last(moves))) else None
  }

  // ---------- What the client sees ----------

  function Chunks(frames: seq<Frame>): (r: seq<Item>) {
    if frames == [] then []
    else Chunks(Front(frames)) + match Last(frames) case Data(d) => [Chunk(d)] case _ => []
  }

  /** Frame by frame and in order: a data frame is one item, anything else is none. */
  lemma {:induction false} ChunksFrameByFrame(a: seq<Frame>, b: seq<Frame>, data: seq<Byte>)
    ensures Chunks(a + b) == Chunks(a) + Chunks(b)
    ensures Chunks([]) == Chunks([Trailers]) == Chunks([Failed]) == [] && Chunks([Data(data)]) == [Chunk(data)]
    decreases |b|
  {
    assert Front([Trailers]) == [] == Front([Failed]) && Front([Data(data)]) == [];
    if b == [] {
      assert a + b == a;
    } else {
      ChunksFrameByFrame(a, Front(b), data);
      assert Front(a + b) == a + Front(b) && Last(a + b) == Last(b);
    }
  }

  /** A prefix of the data frames, then at most one revoked frame, then nothing. */
  ghost predicate IsView(seen: seq<Item>, all: seq<Item>) {
    seen <= all || (seen != [] && Last(seen) == RevokedFrame && Front(seen) <= all)
  }

  /** A task that is gone pushed everything up to the end or to an upstream error, or it pushed the
      revoked frame. */
  ghost predicate Ended(rq: Request, next: nat, pushed: seq<Item>, all: seq<Item>)
    requires next <= |rq.upstream|
  {
    || (pushed == all && (next == |rq.upstream| || rq.upstream[next].Failed?))
    || (pushed != [] && Last(pushed) == RevokedFrame && Front(pushed) <= all)
  }

  /** What has been pushed so far, seen from where the task stands. */
  ghost predicate Tidy(rq: Request, r: Relay) {
    && r.next <= |rq.upstream| && |r.channel| <= 16 && (r.hungUp ==> r.channel == [])
    && (forall k :: 0 <= k < r.next ==> !rq.upstream[k].Failed?)
    && IsView(r.delivered, Chunks(rq.upstream[..r.next]))
    && (!r.hungUp ==>
          var all, pushed := Chunks(rq.upstream[..r.next]), r.delivered + r.channel;
          match r.pc
          case Awaiting => pushed == all
          case Checking(d) => all == pushed + [Chunk(d)]
          case Sending(Chunk(d)) => all == pushed + [Chunk(d)]
          case Sending(RevokedFrame) => pushed <= all
          case Finished => Ended(rq, r.next, pushed, all))
  }

  lemma {:induction false} ChunksPrefix(frames: seq<Frame>, k: nat)
    requires k <= |frames|
    ensures Chunks(frames[..k]) <= Chunks(frames)
  {
    if k < |frames| {
      ChunksPrefix(Front(frames), k);
      assert Front(frames)[..k] == frames[..k];
    } else {
      assert frames[..k] == frames;
    }
  }

  lemma ChunksNext(frames: seq<Frame>, k: nat)
    requires k < |frames|
    ensures Chunks(frames[..k + 1]) == Chunks(frames[..k]) + match frames[k] case Data(d) => [Chunk(d)] case _ => []
  {
    assert Front(frames[..k + 1]) == frames[..k] && Last(frames[..k + 1]) == frames[k];
  }

  lemma ViewOfPrefix(d: seq<Item>, pushed: seq<Item>, all: seq<Item>, whole: seq<Item>)
    requires d <= pushed && IsView(pushed, all) && all <= whole
    ensures IsView(d, whole)
  {
    if !(pushed <= all) {
      if d != pushed {
        assert d <= Front(pushed);
      }
    }
  }

  lemma TidyFetch(rq: Request, r: Relay)
    requires Tidy(rq, r) && r.pc == Awaiting
    ensures Tidy(rq, Fetched(rq, r))
  {
    hide Chunks;
    if r.next < |rq.upstream| {
      ChunksNext(rq.upstream, r.next);
      ViewOfPrefix(r.delivered, r.delivered, Chunks(rq.upstream[..r.next]), Chunks(rq.upstream[..r.next + 1]));
    }
  }

  lemma TidySend(rq: Request, r: Relay)
    requires Tidy(rq, r) && r.pc.Sending? && (r.hungUp || |r.channel| < CHANNEL_CAPACITY)
    ensures Tidy(rq, Sent(r))
  {
    hide Chunks;
    if !r.hungUp {
      var pushed := r.delivered + r.channel;
      assert r.delivered + (r.channel + [r.pc.item]) == pushed + [r.pc.item];
      assert Front(pushed + [r.pc.item]) == pushed && Last(pushed + [r.pc.item]) == r.pc.item;
    }
  }

  /** What the client may read is the start of what was pushed, so it is a view too. */
  lemma TidyRead(rq: Request, r: Relay)
    requires Tidy(rq, r) && !r.hungUp && r.channel != []
    ensures Tidy(rq, r.(channel := r.channel[1..], delivered := r.delivered + [r.channel[0]]))
  {
    hide Chunks;
    var d, all := r.delivered + [r.channel[0]], Chunks(rq.upstream[..r.next]);
    var pushed := r.delivered + r.channel;
    assert d + r.channel[1..] == pushed;
    assert d <= pushed;
    assert IsView(pushed, all);
    ViewOfPrefix(d, pushed, all, all);
  }

  lemma TidyStep(rq: Request, w: World, m: Move)
    requires Tidy(rq, w.relay) && Enabled(rq, w, m)
    ensures Tidy(rq, Do(rq, w, m).relay)
  {
    hide Chunks, Valid, Fetched, Sent;
    match m
    case Fetch => TidyFetch(rq, w.relay);
    case Check =>
    case Send => TidySend(rq, w.relay);
    case Read => TidyRead(rq, w.relay);
    case HangUp =>
    case StoreMove(_) =>
  }

  lemma {:induction false} AlwaysTidy(rq: Request, h: seq<Event>, moves: seq<Move>)
    requires Authorised(rq, h) && Exec(rq, Start(h), moves).Some?
    ensures Tidy(rq, Exec(rq, Start(h), moves).value.relay)
  {
    hide Do, Enabled, Authorised;
    if moves == [] {
      assert rq.upstream[..0] == [];
    } else {
      AlwaysTidy(rq, h, Front(moves));
      TidyStep(rq, Exec(rq, Start(h), Front(moves)).value, Last(moves));
    }
  }

  /** In every interleaving the client sees a prefix of the upstream data frames, those before any
      upstream error, then at most one revoked frame, then nothing; and at most sixteen items wait. */
  lemma ClientView(rq: Request, h: seq<Event>, moves: seq<Move>, k: nat)
    requires Authorised(rq, h) && Exec(rq, Start(h), moves).Some?
    requires k <= |rq.upstream| && (k == |rq.upstream| || rq.upstream[k].Failed?)
    ensures var r := Exec(rq, Start(h), moves).value.relay;
            |r.channel| <= 16 && r.next <= k && IsView(r.delivered, Chunks(rq.upstream[..k]))
  {
    AlwaysTidy(rq, h, moves);
    var r := Exec(rq, Start(h), moves).value.relay;
    hide Exec, Chunks;
    ChunksPrefix(rq.upstream[..k], r.next);
    assert rq.upstream[..k][..r.next] == rq.upstream[..r.next];
    ViewOfPrefix(r.delivered, r.delivered, Chunks(rq.upstream[..r.next]), Chunks(rq.upstream[..k]));
  }

  /** A task that ended, with a client that read everything, either relayed every data frame up to
      the end or an upstream error, or closed with the revoked frame. */
  lemma NothingLost(rq: Request, h: seq<Event>, moves: seq<Move>)
    requires Authorised(rq, h) && Exec(rq, Start(h), moves).Some?
    ensures var r := Exec(rq, Start(h), moves).value.relay;
            && r.next <= |rq.upstream|
            && (r.pc == Finished && !r.hungUp && r.channel == [] ==>
                  || (r.delivered == Chunks(rq.upstream[..r.next])
                      && (r.next == |rq.upstream| || rq.upstream[r.next].Failed?))
                  || (r.delivered != [] && Last(r.delivered) == RevokedFrame))
  {
    AlwaysTidy(rq, h, moves);
    var r := Exec(rq, Start(h), moves).value.relay;
    hide Exec, Chunks;
    assert r.channel == [] ==> r.delivered + r.channel == r.delivered;
  }

  // ---------- The revoked frame ----------

  predicate Announced(r: Relay) {
    r.pc == Sending(RevokedFrame) || RevokedFrame in r.channel || RevokedFrame in r.delivered
  }

  lemma MoveGrows(rq: Request, w: World, m: Move)
    requires Enabled(rq, w, m)
    ensures w.h <= Do(rq, w, m).h && Valid(Do(rq, w, m).h)
  {
    hide Fetched, Sent, Step, Allowed;
    if m.StoreMove? {
      var h := w.h + [m.event];
      assert Front(h) == w.h && Last(h) == m.event;
    }
  }

  lemma {:induction false} HistoryGrows(rq: Request, w: World, moves: seq<Move>)
    requires Valid(w.h) && Exec(rq, w, moves).Some?
    ensures w.h <= Exec(rq, w, moves).value.h && Valid(Exec(rq, w, moves).value.h)
  {
    hide Do, Enabled, Valid;
    if moves != [] {
      HistoryGrows(rq, w, Front(moves));
      MoveGrows(rq, Exec(rq, w, Front(moves)).value, Last(moves));
    }
  }

  /** The bearer was dead at some point after the first n store steps. */
  ghost predicate DiedSince(rq: Request, n: nat, w: World) {
    exists k :: n <= k <= |w.h| && Valid(w.h[..k]) && rq.token !in Run(w.h[..k]).byToken
  }

  lemma DiedStays(rq: Request, n: nat, v: World, w: World)
    requires DiedSince(rq, n, v) && v.h <= w.h
    ensures DiedSince(rq, n, w)
  {
    var k :| n <= k <= |v.h| && Valid(v.h[..k]) && rq.token !in Run(v.h[..k]).byToken;
    assert w.h[..k] == v.h[..k];
  }

  /** The revoked frame appears only if the bearer, live when the request was authorised, died since. */
  lemma {:induction false} RevokedOnlyIfDead(rq: Request, h: seq<Event>, moves: seq<Move>)
    requires Authorised(rq, h) && Exec(rq, Start(h), moves).Some?
    ensures Announced(Exec(rq, Start(h), moves).value.relay) ==>
              DiedSince(rq, |h|, Exec(rq, Start(h), moves).value)
  {
    hide Step, Allowed, Valid;
    if moves != [] {
      var f := Front(moves);
      RevokedOnlyIfDead(rq, h, f);
      HistoryGrows(rq, Start(h), f);
      HistoryGrows(rq, Start(h), moves);
      var v, w := Exec(rq, Start(h), f).value, Exec(rq, Start(h), moves).value;
      assert v.h <= w.h;
      if Announced(v.relay) {
        DiedStays(rq, |h|, v, w);
      } else if Announced(w.relay) {
        assert Last(moves) == Check && rq.token !in Run(v.h).byToken;
        assert w.h[..|w.h|] == w.h == v.h;
      }
    }
  }

  // ---------- How much still comes after the bearer dies ----------

  function CountChunks(q: seq<Item>): (n: nat)
    ensures n <= |q|
  {
    if q == [] then 0 else CountChunks(Front(q)) + if Last(q).Chunk? then 1 else 0
  }

  /** Data frames delivered, queued, or past the check. */
  function Owed(r: Relay): (n: nat) {
    CountChunks(r.delivered) + CountChunks(r.channel) + if r.pc.Sending? && r.pc.item.Chunk? then 1 else 0
  }

  lemma CountPush(q: seq<Item>, x: Item)
    ensures CountChunks(q + [x]) == CountChunks(q) + if x.Chunk? then 1 else 0
  {
    assert Front(q + [x]) == q;
  }

  lemma {:induction false} CountPop(q: seq<Item>)
    requires q != []
    ensures CountChunks(q) == CountChunks(q[1..]) + if q[0].Chunk? then 1 else 0
  {
    if |q| > 1 {
      CountPop(Front(q));
      assert Front(q)[1..] == Front(q[1..]) && Last(q[1..]) == Last(q);
    }
  }

  lemma CountNothing()
    ensures CountChunks([]) == 0
  {
  }

  /** Only a check with a live bearer lets another data frame through. */
  lemma OwedStep(rq: Request, w: World, m: Move)
    requires Enabled(rq, w, m) && (m == Check ==> rq.token !in Run(w.h).byToken)
    ensures Owed(Do(rq, w, m).relay) <= Owed(w.relay)
  {
    hide Valid, CountChunks;
    var r := w.relay;
    match m
    case Fetch =>
    case Check =>
    case Send =>
      CountPush(r.channel, r.pc.item);
    case Read =>
      CountPush(r.delivered, r.channel[0]);
      CountPop(r.channel);
    case HangUp =>
      CountNothing();
    case StoreMove(_) =>
  }

  lemma FreshPrefix(h: seq<Event>, all: seq<Event>)
    requires h <= all && Fresh(all)
    ensures Fresh(h)
  {
    assert forall i :: 0 <= i < |h| ==> h[i] == all[i];
  }

  lemma DeadAlong(h: seq<Event>, all: seq<Event>, token: string)
    requires h <= all && Valid(h) && Valid(all) && Fresh(all) && token in Drawn(h) && token !in Run(h).byToken
    ensures token !in Run(all).byToken
  {
    assert all == h + all[|h|..];
    DeadStaysDead(h, all[|h|..], token);
  }

  lemma {:induction false} OwedNeverGrows(rq: Request, w: World, moves: seq<Move>)
    requires Valid(w.h) && rq.token !in Run(w.h).byToken && rq.token in Drawn(w.h)
    requires Exec(rq, w, moves).Some? && Fresh(Exec(rq, w, moves).value.h)
    ensures Owed(Exec(rq, w, moves).value.relay) <= Owed(w.relay)
  {
    hide Owed, Fetched, Sent, Valid, Drawn, Fresh;
    if moves != [] {
      var f := Front(moves);
      HistoryGrows(rq, w, f);
      var v := Exec(rq, w, f).value;
      assert v.h <= Do(rq, v, Last(moves)).h;
      hide Do, Enabled;
      FreshPrefix(v.h, Exec(rq, w, moves).value.h);
      OwedNeverGrows(rq, w, f);
      DeadAlong(w.h, v.h, rq.token);
      OwedStep(rq, v, Last(moves));
    }
  }

  lemma LiveWasDrawn(h: seq<Event>, token: string)
    requires Valid(h) && Fresh(h) && token in Run(h).byToken
    ensures token in Drawn(h)
  {
    IndexAlwaysSound(h);
    QueueDrawn(h, Run(h).byToken[token]);
  }

  lemma TidyCap(rq: Request, r: Relay)
    requires Tidy(rq, r)
    ensures |r.channel| <= 16
  {
  }

  lemma DrawnGrows(h: seq<Event>, all: seq<Event>)
    requires h <= all
    ensures Drawn(h) <= Drawn(all)
  {
    assert forall e :: e in h ==> e in all;
  }

  /** Once the bearer is dead, at most seventeen more data frames reach the client: those
      queued and one already past the check. */
  lemma AtMostSeventeen(rq: Request, h: seq<Event>, moves: seq<Move>, more: seq<Move>)
    requires Authorised(rq, h) && Exec(rq, Start(h), moves).Some?
    requires var w := Exec(rq, Start(h), moves).value;
             && Valid(w.h) && rq.token !in Run(w.h).byToken
             && Exec(rq, w, more).Some? && Fresh(Exec(rq, w, more).value.h)
    ensures var w := Exec(rq, Start(h), moves).value;
            CountChunks(Exec(rq, w, more).value.relay.delivered)
            <= CountChunks(w.relay.delivered) + 17
  {
    hide Do, Enabled, Tidy, Drawn, Fresh;
    var w := Exec(rq, Start(h), moves).value;
    HistoryGrows(rq, Start(h), moves);
    HistoryGrows(rq, w, more);
    FreshPrefix(h, Exec(rq, w, more).value.h);
    LiveWasDrawn(h, rq.token);
    DrawnGrows(h, w.h);
    OwedNeverGrows(rq, w, more);
    AlwaysTidy(rq, h, moves);
    assert |w.relay.channel| <= 16 by { TidyCap(rq, w.relay); }
  }

  lemma {:induction false} ExecSplit(rq: Request, w: World, a: seq<Move>, b: seq<Move>)
    requires Exec(rq, w, a + b).Some?
    ensures Exec(rq, w, a).Some? && Exec(rq, Exec(rq, w, a).value, b) == Exec(rq, w, a + b)
    decreases |b|
  {
    hide Do, Enabled;
    if b == [] {
      assert a + b == a;
    } else {
      assert Front(a + b) == a + Front(b) && Last(a + b) == Last(b);
      ExecSplit(rq, w, a, Front(b));
    }
  }

  /** The same along one run: from any point at which the bearer is dead to its end. */
  lemma SeventeenAlong(rq: Request, h: seq<Event>, moves: seq<Move>, k: nat)
    requires Authorised(rq, h) && k <= |moves| && Exec(rq, Start(h), moves).Some?
    requires Fresh(Exec(rq, Start(h), moves).value.h)
    ensures Exec(rq, Start(h), moves[..k]).Some?
    ensures var v, w := Exec(rq, Start(h), moves[..k]).value, Exec(rq, Start(h), moves).value;
            Valid(v.h) && (rq.token !in Run(v.h).byToken ==>
              CountChunks(w.relay.delivered) <= CountChunks(v.relay.delivered) + 17)
  {
    hide Exec, Valid, Fresh, CountChunks;
    assert moves == moves[..k] + moves[k..];
    ExecSplit(rq, Start(h), moves[..k], moves[k..]);
    HistoryGrows(rq, Start(h), moves[..k]);
    if rq.token !in Run(Exec(rq, Start(h), moves[..k]).value.h).byToken {
      AtMostSeventeen(rq, h, moves[..k], moves[k..]);
    }
  }

  // ---------- The dead bearer is told ----------

  /** Between two points of a run: a task that finished, with the client still there and no revoked
      frame, fetched no data frame in between. */
  predicate Answered(rq: Request, before: Relay, r: Relay) {
    r.pc == Finished && !r.hungUp && !Announced(r) ==>
      && before.next <= r.next <= |rq.upstream|
      && Chunks(rq.upstream[before.next..r.next]) == []
  }

  /** Since position n every data frame was answered by the revoked frame or waits for its check. */
  predicate Silent(rq: Request, n: nat, r: Relay) {
    && n <= r.next <= |rq.upstream|
    && (r.hungUp || Announced(r) || r.pc.Checking? || Chunks(rq.upstream[n..r.next]) == [])
  }

  lemma SilentFetch(rq: Request, n: nat, r: Relay)
    requires Silent(rq, n, r) && r.pc == Awaiting
    ensures Silent(rq, n, Fetched(rq, r))
  {
    if r.next < |rq.upstream| {
      var now, later := rq.upstream[n..r.next], rq.upstream[n..r.next + 1];
      assert Front(later) == now && Last(later) == rq.upstream[r.next];
    }
  }

  lemma SilentStep(rq: Request, n: nat, w: World, m: Move)
    requires Silent(rq, n, w.relay) && Enabled(rq, w, m) && (m == Check ==> rq.token !in Run(w.h).byToken)
    ensures Silent(rq, n, Do(rq, w, m).relay)
  {
    hide Valid, Chunks, Fetched;
    if m == Fetch {
      SilentFetch(rq, n, w.relay);
    } else if m == Send && !w.relay.hungUp && Announced(w.relay) {
      assert RevokedFrame in w.relay.channel + [w.relay.pc.item] || RevokedFrame in w.relay.delivered;
    } else if m == Read && RevokedFrame in w.relay.channel {
      var q := w.relay.channel;
      assert q == [q[0]] + q[1..];
    }
  }

  lemma {:induction false} StaysSilent(rq: Request, w: World, moves: seq<Move>)
    requires Valid(w.h) && rq.token !in Run(w.h).byToken && rq.token in Drawn(w.h) && w.relay.next <= |rq.upstream|
    requires Exec(rq, w, moves).Some? && Fresh(Exec(rq, w, moves).value.h)
    ensures Silent(rq, w.relay.next, Exec(rq, w, moves).value.relay)
  {
    hide Fetched, Sent, Valid, Drawn, Fresh;
    if moves == [] {
      assert rq.upstream[w.relay.next..w.relay.next] == [];
    } else {
      var f := Front(moves);
      HistoryGrows(rq, w, f);
      var v := Exec(rq, w, f).value;
      assert v.h <= Do(rq, v, Last(moves)).h;
      hide Do, Enabled, Silent;
      FreshPrefix(v.h, Exec(rq, w, moves).value.h);
      StaysSilent(rq, w, f);
      DeadAlong(w.h, v.h, rq.token);
      SilentStep(rq, w.relay.next, v, Last(moves));
    }
  }

  /** From any point of a run at which the bearer is dead: if the task then finishes while the client is
      there, either the revoked frame is on its way or nothing was left to answer. */
  lemma AnsweredAlong(rq: Request, h: seq<Event>, moves: seq<Move>, k: nat)
    requires Authorised(rq, h) && k <= |moves| && Exec(rq, Start(h), moves).Some?
    requires Fresh(Exec(rq, Start(h), moves).value.h)
    ensures Exec(rq, Start(h), moves[..k]).Some?
    ensures var v, w := Exec(rq, Start(h), moves[..k]).value, Exec(rq, Start(h), moves).value;
            Valid(v.h) && (rq.token !in Run(v.h).byToken ==> Answered(rq, v.relay, w.relay))
  {
    hide Exec, Valid, Fresh, Chunks, Drawn;
    assert moves == moves[..k] + moves[k..];
    ExecSplit(rq, Start(h), moves[..k], moves[k..]);
    HistoryGrows(rq, Start(h), moves[..k]);
    var v := Exec(rq, Start(h), moves[..k]).value;
    HistoryGrows(rq, v, moves[k..]);
    if rq.token !in Run(v.h).byToken {
      FreshPrefix(h, Exec(rq, Start(h), moves).value.h);
      LiveWasDrawn(h, rq.token);
      DrawnGrows(h, v.h);
      AlwaysTidy(rq, h, moves[..k]);
      StaysSilent(rq, v, moves[k..]);
    }
  }

  // ---------- A client that hung up ----------

  /** Nothing more is delivered, and the task takes at most one more data frame before it ends. */
  predicate WrapsUp(rq: Request, before: Relay, r: Relay) {
    && r.hungUp && r.delivered == before.delivered && before.next <= r.next <= |rq.upstream|
    && var taken := |Chunks(rq.upstream[before.next..r.next])|;
       taken == 0 || (taken == 1 && r.pc != Awaiting)
  }

  lemma WrapsUpStep(rq: Request, before: Relay, w: World, m: Move)
    requires WrapsUp(rq, before, w.relay) && Enabled(rq, w, m)
    ensures WrapsUp(rq, before, Do(rq, w, m).relay)
  {
    hide Valid, Run;
    var r := w.relay;
    if m == Fetch && r.next < |rq.upstream| {
      var now, later := rq.upstream[before.next..r.next], rq.upstream[before.next..r.next + 1];
      assert Front(later) == now && Last(later) == rq.upstream[r.next];
    }
  }

  /** After a hang-up nothing is delivered and at most one more data frame is fetched from upstream. */
  lemma {:induction false} HangUpStops(rq: Request, w: World, moves: seq<Move>)
    requires w.relay.hungUp && w.relay.next <= |rq.upstream| && Exec(rq, w, moves).Some?
    ensures var r := Exec(rq, w, moves).value.relay;
            && r.delivered == w.relay.delivered && w.relay.next <= r.next <= |rq.upstream|
            && |Chunks(rq.upstream[w.relay.next..r.next])| <= 1
    ensures WrapsUp(rq, w.relay, Exec(rq, w, moves).value.relay)
  {
    hide Do, Enabled;
    if moves == [] {
      assert rq.upstream[w.relay.next..w.relay.next] == [];
    } else {
      HangUpStops(rq, w, Front(moves));
      WrapsUpStep(rq, w.relay, Exec(rq, w, Front(moves)).value, Last(moves));
    }
  }

  // ---------- The bound is reached ----------

  function Blanks(n: nat): (r: seq<Item>)
    ensures |r| == n
  {
    seq(n, _ => Chunk([]))
  }

  /** Three moves per frame until n frames are queued. */
  function Fill(n: nat): (moves: seq<Move>) {
    if n == 0 then [] else Fill(n - 1) + [Fetch] + [Check] + [Send]
  }

  function Reads(n: nat): (moves: seq<Move>) {
    if n == 0 then [] else Reads(n - 1) + [Read]
  }

  lemma ExecSnoc(rq: Request, w: World, moves: seq<Move>, m: Move)
    requires Exec(rq, w, moves).Some? && Enabled(rq, Exec(rq, w, moves).value, m)
    ensures Exec(rq, w, moves + [m]) == Some(Do(rq, Exec(rq, w, moves).value, m))
  {
    hide Do, Enabled;
    assert Front(moves + [m]) == moves && Last(moves + [m]) == m;
  }

  lemma StartRuns(rq: Request, h: seq<Event>)
    ensures Exec(rq, Start(h), []) == Some(World(h, Relay(0, Awaiting, Blanks(0), [], false)))
  {
  }

  lemma {:induction false} FillRuns(rq: Request, h: seq<Event>, n: nat)
    requires Authorised(rq, h) && n <= CHANNEL_CAPACITY && n <= |rq.upstream|
    requires forall i :: 0 <= i < |rq.upstream| ==> rq.upstream[i] == Data([])
    ensures Exec(rq, Start(h), Fill(n)) == Some(World(h, Relay(n, Awaiting, Blanks(n), [], false)))
  {
    hide Exec, Valid;
    if n == 0 {
      StartRuns(rq, h);
    } else {
      FillRuns(rq, h, n - 1);
      var f := Fill(n - 1);
      ExecSnoc(rq, Start(h), f, Fetch);
      ExecSnoc(rq, Start(h), f + [Fetch], Check);
      ExecSnoc(rq, Start(h), f + [Fetch] + [Check], Send);
      assert Blanks(n - 1) + [Chunk([])] == Blanks(n);
    }
  }

  lemma {:induction false} ReadsRun(rq: Request, w: World, moves: seq<Move>, a: nat, b: nat, n: nat)
    requires Exec(rq, w, moves).Some? && n <= a
    requires var r := Exec(rq, w, moves).value;
             Valid(r.h) && !r.relay.hungUp && r.relay.channel == Blanks(a) && r.relay.delivered == Blanks(b)
    ensures Exec(rq, w, moves + Reads(n))
            == Some(Exec(rq, w, moves).value.(
                      relay := Exec(rq, w, moves).value.relay.(channel := Blanks(a - n), delivered := Blanks(b + n))))
  {
    hide Exec, Valid;
    if n == 0 {
      assert moves + Reads(0) == moves;
    } else {
      ReadsRun(rq, w, moves, a, b, n - 1);
      assert moves + Reads(n) == moves + Reads(n - 1) + [Read];
      ExecSnoc(rq, w, moves + Reads(n - 1), Read);
      assert Blanks(a - n + 1)[1..] == Blanks(a - n) && Blanks(b + n - 1) + [Chunk([])] == Blanks(b + n);
    }
  }

  lemma {:induction false} CountBlanks(n: nat)
    ensures CountChunks(Blanks(n)) == n
  {
    if n > 0 {
      CountBlanks(n - 1);
      assert Front(Blanks(n)) == Blanks(n - 1);
    }
  }

  lemma ExecNothing(rq: Request, w: World)
    ensures Exec(rq, w, []) == Some(w)
  {
  }

  /** A revoke that lands with a full channel and one frame past the check: all seventeen arrive. */
  lemma SeventeenReached(rq: Request, h: seq<Event>, revoke: Event, moves: seq<Move>, more: seq<Move>)
    requires Authorised(rq, h) && rq.upstream == seq(17, _ => Data([]))
    requires Allowed(Run(h), revoke) && Valid(h + [revoke]) && rq.token !in Run(h + [revoke]).byToken
    requires moves == Fill(16) + [Fetch] + [Check] + [StoreMove(revoke)]
    requires more == [Read] + [Send] + Reads(16)
    ensures Exec(rq, Start(h), moves).Some?
    ensures var w := Exec(rq, Start(h), moves).value;
            && w.h == h + [revoke] && CountChunks(w.relay.delivered) == 0
            && Exec(rq, w, more).Some? && CountChunks(Exec(rq, w, more).value.relay.delivered) == 17
  {
    hide Exec, Valid, Run, Allowed, Fill;
    FillRuns(rq, h, 16);
    ExecSnoc(rq, Start(h), Fill(16), Fetch);
    ExecSnoc(rq, Start(h), Fill(16) + [Fetch], Check);
    ExecSnoc(rq, Start(h), Fill(16) + [Fetch] + [Check], StoreMove(revoke));
    var w := Exec(rq, Start(h), moves).value;
    assert w == World(h + [revoke], Relay(17, Sending(Chunk([])), Blanks(16), [], false));
    ExecNothing(rq, w);
    ExecSnoc(rq, w, [], Read);
    assert [] + [Read] == [Read] && Blanks(16)[1..] == Blanks(15) && [] + [Chunk([])] == Blanks(1);
    ExecSnoc(rq, w, [Read], Send);
    assert Blanks(15) + [Chunk([])] == Blanks(16);
    ReadsRun(rq, w, [Read] + [Send], 16, 1, 16);
    CountBlanks(0);
    CountBlanks(17);
  }

  lemma EnrolThenRevoke(e: MemberEntry)
    ensures var h, revoke := [Enrol(e)], Revoke(e.memberHash, Some(e.clientPubkey));
            && Valid(h) && e.sessionToken in Run(h).byToken && Allowed(Run(h), revoke)
            && Valid(h + [revoke]) && e.sessionToken !in Run(h + [revoke]).byToken
  {
    var h, revoke := [Enrol(e)], Revoke(e.memberHash, Some(e.clientPubkey));
    var all := h + [revoke];
    assert Front(h) == [] && Front(all) == h && Last(all) == revoke;
    InsertedParts(EMPTY, e);
    var s := Inserted(EMPTY, e);
    ForgottenParts(s, e.clientPubkey);
    assert Newest([] + [e.sessionToken], DEVICE_CAP) == [e.sessionToken];
    assert e.sessionToken in Sessions(s, e.clientPubkey);
    assert Outcome(h) == Some(s) by {
      assert Outcome([]) == Some(EMPTY);
    }
    assert Allowed(s, revoke) && Step(s, revoke) == Forgotten(s, e.clientPubkey);
    hide Step, Allowed, Forgotten, Inserted;
    assert Outcome(all) == Some(Forgotten(s, e.clientPubkey));
  }

  /** One enrol and its revoke supply such a revoke, so the bound is reached in a real run. */
  lemma SeventeenHappens(e: MemberEntry) returns (moves: seq<Move>, more: seq<Move>)
    ensures var rq, h := Request(seq(17, _ => Data([])), e.sessionToken), [Enrol(e)];
            && Authorised(rq, h) && Exec(rq, Start(h), moves).Some?
            && var w := Exec(rq, Start(h), moves).value;
            && Valid(w.h) && Fresh(w.h) && rq.token !in Run(w.h).byToken && CountChunks(w.relay.delivered) == 0
            && Exec(rq, w, more).Some? && CountChunks(Exec(rq, w, more).value.relay.delivered) == 17
  {
    var rq, h, revoke := Request(seq(17, _ => Data([])), e.sessionToken), [Enrol(e)],
                         Revoke(e.memberHash, Some(e.clientPubkey));
    EnrolThenRevoke(e);
    moves := Fill(16) + [Fetch] + [Check] + [StoreMove(revoke)];
    more := [Read] + [Send] + Reads(16);
    hide Exec, Valid, Run, Allowed, Fill, CountChunks, Reads;
    SeventeenReached(rq, h, revoke, moves, more);
  }
}
