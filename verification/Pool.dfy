// The connection pool of src/kachedb/pool.py shared by threads (or tasks), with the calls
// src/kachedb/client.py makes on a borrowed connection, as a transition system.  Every lock
// section, queue operation, connect, health check, send and read is one atomic action.
module Pool {
  import opened RespCodec

  type Thread = nat

  type Conn = nat

  // A request sent to the server, PING and AUTH included.  Requests are numbered in the order in
  // which they are sent; the server answers each with one reply, in order on each connection.
  type Request = nat

  datatype Config = Config(max: nat, isAsync: bool, password: bool)

  // What the slot of a connection is being used for.
  datatype Phase =
    | Idle                 // in the queue
    | Checking(t: Thread)  // taken from the queue, health not yet known
    | Stale(t: Thread)     // closed after the check, slot to be given back before a new one is made
    | Creating(t: Thread)  // slot reserved, connect() running
    | Authing(t: Thread)   // connected, AUTH running
    | Refused(t: Thread)   // closed, slot to be given back before the call raises
    | Held(t: Thread)      // handed out
    | Dropping(t: Thread)  // closed on release, slot to be given back
    | Leaked               // the call raised without giving the slot back
    | Drained              // closed by disconnect_all, which has not yet reset the count

  // A frame the server sends: a reply, or an element of one whose first error has been read.
  datatype Frame = Frame(to: Request, reply: Reply)

  // unread: the frames not yet read, in the order in which they arrive; awaiting: the requests
  // whose replies the borrower still means to read.
  datatype Slot = Slot(phase: Phase, open: bool, unread: seq<Frame>, awaiting: seq<Request>)

  // What a thread does: Raising, when it has read an error and will let an exception out.
  datatype Pc = Outside | Reserving | Occupied | Draining | Zeroing | Raising(c: Conn)

  // A finished request, and the request whose reply came back for it.
  datatype Exchange = Exchange(sent: Request, answered: Request)

  datatype State = State(
    active: int,
    queue: seq<Conn>,
    slots: map<Conn, Slot>,
    pc: map<Thread, Pc>,
    sent: nat,
    history: seq<Exchange>)
  {
    function At(t: Thread): Pc { if t in pc then pc[t] else Outside }

    predicate In(c: Conn, phase: Phase) { c in slots && slots[c].phase == phase }

    // A thread is about its own business with a connection it has borrowed.
    predicate Uses(t: Thread, c: Conn) { (At(t) == Outside || At(t) == Raising(c)) && In(c, Held(t)) }

    function Move(t: Thread, p: Pc): State { this.(pc := pc[t := p]) }

    function Put(c: Conn, s: Slot): State { this.(slots := slots[c := s]) }

    // AUTH is sent on a new connection and its reply read.
    function Authenticated(): State
    {
      this.(sent := sent + 1, history := history + [Exchange(sent, sent)])
    }

    // The slot is given back under the lock.
    function GiveBack(c: Conn): State { this.(active := active - 1, slots := slots - {c}) }
  }

  const INITIAL := State(0, [], map[], map[], 0, [])

  const CLOSED := (p: Phase) => Slot(p, false, [], [])

  // n requests, the first of them numbered first.
  function Numbered(first: nat, n: nat): (r: seq<Request>)
    ensures |r| == n
  {
    seq(n, i => first + i)
  }

  // The server's replies to them.
  function Framed(first: nat, replies: seq<Reply>): (r: seq<Frame>)
    ensures |r| == |replies|
  {
    seq(|replies|, i requires 0 <= i < |replies| => Frame(first + i, replies[i]))
  }

  // What is left of a frame that has been read.
  function Rest(f: Frame): (r: seq<Frame>)
    ensures |r| == |LeftOf(f.reply)|
    ensures forall i :: 0 <= i < |r| ==> r[i].to == f.to
  {
    seq(|LeftOf(f.reply)|, i requires 0 <= i < |LeftOf(f.reply)| => Frame(f.to, LeftOf(f.reply)[i]))
  }

  // +PONG
  const PONG := SimpleString([80, 79, 78, 71])

  // A call of thread t is at work on the slot.
  predicate Busy(p: Phase, t: Thread)
  {
    p == Checking(t) || p == Stale(t) || p == Creating(t) || p == Authing(t) || p == Refused(t) || p == Dropping(t)
  }

  datatype Action =
    | TakeIdle(t: Thread)
    | FindEmpty(t: Thread)
    | CheckPasses(t: Thread, c: Conn)
    | CheckFails(t: Thread, c: Conn)
    | GiveBackStale(t: Thread, c: Conn)
    | Reserve(t: Thread, c: Conn)
    | Exhausted(t: Thread)
    | ConnectSucceeds(t: Thread, c: Conn)
    | ConnectRaises(t: Thread, c: Conn)
    | AuthSucceeds(t: Thread, c: Conn)
    | AuthIsRefused(t: Thread, c: Conn)
    | AuthRaises(t: Thread, c: Conn, open: bool)
    | GiveBackRefused(t: Thread, c: Conn)
    | SendSucceeds(t: Thread, c: Conn, replies: seq<Reply>)  // 1 command, or a pipeline's, and their replies
    | Receive(t: Thread, c: Conn)          // one frame is read
    | ExecuteRaises(t: Thread, c: Conn)    // an exception that a command lets out
    | PipelineRaises(t: Thread, c: Conn)   // one that a pipeline lets out with the connection open
    | Interrupted(t: Thread, c: Conn)      // one that is no Exception, KeyboardInterrupt say
    | CallInterrupted(t: Thread, c: Conn)  // the same inside a call of the pool
    | ReleaseIdle(t: Thread, c: Conn)
    | ReleaseFull(t: Thread, c: Conn)
    | ReleaseClosed(t: Thread, c: Conn)
    | GiveBackDropped(t: Thread, c: Conn)
    | StartDrain(t: Thread)
    | DrainOne(t: Thread)
    | DrainDone(t: Thread)
    | ResetCount(t: Thread)

  predicate Enabled(cfg: Config, s: State, a: Action)
  {
    match a
    // get_connection
    case TakeIdle(t) => s.At(t) == Outside && s.queue != [] && s.queue[0] in s.slots
    case FindEmpty(t) => s.At(t) == Outside && s.queue == []
    case CheckPasses(t, c) =>
      && s.At(t) == Occupied && s.In(c, Checking(t)) && s.slots[c].open
      && (cfg.isAsync || s.slots[c].unread == [] || s.slots[c].unread[0].reply == PONG)
    case CheckFails(t, c) => s.At(t) == Occupied && s.In(c, Checking(t))
    case GiveBackStale(t, c) => s.At(t) == Occupied && s.In(c, Stale(t))
    case Reserve(t, c) => s.At(t) == Reserving && s.active < cfg.max && c !in s.slots
    case Exhausted(t) => s.At(t) == Reserving && s.active >= cfg.max
    case ConnectSucceeds(t, c) => s.At(t) == Occupied && s.In(c, Creating(t))
    case ConnectRaises(t, c) => s.At(t) == Occupied && s.In(c, Creating(t))
    case AuthSucceeds(t, c) => s.At(t) == Occupied && s.In(c, Authing(t))
    case AuthIsRefused(t, c) => s.At(t) == Occupied && s.In(c, Authing(t))
    case AuthRaises(t, c, _) => s.At(t) == Occupied && s.In(c, Authing(t))
    case GiveBackRefused(t, c) => s.At(t) == Occupied && s.In(c, Refused(t))
    // _execute and the execute of a pipeline on a borrowed connection
    case SendSucceeds(t, c, replies) =>
      replies != [] && s.At(t) == Outside && s.In(c, Held(t)) && s.slots[c].open && s.slots[c].awaiting == []
    case Receive(t, c) =>
      s.At(t) == Outside && s.In(c, Held(t)) && s.slots[c].open && s.slots[c].awaiting != [] && s.slots[c].unread != []
    case ExecuteRaises(t, c) => s.Uses(t, c)
    case PipelineRaises(t, c) => s.Uses(t, c) && s.slots[c].open
    case Interrupted(t, c) => s.Uses(t, c)
    case CallInterrupted(t, c) => s.At(t) == Occupied && c in s.slots && Busy(s.slots[c].phase, t)
    // release_connection
    case ReleaseIdle(t, c) =>
      s.At(t) == Outside && s.In(c, Held(t)) && s.slots[c].awaiting == [] && s.slots[c].open && |s.queue| < cfg.max
    case ReleaseFull(t, c) =>
      s.At(t) == Outside && s.In(c, Held(t)) && s.slots[c].awaiting == [] && s.slots[c].open && |s.queue| >= cfg.max
    case ReleaseClosed(t, c) =>
      s.At(t) == Outside && s.In(c, Held(t)) && s.slots[c].awaiting == [] && !s.slots[c].open
    case GiveBackDropped(t, c) => s.At(t) == Occupied && s.In(c, Dropping(t))
    // disconnect_all
    case StartDrain(t) => s.At(t) == Outside
    case DrainOne(t) => s.At(t) == Draining && s.queue != [] && s.queue[0] in s.slots
    case DrainDone(t) => s.At(t) == Draining && s.queue == []
    case ResetCount(t) => s.At(t) == Zeroing
  }

  function Do(cfg: Config, s: State, a: Action): State
    requires Enabled(cfg, s, a)
  {
    match a
    case TakeIdle(t) =>
      var c := s.queue[0];
      s.(queue := s.queue[1..]).Put(c, s.slots[c].(phase := Checking(t))).Move(t, Occupied)
    case FindEmpty(t) => s.Move(t, Reserving)
    case CheckPasses(t, c) =>
      // The asynchronous pool looks only whether the writer is closing; the other one sends PING
      // and looks whether the frame that comes first is PONG.
      var k := s.slots[c];
      if cfg.isAsync then s.Put(c, k.(phase := Held(t))).Move(t, Outside)
      else
        var pending := k.unread + [Frame(s.sent, PONG)];
        s.(sent := s.sent + 1, history := s.history + [Exchange(s.sent, pending[0].to)])
         .Put(c, k.(phase := Held(t), unread := pending[1..])).Move(t, Outside)
    case CheckFails(t, c) => s.Put(c, CLOSED(Stale(t)))
    case GiveBackStale(t, c) => s.GiveBack(c).Move(t, Reserving)
    case Reserve(t, c) => s.(active := s.active + 1).Put(c, CLOSED(Creating(t))).Move(t, Occupied)
    case Exhausted(t) => s.Move(t, Outside)
    case ConnectSucceeds(t, c) =>
      if cfg.password then s.Put(c, Slot(Authing(t), true, [], []))
      else s.Put(c, Slot(Held(t), true, [], [])).Move(t, Outside)
    case ConnectRaises(t, c) =>
      // Only the asynchronous pool gives the slot back.
      if cfg.isAsync then s.Put(c, CLOSED(Refused(t)))
      else s.Put(c, CLOSED(Leaked)).Move(t, Outside)
    case AuthSucceeds(t, c) => s.Authenticated().Put(c, Slot(Held(t), true, [], [])).Move(t, Outside)
    case AuthIsRefused(t, c) => s.Authenticated().Put(c, CLOSED(Refused(t)))
    case AuthRaises(t, c, open) => s.(sent := s.sent + 1).Put(c, Slot(Leaked, open, [], [])).Move(t, Outside)
    case GiveBackRefused(t, c) => s.GiveBack(c).Move(t, Outside)
    case SendSucceeds(t, c, replies) =>
      s.(sent := s.sent + |replies|)
       .Put(c, s.slots[c].(unread := s.slots[c].unread + Framed(s.sent, replies),
                           awaiting := Numbered(s.sent, |replies|)))
    case Receive(t, c) =>
      // An error raises at once, and leaves whatever of its reply comes after it.
      var k := s.slots[c];
      var f := k.unread[0];
      s.(history := s.history + [Exchange(k.awaiting[0], f.to)])
       .Put(c, k.(unread := Rest(f) + k.unread[1..], awaiting := k.awaiting[1..]))
       .Move(t, if Denote(f.reply).Fails? then Raising(c) else Outside)
    case ExecuteRaises(t, c) =>
      // Only the synchronous client disconnects before it lets the exception out.
      s.Put(c, if cfg.isAsync then s.slots[c].(awaiting := []) else CLOSED(Held(t))).Move(t, Outside)
    case PipelineRaises(t, c) =>
      // Neither client's pipeline disconnects on an error reply.
      s.Put(c, s.slots[c].(awaiting := [])).Move(t, Outside)
    case Interrupted(t, c) =>
      // Neither client catches it.
      s.Put(c, s.slots[c].(awaiting := [])).Move(t, Outside)
    case CallInterrupted(t, c) =>
      // The slot is never given back.
      s.Put(c, Slot(Leaked, s.slots[c].open, [], [])).Move(t, Outside)
    case ReleaseIdle(t, c) => s.(queue := s.queue + [c]).Put(c, s.slots[c].(phase := Idle))
    case ReleaseFull(t, c) => s.Put(c, CLOSED(Dropping(t))).Move(t, Occupied)
    case ReleaseClosed(t, c) => s.Put(c, CLOSED(Dropping(t))).Move(t, Occupied)
    case GiveBackDropped(t, c) => s.GiveBack(c).Move(t, Outside)
    case StartDrain(t) => s.Move(t, Draining)
    case DrainOne(t) =>
      var c := s.queue[0];
      s.(queue := s.queue[1..]).Put(c, CLOSED(Drained))
    case DrainDone(t) => s.Move(t, Zeroing)
    case ResetCount(t) =>
      // The count forgets the drained and the leaked slots, and any other there may be.
      s.(active := 0, slots := s.slots - WrittenOff(s)).Move(t, Outside)
  }

  // The slots no call will ever give back.
  function WrittenOff(s: State): set<Conn>
  {
    set c | c in s.slots && (s.slots[c].phase == Drained || s.slots[c].phase == Leaked)
  }

  // Slots in use by some call or borrower, or waiting in the queue.
  function Outstanding(s: State): set<Conn>
  {
    set c | c in s.slots && s.slots[c].phase != Drained && s.slots[c].phase != Leaked
  }

  // The count is reset only when nothing is outstanding.
  predicate Careful(s: State, a: Action)
  {
    a.ResetCount? ==> Outstanding(s) == {}
  }

  predicate Possible(cfg: Config, s: State, run: seq<Action>)
    decreases run, 0
  {
    run == [] || (Possible(cfg, s, run[..|run| - 1]) && Enabled(cfg, After(cfg, s, run[..|run| - 1]), run[|run| - 1]))
  }

  function After(cfg: Config, s: State, run: seq<Action>): State
    requires Possible(cfg, s, run)
    decreases run, 1
  {
    if run == [] then s else Do(cfg, After(cfg, s, run[..|run| - 1]), run[|run| - 1])
  }

  // No reset of the count in this run happens while something is outstanding.
  predicate CarefulRun(cfg: Config, s: State, run: seq<Action>)
    requires Possible(cfg, s, run)
  {
    run == [] ||
    (CarefulRun(cfg, s, run[..|run| - 1]) && Careful(After(cfg, s, run[..|run| - 1]), run[|run| - 1]))
  }

  // ---- What every careful run keeps ----

  // The count is the number of slots, and within the limit.
  ghost predicate Counted(cfg: Config, s: State)
  {
    s.active == |s.slots| && s.active <= cfg.max
  }

  // The queue holds exactly the idle connections, each once.
  ghost predicate Queued(s: State)
  {
    && (forall i, j :: 0 <= i < j < |s.queue| ==> s.queue[i] != s.queue[j])
    && (forall c :: c in s.queue <==> c in s.slots && s.slots[c].phase == Idle)
  }

  predicate MovesCount(a: Action)
  {
    a.GiveBackStale? || a.GiveBackRefused? || a.GiveBackDropped? || a.Reserve? || a.ResetCount?
  }

  lemma CountedStep(cfg: Config, s: State, a: Action)
    requires Counted(cfg, s) && Enabled(cfg, s, a) && Careful(s, a)
    ensures Counted(cfg, Do(cfg, s, a))
  {
    if MovesCount(a) {
      CountMoved(cfg, s, a);
    } else {
      hide Do, Enabled;
      CountKept(cfg, s, a);
      assert |s.slots| == |s.slots.Keys|;
    }
  }

  lemma CountMoved(cfg: Config, s: State, a: Action)
    requires Counted(cfg, s) && Enabled(cfg, s, a) && Careful(s, a) && MovesCount(a)
    ensures Counted(cfg, Do(cfg, s, a))
  {
    var s' := Do(cfg, s, a);
    if a.Reserve? {
      assert s'.slots.Keys == s.slots.Keys + {a.c};
    } else if a.ResetCount? {
      assert forall c :: c in s.slots ==> c in WrittenOff(s) || c in Outstanding(s);
      assert s'.slots == map[];
    } else {
      assert s'.slots.Keys == s.slots.Keys - {a.c};
    }
  }

  lemma CountKept(cfg: Config, s: State, a: Action)
    requires Enabled(cfg, s, a) && !MovesCount(a)
    ensures Do(cfg, s, a).active == s.active && Do(cfg, s, a).slots.Keys == s.slots.Keys
  {
  }

  lemma TailLosesHead(q: seq<Conn>)
    requires q != [] && forall i, j :: 0 <= i < j < |q| ==> q[i] != q[j]
    ensures forall d :: d in q[1..] <==> d in q && d != q[0]
  {
    assert q == [q[0]] + q[1..];
    assert forall k :: 0 <= k < |q[1..]| ==> q[1..][k] == q[k + 1];
  }

  predicate MovesQueue(a: Action) { a.TakeIdle? || a.DrainOne? || a.ReleaseIdle? }

  lemma QueuedStep(cfg: Config, s: State, a: Action)
    requires Queued(s) && Enabled(cfg, s, a)
    ensures Queued(Do(cfg, s, a))
  {
    if MovesQueue(a) { QueueMoved(cfg, s, a); } else { QueueKept(cfg, s, a); }
  }

  lemma QueueMoved(cfg: Config, s: State, a: Action)
    requires Queued(s) && Enabled(cfg, s, a) && MovesQueue(a)
    ensures Queued(Do(cfg, s, a))
  {
    if a.TakeIdle? || a.DrainOne? {
      TailLosesHead(s.queue);
    } else if a.ReleaseIdle? {
      assert a.c !in s.queue;
    }
  }

  lemma QueueKept(cfg: Config, s: State, a: Action)
    requires Queued(s) && Enabled(cfg, s, a) && !MovesQueue(a)
    ensures Queued(Do(cfg, s, a))
  {
    var s' := Do(cfg, s, a);
    assert s'.queue == s.queue;
    assert forall c :: s'.In(c, Idle) <==> s.In(c, Idle);
  }

  lemma {:induction false} CarefulRunsCounted(cfg: Config, run: seq<Action>)
    requires Possible(cfg, INITIAL, run) && CarefulRun(cfg, INITIAL, run)
    ensures Counted(cfg, After(cfg, INITIAL, run)) && Queued(After(cfg, INITIAL, run))
  {
    if run != [] {
      var n := |run| - 1;
      CarefulRunsCounted(cfg, run[..n]);
      var s := After(cfg, INITIAL, run[..n]);
      CountedStep(cfg, s, run[n]);
      QueuedStep(cfg, s, run[n]);
    }
  }

  // ---- Conservation ----

  function Kind(p: Phase): nat
  {
    match p
    case Idle => 0
    case Held(_) => 1
    case Checking(_) => 2
    case Creating(_) => 3
    case Authing(_) => 3
    case Stale(_) => 4
    case Refused(_) => 4
    case Dropping(_) => 4
    case Leaked => 5
    case Drained => 6
  }

  function OfKind(s: State, k: nat): set<Conn>
  {
    set c | c in s.slots && Kind(s.slots[c].phase) == k
  }

  function UpToKind(s: State, k: nat): set<Conn>
  {
    set c | c in s.slots && Kind(s.slots[c].phase) < k
  }

  lemma OneMoreKind(s: State, k: nat)
    ensures |UpToKind(s, k + 1)| == |UpToKind(s, k)| + |OfKind(s, k)|
  {
    assert UpToKind(s, k + 1) == UpToKind(s, k) + OfKind(s, k);
    assert UpToKind(s, k) !! OfKind(s, k);
  }

  lemma KindsPartition(s: State)
    ensures |s.slots| == |OfKind(s, 0)| + |OfKind(s, 1)| + |OfKind(s, 2)| + |OfKind(s, 3)| + |OfKind(s, 4)|
                         + |OfKind(s, 5)| + |OfKind(s, 6)|
  {
    assert UpToKind(s, 0) == {};
    OneMoreKind(s, 0); OneMoreKind(s, 1); OneMoreKind(s, 2); OneMoreKind(s, 3);
    OneMoreKind(s, 4); OneMoreKind(s, 5); OneMoreKind(s, 6);
    assert UpToKind(s, 7) == s.slots.Keys;
    assert |s.slots| == |s.slots.Keys|;
  }

  lemma {:induction false} DistinctCount(q: seq<Conn>, m: set<Conn>)
    requires forall i, j :: 0 <= i < j < |q| ==> q[i] != q[j]
    requires forall c :: c in q <==> c in m
    ensures |q| == |m|
  {
    if q == [] {
      assert m == {};
    } else {
      var n := |q| - 1;
      forall c ensures c in q[..n] <==> c in m - {q[n]} {
        if c in q[..n] {
          var i :| 0 <= i < n && q[..n][i] == c;
          assert q[i] == c && q[i] != q[n];
        }
        if c in m - {q[n]} {
          var i :| 0 <= i < |q| && q[i] == c;
          assert q[..n][i] == c;
        }
      }
      DistinctCount(q[..n], m - {q[n]});
    }
  }

  function OpenConnections(s: State): set<Conn>
  {
    set c | c in s.slots && s.slots[c].open
  }

  // Conservation under every interleaving: the count is the idle connections in the queue, plus
  // those handed out, being checked, being created, on their way to be given back, leaked, and
  // drained but not yet forgotten.  It never passes the limit, nor do the open connections.
  lemma Conservation(cfg: Config, run: seq<Action>)
    requires Possible(cfg, INITIAL, run) && CarefulRun(cfg, INITIAL, run)
    ensures var s := After(cfg, INITIAL, run);
            && s.active == |s.queue| + |OfKind(s, 1)| + |OfKind(s, 2)| + |OfKind(s, 3)| + |OfKind(s, 4)|
                           + |OfKind(s, 5)| + |OfKind(s, 6)|
            && 0 <= s.active <= cfg.max
            && |OpenConnections(s)| <= cfg.max
  {
    CarefulRunsCounted(cfg, run);
    var s := After(cfg, INITIAL, run);
    KindsPartition(s);
    DistinctCount(s.queue, OfKind(s, 0));
    SubsetSize(OpenConnections(s), s.slots.Keys);
  }

  lemma SubsetSize(a: set<Conn>, b: set<Conn>)
    requires a <= b
    ensures |a| <= |b|
  {
    assert b == a + (b - a);
  }

  // Putting a live connection back never finds the queue full.
  lemma NeverFull(cfg: Config, run: seq<Action>, t: Thread, c: Conn)
    requires Possible(cfg, INITIAL, run) && CarefulRun(cfg, INITIAL, run)
    ensures !Enabled(cfg, After(cfg, INITIAL, run), ReleaseFull(t, c))
  {
    hide Possible, After, CarefulRun, Queued, Counted;
    CarefulRunsCounted(cfg, run);
    RoomForHeld(cfg, After(cfg, INITIAL, run), t, c);
  }

  lemma RoomForHeld(cfg: Config, s: State, t: Thread, c: Conn)
    requires Counted(cfg, s) && Queued(s)
    ensures s.In(c, Held(t)) ==> |s.queue| < cfg.max
  {
    if s.In(c, Held(t)) {
      DistinctCount(s.queue, OfKind(s, 0));
      SubsetSize(OfKind(s, 0) + {c}, s.slots.Keys);
      assert c !in OfKind(s, 0);
    }
  }

  // Resetting the count keeps it right exactly when nothing is outstanding.
  lemma ResetKeepsCountIff(cfg: Config, s: State, t: Thread)
    requires Counted(cfg, s) && Enabled(cfg, s, ResetCount(t))
    ensures Counted(cfg, Do(cfg, s, ResetCount(t))) <==> Outstanding(s) == {}
  {
    var s' := Do(cfg, s, ResetCount(t));
    assert s'.slots.Keys == Outstanding(s);
    assert |s'.slots| == |s'.slots.Keys|;
  }

  lemma NoActions(cfg: Config, s: State)
    ensures Possible(cfg, s, []) && After(cfg, s, []) == s && CarefulRun(cfg, s, [])
  {
  }

  lemma PossibleSnoc(cfg: Config, s: State, run: seq<Action>, a: Action)
    requires Possible(cfg, s, run) && Enabled(cfg, After(cfg, s, run), a)
    ensures Possible(cfg, s, run + [a]) && After(cfg, s, run + [a]) == Do(cfg, After(cfg, s, run), a)
    ensures CarefulRun(cfg, s, run) && Careful(After(cfg, s, run), a) ==> CarefulRun(cfg, s, run + [a])
  {
    assert (run + [a])[..|run|] == run;
  }

  // The run s leads to in one more action.
  lemma OneMoreAction(cfg: Config, run: seq<Action>, s: State, a: Action, s': State)
    requires Possible(cfg, INITIAL, run) && After(cfg, INITIAL, run) == s
    requires Enabled(cfg, s, a) && s' == Do(cfg, s, a)
    ensures Possible(cfg, INITIAL, run + [a]) && After(cfg, INITIAL, run + [a]) == s'
    ensures CarefulRun(cfg, INITIAL, run) && !a.ResetCount? ==> CarefulRun(cfg, INITIAL, run + [a])
  {
    PossibleSnoc(cfg, INITIAL, run, a);
  }

  // A run in which thread 0 gets the first connection.
  function FirstConnection(cfg: Config): seq<Action>
  {
    var run := [FindEmpty(0)] + [Reserve(0, 0)] + [ConnectSucceeds(0, 0)];
    if cfg.password then run + [AuthSucceeds(0, 0)] else run
  }

  // Where it ends.
  function FirstHeld(cfg: Config): State
  {
    var s := State(1, [], map[0 := Slot(Held(0), true, [], [])], map[0 := Outside], 0, []);
    if cfg.password then s.Authenticated() else s
  }

  // On the way there: the call has found the queue empty, reserved a slot, connected.
  const LOOKING := State(0, [], map[], map[0 := Reserving], 0, [])

  function Opening(k: Slot): State { State(1, [], map[0 := k], map[0 := Occupied], 0, []) }

  lemma FirstSlot(cfg: Config)
    requires cfg.max >= 1
    ensures Enabled(cfg, INITIAL, FindEmpty(0)) && Do(cfg, INITIAL, FindEmpty(0)) == LOOKING
    ensures Enabled(cfg, LOOKING, Reserve(0, 0)) && Do(cfg, LOOKING, Reserve(0, 0)) == Opening(CLOSED(Creating(0)))
  {
  }

  lemma FirstConnected(cfg: Config)
    ensures var s := Opening(CLOSED(Creating(0)));
            && Enabled(cfg, s, ConnectSucceeds(0, 0))
            && Do(cfg, s, ConnectSucceeds(0, 0)) ==
               if cfg.password then Opening(Slot(Authing(0), true, [], [])) else FirstHeld(cfg)
    ensures cfg.password ==>
              && Enabled(cfg, Opening(Slot(Authing(0), true, [], [])), AuthSucceeds(0, 0))
              && Do(cfg, Opening(Slot(Authing(0), true, [], [])), AuthSucceeds(0, 0)) == FirstHeld(cfg)
  {
  }

  lemma FirstConnectionRuns(cfg: Config)
    requires cfg.max >= 1
    ensures var run := FirstConnection(cfg);
            && Possible(cfg, INITIAL, run) && CarefulRun(cfg, INITIAL, run)
            && After(cfg, INITIAL, run) == FirstHeld(cfg)
  {
    hide Possible, After, CarefulRun, Do, Enabled, FirstHeld, Opening;
    NoActions(cfg, INITIAL);
    FirstSlot(cfg);
    FirstConnected(cfg);
    var r1 := [FindEmpty(0)];
    assert [] + r1 == r1;
    PossibleSnoc(cfg, INITIAL, [], FindEmpty(0));
    var r2 := r1 + [Reserve(0, 0)];
    PossibleSnoc(cfg, INITIAL, r1, Reserve(0, 0));
    var r3 := r2 + [ConnectSucceeds(0, 0)];
    PossibleSnoc(cfg, INITIAL, r2, ConnectSucceeds(0, 0));
    if cfg.password { PossibleSnoc(cfg, INITIAL, r3, AuthSucceeds(0, 0)); }
  }

  // Thread 1 resets the count while thread 0 still holds the first connection.
  lemma ResetForgetsHeld(cfg: Config) returns (run: seq<Action>)
    requires cfg == Config(1, false, false)
    ensures Possible(cfg, INITIAL, run)
    ensures var s := After(cfg, INITIAL, run);
            s.active == 0 && s.queue == [] && s.slots == map[0 := Slot(Held(0), true, [], [])] && s.At(1) == Outside
  {
    hide Possible, After, CarefulRun, Do, Enabled, FirstHeld;
    FirstConnectionRuns(cfg);
    ResetSteps(cfg);
    var s0 := FirstHeld(cfg);
    run := FirstConnection(cfg);
    OneMoreAction(cfg, run, s0, StartDrain(1), s0.Move(1, Draining));
    run := run + [StartDrain(1)];
    OneMoreAction(cfg, run, s0.Move(1, Draining), DrainDone(1), s0.Move(1, Draining).Move(1, Zeroing));
    run := run + [DrainDone(1)];
    PossibleSnoc(cfg, INITIAL, run, ResetCount(1));
    run := run + [ResetCount(1)];
  }

  lemma ResetSteps(cfg: Config)
    requires cfg == Config(1, false, false)
    ensures var s0 := FirstHeld(cfg);
            var s1, s2 := s0.Move(1, Draining), s0.Move(1, Draining).Move(1, Zeroing);
            && Enabled(cfg, s0, StartDrain(1)) && Do(cfg, s0, StartDrain(1)) == s1
            && Enabled(cfg, s1, DrainDone(1)) && Do(cfg, s1, DrainDone(1)) == s2
            && Enabled(cfg, s2, ResetCount(1))
            && var s3 := Do(cfg, s2, ResetCount(1));
               s3.active == 0 && s3.queue == [] && s3.At(1) == Outside
               && s3.slots == map[0 := Slot(Held(0), true, [], [])]
  {
    hide WrittenOff, Do, Enabled;
    var s0 := FirstHeld(cfg);
    DrainNothing(cfg, s0, 1);
    ResetNothing(cfg, s0.Move(1, Draining).Move(1, Zeroing), 1);
  }

  lemma DrainNothing(cfg: Config, s: State, t: Thread)
    requires s.At(t) == Outside && s.queue == []
    ensures Enabled(cfg, s, StartDrain(t)) && Do(cfg, s, StartDrain(t)) == s.Move(t, Draining)
    ensures Enabled(cfg, s.Move(t, Draining), DrainDone(t))
    ensures Do(cfg, s.Move(t, Draining), DrainDone(t)) == s.Move(t, Draining).Move(t, Zeroing)
  {
  }

  lemma ResetNothing(cfg: Config, s: State, t: Thread)
    requires s.At(t) == Zeroing && forall c :: c in s.slots ==> s.slots[c].phase.Held?
    ensures Enabled(cfg, s, ResetCount(t)) && Do(cfg, s, ResetCount(t)) == s.(active := 0).Move(t, Outside)
  {
    assert WrittenOff(s) == {};
    assert s.slots - {} == s.slots;
  }

  // A call with room under the limit opens a connection without looking at the others.
  lemma FreshConnection(cfg: Config, run: seq<Action>, s: State, t: Thread, c: Conn) returns (longer: seq<Action>)
    requires Possible(cfg, INITIAL, run) && After(cfg, INITIAL, run) == s && !cfg.password
    requires s.At(t) == Outside && s.queue == [] && s.active < cfg.max && c !in s.slots
    ensures Possible(cfg, INITIAL, longer)
    ensures After(cfg, INITIAL, longer).slots == s.slots[c := CLOSED(Creating(t))][c := Slot(Held(t), true, [], [])]
  {
    hide Possible, After, CarefulRun;
    var s1 := s.Move(t, Reserving);
    var s2 := s1.(active := s.active + 1).Put(c, CLOSED(Creating(t))).Move(t, Occupied);
    OneMoreAction(cfg, run, s, FindEmpty(t), s1);
    longer := run + [FindEmpty(t)];
    OneMoreAction(cfg, longer, s1, Reserve(t, c), s2);
    longer := longer + [Reserve(t, c)];
    OneMoreAction(cfg, longer, s2, ConnectSucceeds(t, c), Do(cfg, s2, ConnectSucceeds(t, c)));
    longer := longer + [ConnectSucceeds(t, c)];
  }

  // A reset while a connection is handed out: with a limit of one, two are open at once.
  lemma ResetBreaksLimit(cfg: Config)
    requires cfg == Config(1, false, false)
    ensures exists run ::
              Possible(cfg, INITIAL, run) && |OpenConnections(After(cfg, INITIAL, run))| == 2
  {
    var run := ResetForgetsHeld(cfg);
    run := FreshConnection(cfg, run, After(cfg, INITIAL, run), 1, 1);
    assert OpenConnections(After(cfg, INITIAL, run)) == {0, 1};
  }

  // ---- Leaks ----

  // Only a reset ever frees a leaked slot.
  lemma LeaksStay(cfg: Config, s: State, a: Action)
    requires Queued(s) && Enabled(cfg, s, a) && !a.ResetCount?
    ensures OfKind(s, 5) <= OfKind(Do(cfg, s, a), 5)
  {
    var s' := Do(cfg, s, a);
    assert forall c :: s.In(c, Leaked) ==> s'.In(c, Leaked);
  }

  // Once every slot has leaked the queue is empty and no call can reserve one: get_connection
  // raises PoolExhaustedError until the count is reset.
  lemma AllLeakedMeansExhausted(cfg: Config, s: State)
    requires Counted(cfg, s) && Queued(s) && |OfKind(s, 5)| >= cfg.max
    ensures s.queue == []
    ensures forall t, c :: !Enabled(cfg, s, Reserve(t, c))
    ensures forall t :: s.At(t) == Reserving ==> Enabled(cfg, s, Exhausted(t))
  {
    KindsPartition(s);
    DistinctCount(s.queue, OfKind(s, 0));
  }

  // A slot leaks at a step exactly when the call at work on it raises out of a failed connect of
  // the synchronous pool or out of AUTH, or is interrupted.  A failed connect of the asynchronous
  // pool leaves the slot to be given back.
  lemma LeakedByIff(cfg: Config, s: State, a: Action, c: Conn)
    requires Enabled(cfg, s, a) && !s.In(c, Leaked)
    ensures Do(cfg, s, a).In(c, Leaked) <==>
            (a.ConnectRaises? && !cfg.isAsync && a.c == c) || (a.AuthRaises? && a.c == c)
            || (a.CallInterrupted? && a.c == c)
    ensures a.ConnectRaises? && cfg.isAsync && a.c == c ==> Do(cfg, s, a).In(c, Refused(a.t))
  {
    var s' := Do(cfg, s, a);
    assert a.AuthRaises? ==> s'.In(a.c, Leaked);
    assert a.CallInterrupted? ==> s'.In(a.c, Leaked);
  }
}
