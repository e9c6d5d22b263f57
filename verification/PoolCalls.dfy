// The calls of src/kachedb/pool.py, src/kachedb/client.py and the pipelines, as sequences of the
// actions of module Pool.
module PoolCalls {

  import opened Bytes
  import opened RespCodec
  import opened Pool
  import opened Pairing

  datatype Acquired = Got(c: Conn) | PoolExhausted | ConnectError

  // What AUTH comes to: accepted, refused by the reply, or an exception, which may leave the
  // connection open.
  datatype Auth = Accepted | Denied | Raised(open: bool)

  // What a thread keeps of a connection it goes on holding.
  predicate Holding(s: State, t: Thread, c: Conn) { s.At(t) == Outside && s.In(c, Held(t)) }

  // ---- Reading what a command or a pipeline waits for ----

  // The frames to come on connection c once requests with these replies are sent.
  function Pending(s: State, c: Conn, replies: seq<Reply>): (r: seq<Frame>)
    requires c in s.slots
    ensures |r| == |s.slots[c].unread| + |replies|
  {
    s.slots[c].unread + Framed(s.sent, replies)
  }

  // The first of n frames that is an error, or n.
  function FirstError(q: seq<Frame>, n: nat): (e: nat)
    requires n <= |q|
    ensures e <= n
    ensures forall i :: 0 <= i < e ==> Denote(q[i].reply).Means?
    ensures e < n ==> Denote(q[e].reply).Fails?
  {
    if n == 0 then 0
    else
      var e := FirstError(q, n - 1);
      if e < n - 1 || Denote(q[n - 1].reply).Fails? then e else n
  }

  // How n reads end when this many frames arrive.
  datatype Reading = AllRead | BrokenOff | ErrorRead

  function ReadingOf(q: seq<Frame>, n: nat, arrives: nat): Reading
    requires n <= |q|
  {
    if FirstError(q, n) < Min(n, arrives) then ErrorRead else if arrives < n then BrokenOff else AllRead
  }

  // The number of frames read, ...
  function CountOf(q: seq<Frame>, n: nat, arrives: nat): (k: nat)
    requires n <= |q|
    ensures k <= n && k <= arrives
  {
    match ReadingOf(q, n, arrives)
    case ErrorRead => FirstError(q, n) + 1
    case BrokenOff => arrives
    case AllRead => n
  }

  // ... and those still to come.
  function Remaining(q: seq<Frame>, n: nat, arrives: nat): seq<Frame>
    requires n <= |q|
  {
    var k := CountOf(q, n, arrives);
    if ReadingOf(q, n, arrives) == ErrorRead then Rest(q[k - 1]) + q[k..] else q[k..]
  }

  // The requests that frames belong to.
  function Requests(q: seq<Frame>): (r: seq<Request>)
    ensures |r| == |q|
  {
    seq(|q|, i requires 0 <= i < |q| => q[i].to)
  }

  // Requests numbered first, first + 1 and so on, with the replies they were given.
  function Pairs(first: nat, answered: seq<Request>): (r: seq<Exchange>)
    ensures |r| == |answered|
  {
    seq(|answered|, i requires 0 <= i < |answered| => Exchange(first + i, answered[i]))
  }

  // The replies read are those to the requests sent exactly when nothing was on its way before.
  lemma AnsweredOwnIff(s: State, c: Conn, replies: seq<Reply>, k: nat)
    requires Ordered(s) && c in s.slots && s.slots[c].awaiting == [] && 0 < k <= |replies|
    ensures Requests(Pending(s, c, replies)[..k]) == Numbered(s.sent, k) <==> s.slots[c].unread == []
  {
    assert SlotOrdered(s.sent, s.slots[c]);
    var all := Pending(s, c, replies);
    if s.slots[c].unread == [] {
      assert Requests(all[..k]) == Numbered(s.sent, k);
    } else {
      assert s.slots[c].unread == Stray(s.slots[c]);
      assert Requests(all[..k])[0] == s.slots[c].unread[0].to < s.sent == Numbered(s.sent, k)[0];
    }
  }

  // After sending, and after k frames that are values.
  predicate Reads(s: State, t: Thread, c: Conn, replies: seq<Reply>, k: nat, s': State)
    requires c in s.slots && k <= |replies|
  {
    && s'.In(c, Held(t)) && s'.queue == s.queue && s'.active == s.active && s'.sent == s.sent + |replies|
    && s'.slots == s.slots[c := Slot(Held(t), true, Pending(s, c, replies)[k..], Numbered(s.sent, |replies|)[k..])]
    && s'.history == s.history + Pairs(s.sent, Requests(Pending(s, c, replies)[..k]))
  }

  lemma ReadsSent(cfg: Config, s: State, t: Thread, c: Conn, replies: seq<Reply>)
    requires Holding(s, t, c) && s.slots[c].open && s.slots[c].awaiting == [] && replies != []
    ensures Enabled(cfg, s, SendSucceeds(t, c, replies))
    ensures var s' := Do(cfg, s, SendSucceeds(t, c, replies)); Reads(s, t, c, replies, 0, s') && s'.At(t) == Outside
  {
    assert s.history + Pairs(s.sent, Requests(Pending(s, c, replies)[..0])) == s.history;
  }

  lemma ReadsNext(cfg: Config, s: State, t: Thread, c: Conn, replies: seq<Reply>, k: nat, s': State)
    requires c in s.slots && k < |replies| && Reads(s, t, c, replies, k, s') && s'.At(t) == Outside
    ensures Enabled(cfg, s', Receive(t, c))
    ensures var f := Pending(s, c, replies)[k];
            var s'' := Do(cfg, s', Receive(t, c));
            if Denote(f.reply).Means? then Reads(s, t, c, replies, k + 1, s'') && s''.At(t) == Outside
            else ReadsError(s, t, c, replies, k, s'')
  {
    hide LeftOf, Denote, Framed, Numbered;
    var all := Pending(s, c, replies);
    if Denote(all[k].reply).Means? { MeansLeavesNothing(all[k].reply); }
    assert all[k..][1..] == all[k + 1..] && [] + all[k + 1..] == all[k + 1..];
    assert Numbered(s.sent, |replies|)[k..][1..] == Numbered(s.sent, |replies|)[k + 1..];
    NumberedAt(s.sent, |replies|, k);
    PairsSnoc(s.history, s.sent, all, k);
  }

  lemma NumberedAt(first: nat, n: nat, k: nat)
    requires k < n
    ensures Numbered(first, n)[k] == first + k
  {
  }

  lemma PairsSnoc(history: seq<Exchange>, first: nat, q: seq<Frame>, k: nat)
    requires k < |q|
    ensures history + Pairs(first, Requests(q[..k])) + [Exchange(first + k, q[k].to)]
            == history + Pairs(first, Requests(q[..k + 1]))
  {
    assert Pairs(first, Requests(q[..k + 1])) == Pairs(first, Requests(q[..k])) + [Exchange(first + k, q[k].to)];
  }

  // After an error read in place k.
  predicate ReadsError(s: State, t: Thread, c: Conn, replies: seq<Reply>, k: nat, s': State)
    requires c in s.slots && k < |replies|
  {
    var all := Pending(s, c, replies);
    && s'.In(c, Held(t)) && s'.At(t) == Raising(c) && s'.queue == s.queue && s'.active == s.active
    && s'.sent == s.sent + |replies|
    && s'.slots == s.slots[c := Slot(Held(t), true, Rest(all[k]) + all[k + 1..], Numbered(s.sent, |replies|)[k + 1..])]
    && s'.history == s.history + Pairs(s.sent, Requests(all[..k + 1]))
  }

  lemma ReadHead(s: State, t: Thread, c: Conn, replies: seq<Reply>, k: nat, s': State)
    requires c in s.slots && k < |replies| && Reads(s, t, c, replies, k, s')
    ensures c in s'.slots && s'.slots[c].unread != [] && s'.slots[c].unread[0] == Pending(s, c, replies)[k]
  {
  }

  lemma FirstErrorIs(q: seq<Frame>, n: nat, k: nat)
    requires k < n <= |q| && Denote(q[k].reply).Fails?
    requires forall j :: 0 <= j < k ==> Denote(q[j].reply).Means?
    ensures FirstError(q, n) == k
  {
  }

  lemma NoErrorBefore(q: seq<Frame>, n: nat, k: nat)
    requires k <= n <= |q| && forall j :: 0 <= j < k ==> Denote(q[j].reply).Means?
    ensures FirstError(q, n) >= k
  {
  }

  // What sending requests and reading their frames comes to.
  predicate Conversed(s: State, t: Thread, c: Conn, replies: seq<Reply>, arrives: nat, s': State)
    requires c in s.slots
  {
    var all, n := Pending(s, c, replies), |replies|;
    var k := CountOf(all, n, arrives);
    && s'.Uses(t, c) && (s'.At(t) == Raising(c) <==> ReadingOf(all, n, arrives) == ErrorRead)
    && s'.queue == s.queue && s'.active == s.active && s'.sent == s.sent + n
    && s'.slots == s.slots[c := Slot(Held(t), true, Remaining(all, n, arrives), Numbered(s.sent, n)[k..])]
    && s'.history == s.history + Pairs(s.sent, Requests(all[..k]))
  }

  lemma ErrorConversed(s: State, t: Thread, c: Conn, replies: seq<Reply>, arrives: nat, k: nat, s': State)
    requires c in s.slots && k < |replies| && k < arrives && ReadsError(s, t, c, replies, k, s')
    requires FirstError(Pending(s, c, replies), |replies|) == k
    ensures Conversed(s, t, c, replies, arrives, s')
    ensures ReadingOf(Pending(s, c, replies), |replies|, arrives) == ErrorRead
  {
    hide Pending, FirstError, Framed, Pairs, Numbered, Requests, LeftOf, Denote, Rest, ReadingOf, CountOf, Remaining;
    ReadingEnds(Pending(s, c, replies), |replies|, arrives, k, true);
  }

  lemma ValuesConversed(s: State, t: Thread, c: Conn, replies: seq<Reply>, arrives: nat, k: nat, s': State)
    requires c in s.slots && k <= |replies| && Reads(s, t, c, replies, k, s') && s'.At(t) == Outside
    requires k == Min(|replies|, arrives) && FirstError(Pending(s, c, replies), |replies|) >= k
    ensures Conversed(s, t, c, replies, arrives, s')
    ensures ReadingOf(Pending(s, c, replies), |replies|, arrives) == if k < |replies| then BrokenOff else AllRead
    ensures k == |replies| ==> s'.slots[c].awaiting == []
  {
    hide Pending, FirstError, Framed, Pairs, Numbered, Requests, LeftOf, Denote, Rest, ReadingOf, CountOf, Remaining;
    ReadingEnds(Pending(s, c, replies), |replies|, arrives, k, false);
  }

  // n reads that end after k values, with an error or without.
  lemma ReadingEnds(q: seq<Frame>, n: nat, arrives: nat, k: nat, error: bool)
    requires n <= |q| && k <= FirstError(q, n)
    requires if error then FirstError(q, n) == k < n && k < arrives else k == Min(n, arrives)
    ensures CountOf(q, n, arrives) == if error then k + 1 else k
    ensures ReadingOf(q, n, arrives) == if error then ErrorRead else if k < n then BrokenOff else AllRead
    ensures Remaining(q, n, arrives) == if error then Rest(q[k]) + q[k + 1..] else q[k..]
  {
    hide FirstError, LeftOf, Denote, Rest;
  }

  // n reads stop after k values: at an error, which is read too and leaves the elements of its
  // reply that come after it; for want of a frame; or because that is all.
  lemma ReadingIs(q: seq<Frame>, n: nat, arrives: nat, k: nat)
    requires n <= |q| && k <= n && k <= arrives && forall i :: 0 <= i < k ==> Denote(q[i].reply).Means?
    requires k < n && k < arrives ==> Denote(q[k].reply).Fails?
    ensures k < n && k < arrives ==>
              var left := LeftOf(q[k].reply);
              var more := Remaining(q, n, arrives);
              && ReadingOf(q, n, arrives) == ErrorRead && CountOf(q, n, arrives) == k + 1
              && |more| == |left| + |q| - (k + 1) && more[|left|..] == q[k + 1..]
              && forall i :: 0 <= i < |left| ==> more[i] == Frame(q[k].to, left[i])
    ensures k == arrives < n ==>
              ReadingOf(q, n, arrives) == BrokenOff && CountOf(q, n, arrives) == k && Remaining(q, n, arrives) == q[k..]
    ensures k == n ==>
              ReadingOf(q, n, arrives) == AllRead && CountOf(q, n, arrives) == n && Remaining(q, n, arrives) == q[n..]
  {
    hide LeftOf, Denote, FirstError;
    var e := FirstError(q, n);
    assert e < n ==> Denote(q[e].reply).Fails?;
    assert k <= e;
    ReadingEnds(q, n, arrives, k, k < n && k < arrives);
  }

  // One frame, if it arrives.
  lemma OneFrame(q: seq<Frame>, n: nat)
    requires q != [] && n <= 1
    ensures CountOf(q, 1, n) == n
    ensures ReadingOf(q, 1, n) == AllRead <==> n == 1 && Denote(q[0].reply).Means?
  {
  }

  lemma OneNumber(first: nat)
    ensures Numbered(first, 1) == [first]
  {
  }

  lemma NothingAnswered(s: State)
    ensures s.history + Pairs(s.sent, []) == s.history
  {
  }

  // An exception on a connection that thread t uses: a caught one closes it in the synchronous
  // client.
  lemma RaiseStep(cfg: Config, s: State, t: Thread, c: Conn, a: Action)
    requires s.Uses(t, c)
    requires a == ExecuteRaises(t, c) || a == Interrupted(t, c) || (a == PipelineRaises(t, c) && s.slots[c].open)
    ensures Enabled(cfg, s, a)
    ensures var s' := Do(cfg, s, a);
            && s' == s.Put(c, if GivesUp(cfg, a) then s.slots[c].(awaiting := []) else CLOSED(Held(t))).Move(t, Outside)
            && Holding(s', t, c)
  {
  }

  // A connection that is open and found healthy.  The synchronous pool sends PING and takes the
  // first frame for the answer, be it an old one.
  predicate Passes(cfg: Config, k: Slot, healthy: bool)
  {
    k.open && healthy && (cfg.isAsync || k.unread == [] || k.unread[0].reply == PONG)
  }

  // After the health check of connection c, whose slot was k: handed out, or given back.
  ghost predicate CheckEnded(cfg: Config, t: Thread, c: Conn, k: Slot, healthy: bool, s: State, passes: bool, s': State)
  {
    && (passes <==> k.open && healthy && (cfg.isAsync || k.unread == [] || k.unread[0].reply == PONG))
    && if passes then
         && s'.In(c, Held(t)) && s'.slots[c].open && s'.At(t) == Outside && s'.active == s.active
         && |s'.slots[c].unread| == |k.unread| && s'.slots[c].awaiting == []
         && s'.slots == s.slots[c := s'.slots[c]]
       else
         && s'.At(t) == Reserving && s'.active == s.active - 1 && s'.slots == s.slots - {c}
         && s'.sent == s.sent && s'.history == s.history
  }

  // After an attempt to open connection c, with n slots in use before it.
  ghost predicate OpenEnded(cfg: Config, t: Thread, c: Conn, connects: bool, auth: Auth, s: State, n: int,
                            r: Acquired, s': State)
  {
    && s'.slots - {c} == s.slots && s'.active == n + (if c in s'.slots then 1 else 0)
    && r == (if connects && (cfg.password ==> auth.Accepted?) then Got(c) else ConnectError)
    && (r == Got(c) ==>
          && s'.In(c, Held(t)) && s'.slots[c] == Slot(Held(t), true, [], [])
          && s'.history == s.history + (if cfg.password then [Exchange(s.sent, s.sent)] else []))
    && (r == ConnectError ==> (c in s'.slots <==> if connects then auth.Raised? else !cfg.isAsync))
    && (r == ConnectError && c in s'.slots ==> s'.In(c, Leaked))
  }

  // The pool object.  Each method performs the atomic actions of the call of the same name; the
  // parameters after the thread say how the outside world responds.  Its contract: a call that
  // nobody interrupts is a run of the transition system.
  class ConnectionPool {
    const cfg: Config
    var state: State

    constructor (cfg: Config)
      ensures state == INITIAL && this.cfg == cfg
    {
      this.cfg := cfg;
      state := INITIAL;
    }

    method Perform(a: Action, ghost start: State, ghost run: seq<Action>) returns (ghost longer: seq<Action>)
      requires Possible(cfg, start, run) && state == After(cfg, start, run)
      requires Enabled(cfg, state, a)
      modifies this
      ensures longer == run + [a] && Possible(cfg, start, longer)
      ensures state == Do(cfg, old(state), a) == After(cfg, start, longer)
    {
      PossibleSnoc(cfg, start, run, a);
      longer := run + [a];
      state := Do(cfg, state, a);
    }

    // newConn is the connection object the call makes if it needs one.  healthy: the server answers
    // PING with PONG, or the writer is not closing.
    method GetConnection(t: Thread, newConn: Conn, healthy: bool, connects: bool, auth: Auth)
      returns (r: Acquired, ghost run: seq<Action>)
      requires Queued(state) && Ordered(state) && state.At(t) == Outside && newConn !in state.slots
      modifies this
      ensures Possible(cfg, old(state), run) && state == After(cfg, old(state), run)
      ensures state.At(t) == Outside
      // The head of the queue is handed out exactly when it is open and healthy and, in the
      // synchronous pool, no frame but a PONG comes before the answer to PING.
      ensures old(state).queue != [] ==>
                var head := old(state).queue[0];
                head in old(state).slots &&
                var k := old(state).slots[head];
                && (r == Got(head) <==>
                      k.open && healthy &&
                      (cfg.isAsync || k.unread == [] || k.unread[0].reply == SimpleString([80, 79, 78, 71])))
                && (r != Got(head) ==> head !in state.slots)
                && state.queue == old(state).queue[1..]
                && (r == Got(head) ==>
                      && state.In(head, Held(t)) && state.slots[head].open && state.slots[head].awaiting == []
                      && |state.slots[head].unread| == |k.unread|
                      && state.slots == old(state).slots[head := state.slots[head]]
                      && state.active == old(state).active)
      // Otherwise a new one is opened if the limit allows it, counted without the head given back.
      ensures var s := old(state);
              var n := if s.queue == [] then s.active else s.active - 1;
              var others := if s.queue == [] then s.slots else s.slots - {s.queue[0]};
              (s.queue == [] || r != Got(s.queue[0])) ==>
                && (r == PoolExhausted <==> n >= cfg.max)
                && (r == Got(newConn) <==> n < cfg.max && connects && (cfg.password ==> auth.Accepted?))
                && (r.Got? ==> r.c == newConn)
                && state.slots - {newConn} == others
                && (r == Got(newConn) ==>
                      && state.In(newConn, Held(t)) && state.slots[newConn] == Slot(Held(t), true, [], [])
                      && state.history == s.history + (if cfg.password then [Exchange(s.sent, s.sent)] else []))
                && state.active == n + (if newConn in state.slots then 1 else 0)
                // A failed attempt keeps its slot when connect raises in the synchronous pool, or
                // the AUTH exchange does in either.
                && (r == ConnectError ==>
                      (newConn in state.slots <==> if connects then auth.Raised? else !cfg.isAsync))
                && (r == ConnectError && newConn in state.slots ==> state.In(newConn, Leaked))
                && (r == PoolExhausted ==> newConn !in state.slots)
    {
      hide Possible, After;
      run := [];
      ghost var start := state;
      NoActions(cfg, start);
      var found, c;
      found, c, run := TakeFromQueue(t, healthy, start, run);
      if found { return Got(c), run; }
      r, run := NewConnection(t, newConn, connects, auth, start, run);
    }

    // The part of get_connection that looks in the queue.
    method TakeFromQueue(t: Thread, healthy: bool, ghost start: State, ghost run: seq<Action>)
      returns (found: bool, c: Conn, ghost longer: seq<Action>)
      requires Possible(cfg, start, run) && state == After(cfg, start, run)
      requires Queued(state) && Ordered(state) && state.At(t) == Outside
      modifies this
      ensures Possible(cfg, start, longer) && state == After(cfg, start, longer)
      ensures old(state).queue == [] ==>
                !found && state == old(state).Move(t, Reserving)
      ensures old(state).queue != [] ==>
                && c == old(state).queue[0] && state.queue == old(state).queue[1..]
                && CheckEnded(cfg, t, c, old(state).slots[c], healthy, old(state), found, state)
    {
      hide Possible, After, Ordered;
      c := 0;
      found := false;
      if state.queue == [] {
        longer := Perform(FindEmpty(t), start, run);
        return;
      }
      c := state.queue[0];
      NotAwaited(state, c);
      longer := Perform(TakeIdle(t), start, run);
      found, longer := CheckTaken(t, c, healthy, start, longer);
    }

    // The health check of a connection taken from the queue.
    method CheckTaken(t: Thread, c: Conn, healthy: bool, ghost start: State, ghost run: seq<Action>)
      returns (passes: bool, ghost longer: seq<Action>)
      requires Possible(cfg, start, run) && state == After(cfg, start, run)
      requires state.At(t) == Occupied && state.In(c, Checking(t)) && state.slots[c].awaiting == []
      modifies this
      ensures Possible(cfg, start, longer) && state == After(cfg, start, longer)
      ensures state.queue == old(state).queue
      ensures CheckEnded(cfg, t, c, old(state).slots[c], healthy, old(state), passes, state)
    {
      hide Possible, After;
      passes := Passes(cfg, state.slots[c], healthy);
      if passes {
        longer := Perform(CheckPasses(t, c), start, run);
      } else {
        longer := Perform(CheckFails(t, c), start, run);
        longer := Perform(GiveBackStale(t, c), start, longer);
      }
    }

    // The part of get_connection after the queue gave nothing usable.
    method NewConnection(t: Thread, c: Conn, connects: bool, auth: Auth, ghost start: State, ghost run: seq<Action>)
      returns (r: Acquired, ghost longer: seq<Action>)
      requires Possible(cfg, start, run) && state == After(cfg, start, run)
      requires state.At(t) == Reserving && c !in state.slots
      modifies this
      ensures Possible(cfg, start, longer) && state == After(cfg, start, longer)
      ensures state.At(t) == Outside && state.queue == old(state).queue
      ensures r == PoolExhausted <==> old(state).active >= cfg.max
      ensures r == PoolExhausted ==> state.slots == old(state).slots && state.active == old(state).active
      ensures r != PoolExhausted ==> OpenEnded(cfg, t, c, connects, auth, old(state), old(state).active, r, state)
    {
      hide Possible, After;
      if state.active >= cfg.max {
        longer := Perform(Exhausted(t), start, run);
        return PoolExhausted, longer;
      }
      ghost var before := state.slots;
      longer := Perform(Reserve(t, c), start, run);
      assert state.slots - {c} == before;
      r, longer := Open(t, c, connects, auth, start, longer);
    }

    method Open(t: Thread, c: Conn, connects: bool, auth: Auth, ghost start: State, ghost run: seq<Action>)
      returns (r: Acquired, ghost longer: seq<Action>)
      requires Possible(cfg, start, run) && state == After(cfg, start, run)
      requires state.At(t) == Occupied && state.In(c, Creating(t))
      modifies this
      ensures Possible(cfg, start, longer) && state == After(cfg, start, longer)
      ensures state.At(t) == Outside && state.queue == old(state).queue
      ensures r != PoolExhausted
      ensures OpenEnded(cfg, t, c, connects, auth, old(state).(slots := old(state).slots - {c}),
                        old(state).active - 1, r, state)
    {
      hide Possible, After;
      if !connects {
        longer := Perform(ConnectRaises(t, c), start, run);
        if cfg.isAsync {
          longer := Perform(GiveBackRefused(t, c), start, longer);
        }
        return ConnectError, longer;
      }
      longer := Perform(ConnectSucceeds(t, c), start, run);
      r := Got(c);
      if cfg.password {
        r, longer := Authenticate(t, c, auth, start, longer);
      }
    }

    method Authenticate(t: Thread, c: Conn, auth: Auth, ghost start: State, ghost run: seq<Action>)
      returns (r: Acquired, ghost longer: seq<Action>)
      requires Possible(cfg, start, run) && state == After(cfg, start, run)
      requires state.At(t) == Occupied && state.In(c, Authing(t))
      modifies this
      ensures Possible(cfg, start, longer) && state == After(cfg, start, longer)
      ensures state.At(t) == Outside && state.queue == old(state).queue
      ensures state.slots - {c} == old(state).slots - {c}
      ensures if auth.Accepted? then
                r == Got(c) && state.In(c, Held(t)) && state.slots[c] == Slot(Held(t), true, [], [])
              else r == ConnectError
      ensures state.history ==
                old(state).history + if auth.Raised? then [] else [Exchange(old(state).sent, old(state).sent)]
      ensures auth.Raised? <==> state.In(c, Leaked)
      ensures auth.Denied? <==> c !in state.slots
      ensures state.active == old(state).active - (if auth.Denied? then 1 else 0)
    {
      hide Possible, After;
      match auth
      case Accepted =>
        longer := Perform(AuthSucceeds(t, c), start, run);
        r := Got(c);
      case Denied =>
        longer := Perform(AuthIsRefused(t, c), start, run);
        longer := Perform(GiveBackRefused(t, c), start, longer);
        r := ConnectError;
      case Raised(open) =>
        longer := Perform(AuthRaises(t, c, open), start, run);
        r := ConnectError;
    }

    method ReleaseConnection(t: Thread, c: Conn) returns (ghost run: seq<Action>)
      requires state.At(t) == Outside && state.In(c, Held(t)) && state.slots[c].awaiting == []
      modifies this
      ensures Possible(cfg, old(state), run) && state == After(cfg, old(state), run)
      ensures state.At(t) == Outside
      ensures if old(state).slots[c].open && |old(state).queue| < cfg.max then
                state.queue == old(state).queue + [c] && state.In(c, Idle) && state.active == old(state).active
              else state.queue == old(state).queue && c !in state.slots && state.active == old(state).active - 1
    {
      hide Possible, After;
      run := [];
      ghost var start := state;
      NoActions(cfg, start);
      if state.slots[c].open {
        if |state.queue| < cfg.max {
          run := Perform(ReleaseIdle(t, c), start, run);
          return;
        }
        run := Perform(ReleaseFull(t, c), start, run);
      } else {
        run := Perform(ReleaseClosed(t, c), start, run);
      }
      run := Perform(GiveBackDropped(t, c), start, run);
    }

    // Send requests and read a frame for each, up to the first error, as long as frames arrive.
    method Converse(t: Thread, c: Conn, replies: seq<Reply>, arrives: nat, ghost start: State, ghost run: seq<Action>)
      returns (reading: Reading, ghost longer: seq<Action>)
      requires Possible(cfg, start, run) && state == After(cfg, start, run)
      requires Holding(state, t, c) && state.slots[c].open && state.slots[c].awaiting == [] && replies != []
      modifies this
      ensures Possible(cfg, start, longer) && state == After(cfg, start, longer)
      ensures c in old(state).slots
      ensures var all := Pending(old(state), c, replies);
              && reading == ReadingOf(all, |replies|, arrives)
              && Conversed(old(state), t, c, replies, arrives, state)
              && (reading == AllRead ==> state.slots[c].awaiting == [])
    {
      hide Possible, After, Do, Enabled, Reads, ReadsError, Denote, LeftOf, FirstError;
      ghost var s := state;
      ghost var all := Pending(s, c, replies);
      ReadsSent(cfg, s, t, c, replies);
      longer := Perform(SendSucceeds(t, c, replies), start, run);
      var i := 0;
      while i < |replies| && i < arrives
        invariant 0 <= i <= |replies| && i <= arrives
        invariant Possible(cfg, start, longer) && state == After(cfg, start, longer)
        invariant Reads(s, t, c, replies, i, state) && state.At(t) == Outside
        invariant forall j :: 0 <= j < i ==> Denote(all[j].reply).Means?
      {
        ReadsNext(cfg, s, t, c, replies, i, state);
        ReadHead(s, t, c, replies, i, state);
        var fails := Denote(state.slots[c].unread[0].reply).Fails?;
        longer := Perform(Receive(t, c), start, longer);
        if fails {
          FirstErrorIs(all, |replies|, i);
          ErrorConversed(s, t, c, replies, arrives, i, state);
          return ErrorRead, longer;
        }
        i := i + 1;
      }
      NoErrorBefore(all, |replies|, i);
      ValuesConversed(s, t, c, replies, arrives, i, state);
      reading := if i < |replies| then BrokenOff else AllRead;
    }

    // _execute on a connection that has been borrowed: send, read one frame, and in the synchronous
    // client disconnect on any exception it catches, an error reply included.  sends, arrives: the
    // command goes out, and a frame comes back; interrupted: what goes wrong is no Exception.
    // answered: the requests whose frames were read.
    method Execute(t: Thread, c: Conn, reply: Reply, sends: bool, arrives: bool, interrupted: bool)
      returns (answered: seq<Request>, raised: bool, ghost run: seq<Action>)
      requires Holding(state, t, c) && state.slots[c].awaiting == []
      modifies this
      ensures Possible(cfg, old(state), run) && state == After(cfg, old(state), run)
      ensures Holding(state, t, c) && state.slots[c].awaiting == []
      ensures var head := Pending(old(state), c, [reply])[0];
              raised <==> !(old(state).slots[c].open && sends && arrives && Denote(head.reply).Means?)
      ensures |answered| == if old(state).slots[c].open && sends && arrives then 1 else 0
      ensures state.history == old(state).history + Pairs(old(state).sent, answered)
      ensures Ordered(old(state)) && answered != [] ==>
                (answered == [old(state).sent] <==> old(state).slots[c].unread == [])
      ensures state.slots[c].open <==>
                old(state).slots[c].open && (cfg.isAsync || !raised || (interrupted && answered == []))
      ensures state.slots[c].open ==>
                state.slots[c].unread ==
                if sends then Remaining(Pending(old(state), c, [reply]), 1, if arrives then 1 else 0)
                else old(state).slots[c].unread
    {
      hide Possible, After, Do, Enabled, Pending, Remaining, ReadingOf, CountOf, Denote, LeftOf, Ordered, Requests,
           Pairs, Numbered;
      run := [];
      answered := [];
      raised := true;
      ghost var s := state;
      NoActions(cfg, s);
      NothingAnswered(s);
      if state.slots[c].open && sends {
        var n := if arrives then 1 else 0;
        OneFrame(Pending(s, c, [reply]), n);
        answered := Requests(Pending(state, c, [reply])[..n]);
        var reading;
        reading, run := Converse(t, c, [reply], n, s, run);
        if Ordered(s) && arrives { AnsweredOwnIff(s, c, [reply], 1); OneNumber(s.sent); }
        if reading == AllRead { return answered, false, run; }
      }
      var a := if interrupted && answered == [] then Interrupted(t, c) else ExecuteRaises(t, c);
      RaiseStep(cfg, state, t, c, a);
      run := Perform(a, s, run);
    }

    // The execute of a pipeline on a borrowed connection.  arrives: how many frames come back;
    // closes: what goes wrong with the sending or receiving, if anything does, disconnects.
    method ExecutePipeline(t: Thread, c: Conn, replies: seq<Reply>, sends: bool, arrives: nat, closes: bool)
      returns (answered: seq<Request>, raised: bool, ghost run: seq<Action>)
      requires Holding(state, t, c) && state.slots[c].awaiting == []
      modifies this
      ensures Possible(cfg, old(state), run) && state == After(cfg, old(state), run)
      ensures Holding(state, t, c) && state.slots[c].awaiting == []
      ensures var all, n := Pending(old(state), c, replies), |replies|;
              var sent := n > 0 && old(state).slots[c].open && sends;
              && (raised <==> n > 0 && !(sent && ReadingOf(all, n, arrives) == AllRead))
              && answered == (if sent then Requests(all[..CountOf(all, n, arrives)]) else [])
              && (state.slots[c].open <==>
                    old(state).slots[c].open &&
                    (cfg.isAsync || !closes || !raised || (sent && ReadingOf(all, n, arrives) == ErrorRead)))
              && (state.slots[c].open ==>
                    state.slots[c].unread == if sent then Remaining(all, n, arrives) else old(state).slots[c].unread)
      ensures state.history == old(state).history + Pairs(old(state).sent, answered)
      ensures Ordered(old(state)) && answered != [] ==>
                (answered == Numbered(old(state).sent, |answered|) <==> old(state).slots[c].unread == [])
    {
      hide Possible, After, Do, Enabled, Pending, Remaining, ReadingOf, CountOf, Denote, LeftOf, Ordered, Requests,
           Pairs, Numbered;
      run := [];
      answered := [];
      raised := false;
      ghost var s := state;
      NoActions(cfg, s);
      NothingAnswered(s);
      if replies == [] { return; }
      raised := true;
      var a := if state.slots[c].open && !closes then PipelineRaises(t, c) else ExecuteRaises(t, c);
      if state.slots[c].open && sends {
        var n := |replies|;
        var k := CountOf(Pending(state, c, replies), n, arrives);
        answered := Requests(Pending(state, c, replies)[..k]);
        var reading;
        reading, run := Converse(t, c, replies, arrives, s, run);
        if Ordered(s) && k > 0 { AnsweredOwnIff(s, c, replies, k); }
        if reading == AllRead { return answered, false, run; }
        if reading == ErrorRead { a := PipelineRaises(t, c); }
      }
      RaiseStep(cfg, state, t, c, a);
      run := Perform(a, s, run);
    }

    method DisconnectAll(t: Thread) returns (ghost run: seq<Action>)
      requires Queued(state) && state.At(t) == Outside
      modifies this
      ensures Possible(cfg, old(state), run) && state == After(cfg, old(state), run)
      ensures state.queue == [] && state.active == 0 && state.At(t) == Outside
      ensures forall c :: c in state.slots <==> c in Outstanding(old(state)) && old(state).slots[c].phase != Idle
      ensures forall c :: c in state.slots ==> state.slots[c] == old(state).slots[c]
    {
      hide Possible, After;
      run := [];
      ghost var start := state;
      NoActions(cfg, start);
      run := Perform(StartDrain(t), start, run);
      run := DrainQueue(t, start, run);
      run := Perform(DrainDone(t), start, run);
      run := Perform(ResetCount(t), start, run);
    }

    // Close every connection in the queue.
    method DrainQueue(t: Thread, ghost start: State, ghost run: seq<Action>) returns (ghost longer: seq<Action>)
      requires Possible(cfg, start, run) && state == After(cfg, start, run)
      requires Queued(state) && state.At(t) == Draining
      modifies this
      ensures Possible(cfg, start, longer) && state == After(cfg, start, longer)
      ensures Queued(state) && state.queue == [] && state.At(t) == Draining
      ensures state.slots.Keys == old(state).slots.Keys
      ensures forall c {:trigger state.slots[c]} :: c in old(state).slots ==>
                state.slots[c] == old(state).slots[c] ||
                (old(state).slots[c].phase == Idle && state.slots[c].phase == Drained)
    {
      hide Possible, After;
      longer := run;
      while state.queue != []
        invariant Possible(cfg, start, longer) && state == After(cfg, start, longer)
        invariant Queued(state) && state.At(t) == Draining
        invariant state.slots.Keys == old(state).slots.Keys
        invariant forall c {:trigger state.slots[c]} :: c in old(state).slots ==>
                    state.slots[c] == old(state).slots[c] ||
                    (old(state).slots[c].phase == Idle && state.slots[c].phase == Drained)
        decreases |state.queue|
      {
        QueuedStep(cfg, state, DrainOne(t));
        longer := Perform(DrainOne(t), start, longer);
      }
    }
  }
}
