// Which request a reply is handed to.  The server answers the requests of a connection in order, so
// a borrower reads the replies to its own requests as long as nothing of an earlier one is still on
// the way: src/kachedb/client.py:152-175, src/kachedb/pipeline.py:169-187, src/kachedb/async_client.py:113-127.
module Pairing {

  import opened Resp
  import opened RespCodec
  import opened Pool

  // Every frame handed out belonged to the reply to the request it was handed out for.
  ghost predicate Paired(s: State)
  {
    forall i :: 0 <= i < |s.history| ==> s.history[i].sent == s.history[i].answered
  }

  predicate Increasing(q: seq<Request>)
  {
    forall i, j :: 0 <= i < j < |q| ==> q[i] < q[j]
  }

  predicate Below(q: seq<Frame>, n: nat)
  {
    forall i :: 0 <= i < |q| ==> q[i].to < n
  }

  // The frames are replies to these requests.
  predicate Answers(q: seq<Frame>, requests: seq<Request>)
  {
    |q| == |requests| && forall i :: 0 <= i < |q| ==> q[i].to == requests[i]
  }

  predicate Usable(p: Phase) { p.Idle? || p.Checking? || p.Held? }

  // Only a borrower waits, and a connection that is not open for use has nothing on its way.
  predicate Settled(k: Slot)
  {
    (k.phase.Held? || k.awaiting == []) && (Usable(k.phase) || k.unread == [])
  }

  // What is on its way on a connection and belongs to earlier requests.
  function Stray(k: Slot): seq<Frame>
    requires |k.awaiting| <= |k.unread|
  {
    k.unread[..|k.unread| - |k.awaiting|]
  }

  // What is awaited comes last, in the order of the requests; what comes before it belongs to
  // earlier ones.
  predicate SlotOrdered(sent: nat, k: Slot)
  {
    && Settled(k)
    && |k.awaiting| <= |k.unread|
    && Answers(k.unread[|k.unread| - |k.awaiting|..], k.awaiting)
    && Increasing(k.awaiting)
    && (forall i :: 0 <= i < |k.awaiting| ==> k.awaiting[i] < sent)
    && Below(Stray(k), if k.awaiting == [] then sent else k.awaiting[0])
  }

  ghost predicate Ordered(s: State)
  {
    forall c :: c in s.slots ==> SlotOrdered(s.sent, s.slots[c])
  }

  // An action that takes one frame from a connection.
  predicate ReadsFrame(cfg: Config, a: Action)
  {
    a.Receive? || (a.CheckPasses? && !cfg.isAsync)
  }

  // An action by which a borrower stops waiting while the connection stays open.
  predicate GivesUp(cfg: Config, a: Action)
  {
    a.PipelineRaises? || a.Interrupted? || (a.ExecuteRaises? && cfg.isAsync)
  }

  // An action that closes connection c.
  predicate Closes(cfg: Config, s: State, a: Action, c: Conn)
  {
    match a
    case CheckFails(_, d) => d == c
    case ReleaseFull(_, d) => d == c
    case ReleaseClosed(_, d) => d == c
    case ExecuteRaises(_, d) => d == c && !cfg.isAsync
    case DrainOne(_) => s.queue != [] && s.queue[0] == c
    case CallInterrupted(_, d) => d == c  // or leaks it, and nobody will use it again
    case _ => false
  }

  // ---- The order of frames ----

  predicate Traffic(a: Action) { a.SendSucceeds? || a.Receive? || a.CheckPasses? }

  lemma OrderedStep(cfg: Config, s: State, a: Action)
    requires Queued(s) && Ordered(s) && Enabled(cfg, s, a)
    ensures Ordered(Do(cfg, s, a))
  {
    if Traffic(a) {
      hide Queued, SlotOrdered;
      var s' := Do(cfg, s, a);
      assert SlotOrdered(s.sent, s.slots[a.c]);
      TrafficOrdered(cfg, s, a);
      forall d | d in s'.slots && d != a.c ensures SlotOrdered(s'.sent, s'.slots[d]) {
        LaterOrdered(s.sent, s'.sent, s.slots[d]);
      }
    } else {
      OtherwiseOrdered(cfg, s, a);
    }
  }

  lemma LaterOrdered(sent: nat, later: nat, k: Slot)
    requires SlotOrdered(sent, k) && sent <= later
    ensures SlotOrdered(later, k)
  {
  }

  lemma TrafficOrdered(cfg: Config, s: State, a: Action)
    requires Enabled(cfg, s, a) && Traffic(a) && SlotOrdered(s.sent, s.slots[a.c])
    ensures SlotOrdered(Do(cfg, s, a).sent, Do(cfg, s, a).slots[a.c])
  {
    var k := s.slots[a.c];
    if a.SendSucceeds? {
      SentOrdered(s.sent, k, a.replies);
    } else if a.Receive? {
      ReceivedOrdered(s.sent, k);
    } else if !cfg.isAsync {
      var pending := k.unread + [Frame(s.sent, PONG)];
      assert k.unread == Stray(k);
      assert Below(pending, s.sent + 1);
      assert Stray(Slot(Held(a.t), k.open, pending[1..], [])) == pending[1..];
    }
  }

  lemma SentOrdered(sent: nat, k: Slot, replies: seq<Reply>)
    requires SlotOrdered(sent, k) && k.phase.Held? && k.awaiting == [] && replies != []
    ensures SlotOrdered(sent + |replies|,
                        k.(unread := k.unread + Framed(sent, replies), awaiting := Numbered(sent, |replies|)))
  {
    var k' := k.(unread := k.unread + Framed(sent, replies), awaiting := Numbered(sent, |replies|));
    assert Stray(k') == k.unread == Stray(k);
    assert k'.unread[|k.unread|..] == Framed(sent, replies);
  }

  lemma ReceivedOrdered(sent: nat, k: Slot)
    requires SlotOrdered(sent, k) && k.awaiting != []
    ensures k.unread != []
    ensures SlotOrdered(sent, k.(unread := Rest(k.unread[0]) + k.unread[1..], awaiting := k.awaiting[1..]))
  {
    hide Rest, Increasing, Below;
    var k' := k.(unread := Rest(k.unread[0]) + k.unread[1..], awaiting := k.awaiting[1..]);
    var m := |k.unread| - |k.awaiting|;
    assert k.unread[m..][0] == k.unread[m];
    assert k'.unread[|k'.unread| - |k'.awaiting|..] == k.unread[m..][1..];
    assert forall i :: 0 <= i < |k'.awaiting| ==> k'.awaiting[i] == k.awaiting[i + 1];
    IncreasingTail(k.awaiting);
    StrayAfter(k, k');
    StrayBelow(sent, k, k');
  }

  lemma IncreasingTail(q: seq<Request>)
    requires Increasing(q) && q != []
    ensures Increasing(q[1..]) && (|q| > 1 ==> q[0] < q[1])
  {
  }

  // The frame read leaves its rest behind, and the frame awaited first becomes a stray one unless
  // it is the one that was read.
  lemma StrayAfter(k: Slot, k': Slot)
    requires 0 < |k.awaiting| <= |k.unread|
    requires k' == k.(unread := Rest(k.unread[0]) + k.unread[1..], awaiting := k.awaiting[1..])
    ensures |k'.awaiting| <= |k'.unread|
    ensures Stray(k') == Rest(k.unread[0]) + (Stray(k) + [k.unread[|k.unread| - |k.awaiting|]])[1..]
  {
    hide Rest;
    var m := |k.unread| - |k.awaiting|;
    assert Stray(k) + [k.unread[m]] == k.unread[..m + 1];
    assert k.unread[..m + 1][1..] == k.unread[1..m + 1];
  }

  lemma StrayBelow(sent: nat, k: Slot, k': Slot)
    requires 0 < |k.awaiting| <= |k.unread| && |k'.awaiting| <= |k'.unread|
    requires Below(Stray(k), k.awaiting[0]) && k.unread[|k.unread| - |k.awaiting|].to == k.awaiting[0] < sent
    requires k'.awaiting == k.awaiting[1..] && (k'.awaiting != [] ==> k.awaiting[0] < k'.awaiting[0])
    requires Stray(k') == Rest(k.unread[0]) + (Stray(k) + [k.unread[|k.unread| - |k.awaiting|]])[1..]
    ensures Below(Stray(k'), if k'.awaiting == [] then sent else k'.awaiting[0])
  {
    var through := Stray(k) + [k.unread[|k.unread| - |k.awaiting|]];
    assert Below(through, k.awaiting[0] + 1);
    assert through[0] == k.unread[0];
    assert forall i :: 0 <= i < |through[1..]| ==> through[1..][i] == through[i + 1];
  }

  // What any other action may do to a slot: nothing, empty it, or change what it is used for.
  predicate Moves(k: Slot, k': Slot)
  {
    || k' == k
    || (k'.unread == [] && k'.awaiting == [])
    || (Usable(k'.phase) && k'.unread == k.unread
        && (k'.awaiting == [] || (k'.awaiting == k.awaiting && !k.phase.Held?)))
  }

  lemma OtherSlots(cfg: Config, s: State, a: Action, d: Conn)
    requires Queued(s) && Enabled(cfg, s, a) && d in Do(cfg, s, a).slots && !Traffic(a)
    ensures var s' := Do(cfg, s, a);
            && s.sent <= s'.sent
            && if d in s.slots then Moves(s.slots[d], s'.slots[d])
               else s'.slots[d].unread == [] && s'.slots[d].awaiting == []
  {
    if MovesQueue(a) { QueuedSlots(cfg, s, a, d); } else { hide Queued; }
  }

  lemma QueuedSlots(cfg: Config, s: State, a: Action, d: Conn)
    requires Queued(s) && Enabled(cfg, s, a) && d in Do(cfg, s, a).slots && MovesQueue(a)
    ensures s.sent == Do(cfg, s, a).sent && d in s.slots && Moves(s.slots[d], Do(cfg, s, a).slots[d])
  {
    assert a.TakeIdle? || a.DrainOne? ==> s.queue[0] in s.queue;
  }

  lemma MovesOrdered(sent: nat, later: nat, k: Slot, k': Slot)
    requires SlotOrdered(sent, k) && sent <= later && Moves(k, k')
    ensures SlotOrdered(later, k')
  {
    LaterOrdered(sent, later, k);
    if k' != k && k'.unread != [] {
      assert Stray(k') == k.unread;
      assert k.unread == Stray(k) + k.unread[|k.unread| - |k.awaiting|..];
      assert Below(k.unread, later);
    }
  }

  lemma OtherwiseOrdered(cfg: Config, s: State, a: Action)
    requires Queued(s) && Ordered(s) && Enabled(cfg, s, a) && !Traffic(a)
    ensures Ordered(Do(cfg, s, a))
  {
    hide Do, Enabled, Queued, Moves, SlotOrdered;
    var s' := Do(cfg, s, a);
    forall d | d in s'.slots ensures SlotOrdered(s'.sent, s'.slots[d]) {
      OtherSlots(cfg, s, a, d);
      if d in s.slots {
        MovesOrdered(s.sent, s'.sent, s.slots[d], s'.slots[d]);
      } else {
        EmptyOrdered(s'.sent, s'.slots[d]);
      }
    }
  }

  lemma EmptyOrdered(sent: nat, k: Slot)
    requires k.unread == [] && k.awaiting == []
    ensures SlotOrdered(sent, k)
  {
  }

  lemma {:induction false} RunsOrdered(cfg: Config, run: seq<Action>)
    requires Possible(cfg, INITIAL, run)
    ensures Queued(After(cfg, INITIAL, run)) && Ordered(After(cfg, INITIAL, run))
  {
    if run != [] {
      RunsOrdered(cfg, run[..|run| - 1]);
      QueuedStep(cfg, After(cfg, INITIAL, run[..|run| - 1]), run[|run| - 1]);
      OrderedStep(cfg, After(cfg, INITIAL, run[..|run| - 1]), run[|run| - 1]);
    }
  }

  // ---- What a read is on the wire ----

  function Replies(q: seq<Frame>): (r: seq<Reply>)
    ensures |r| == |q|
  {
    seq(|q|, i requires 0 <= i < |q| => q[i].reply)
  }

  // What the frames still to come on a connection are on the wire.
  function Unread(k: Slot): seq<Reply> { Replies(k.unread) }

  // Receive does what the parser does with the bytes on the connection: its frame is the one
  // parsed, and what the parser leaves unread are the frames that are still to come.
  lemma ReceiveIsParse(cfg: Config, s: State, t: Thread, c: Conn)
    requires Enabled(cfg, s, Receive(t, c)) && forall r :: r in Unread(s.slots[c]) ==> WellFormed(r)
    ensures var o := ParseFrame(WireAll(Unread(s.slots[c])));
            var s' := Do(cfg, s, Receive(t, c));
            && o.rest == WireAll(Unread(s'.slots[c]))
            && (o.Err? <==> s'.At(t) == Raising(c))
            && o == OutcomeOf(Denote(s.slots[c].unread[0].reply), WireAll(Unread(s.slots[c])[1..]))
  {
    hide WellFormed, ParseFrame, WireAll, Wire, Denote, LeftOf, Rest, Replies;
    ParseOfFrames(s.slots[c].unread);
  }

  lemma ParseOfFrames(q: seq<Frame>)
    requires q != [] && forall r :: r in Replies(q) ==> WellFormed(r)
    ensures var o := ParseFrame(WireAll(Replies(q)));
            && o == OutcomeOf(Denote(q[0].reply), WireAll(Replies(q)[1..]))
            && o.rest == WireAll(Replies(Rest(q[0]) + q[1..]))
  {
    hide WellFormed, ParseFrame, Wire, Denote, LeftOf, Replies, Rest;
    var r, tail := q[0].reply, WireAll(Replies(q)[1..]);
    FirstReply(q);
    ReplyRoundTrip(r, tail);
    LeftIsLeft(r);
    WireAllAppend(LeftOf(r), Replies(q)[1..]);
    assert [] + tail == tail;
  }

  lemma FirstReply(q: seq<Frame>)
    requires q != []
    ensures Replies(q)[0] == q[0].reply && q[0].reply in Replies(q)
    ensures Replies(Rest(q[0]) + q[1..]) == LeftOf(q[0].reply) + Replies(q)[1..]
  {
    hide LeftOf;
  }

  // ---- What is left behind ----

  // The number of frames left behind on connection c, when there were n before a: those whose
  // borrower stops waiting, and the elements of a reply after its first error.
  function LeftAfter(cfg: Config, s: State, a: Action, c: Conn, n: nat): nat
  {
    if Closes(cfg, s, a, c) then 0
    else if GivesUp(cfg, a) && a.c == c && c in s.slots then n + |s.slots[c].awaiting|
    else if a.Receive? && a.c == c && c in s.slots && s.slots[c].unread != [] then
      n + |LeftOf(s.slots[c].unread[0].reply)|
    else n
  }

  // The number of frames left behind on connection c since it was last closed.
  function LeftBehind(cfg: Config, run: seq<Action>, c: Conn): nat
    requires Possible(cfg, INITIAL, run)
  {
    if run == [] then 0
    else
      var before := run[..|run| - 1];
      LeftAfter(cfg, After(cfg, INITIAL, before), run[|run| - 1], c, LeftBehind(cfg, before, c))
  }

  predicate Counts(s: State, c: Conn, n: nat)
  {
    if c in s.slots then |s.slots[c].unread| == |s.slots[c].awaiting| + n else n == 0
  }

  lemma CountsStep(cfg: Config, s: State, a: Action, c: Conn, n: nat)
    requires Ordered(s) && Enabled(cfg, s, a) && Counts(s, c, n)
    ensures Counts(Do(cfg, s, a), c, LeftAfter(cfg, s, a, c, n))
  {
    hide Do, Enabled, LeftAfter, Counts;
    assert c in s.slots ==> SlotOrdered(s.sent, s.slots[c]);
    if Traffic(a) { CountsTraffic(cfg, s, a, c, n); } else { CountsOtherwise(cfg, s, a, c, n); }
  }

  lemma CountsTraffic(cfg: Config, s: State, a: Action, c: Conn, n: nat)
    requires Enabled(cfg, s, a) && Counts(s, c, n) && (c in s.slots ==> Settled(s.slots[c]))
    requires Traffic(a)
    ensures Counts(Do(cfg, s, a), c, LeftAfter(cfg, s, a, c, n))
  {
    hide LeftOf, Denote;
  }

  lemma CountsOtherwise(cfg: Config, s: State, a: Action, c: Conn, n: nat)
    requires Enabled(cfg, s, a) && Counts(s, c, n) && (c in s.slots ==> Settled(s.slots[c]))
    requires !Traffic(a)
    ensures Counts(Do(cfg, s, a), c, LeftAfter(cfg, s, a, c, n))
  {
    hide LeftOf, Denote;
  }

  // Conservation of frames, over every run and for both clients: whatever is on its way on a
  // connection is what its borrower waits for and what was left behind on it since it was opened.
  // Reading, sending, releasing and health checks never get rid of what was left behind.
  lemma {:induction false} UnreadIsAwaitedOrLeft(cfg: Config, run: seq<Action>, c: Conn)
    requires Possible(cfg, INITIAL, run)
    ensures Counts(After(cfg, INITIAL, run), c, LeftBehind(cfg, run, c))
  {
    if run != [] {
      var n := |run| - 1;
      UnreadIsAwaitedOrLeft(cfg, run[..n], c);
      RunsOrdered(cfg, run[..n]);
      CountsStep(cfg, After(cfg, INITIAL, run[..n]), run[n], c, LeftBehind(cfg, run[..n], c));
    }
  }

  // So an idle connection has a frame on its way exactly when one was left behind on it.
  lemma IdleHasNothingUnreadIff(cfg: Config, run: seq<Action>, c: Conn)
    requires Possible(cfg, INITIAL, run) && After(cfg, INITIAL, run).In(c, Idle)
    ensures After(cfg, INITIAL, run).slots[c].unread == [] <==> LeftBehind(cfg, run, c) == 0
  {
    RunsOrdered(cfg, run);
    UnreadIsAwaitedOrLeft(cfg, run, c);
    NotAwaited(After(cfg, INITIAL, run), c);
  }

  lemma NotAwaited(s: State, c: Conn)
    requires Ordered(s) && c in s.slots && !s.slots[c].phase.Held?
    ensures s.slots[c].awaiting == []
  {
    assert SlotOrdered(s.sent, s.slots[c]);
  }

  // ---- Which runs are paired ----

  // A step that takes a frame of an earlier request.
  predicate Misreads(cfg: Config, s: State, a: Action)
  {
    ReadsFrame(cfg, a) && a.c in s.slots && |s.slots[a.c].unread| > |s.slots[a.c].awaiting|
  }

  lemma PairedStepIff(cfg: Config, s: State, a: Action)
    requires Ordered(s) && Enabled(cfg, s, a)
    ensures Paired(Do(cfg, s, a)) <==> Paired(s) && !Misreads(cfg, s, a)
  {
    hide Paired, Ordered, Do, Enabled;
    if ReadsFrame(cfg, a) {
      assert a.c in s.slots && SlotOrdered(s.sent, s.slots[a.c]) by { SlotInOrder(cfg, s, a); }
      HeadIsOwnIff(s.sent, s.slots[a.c]);
      var e := ReadExchange(cfg, s, a);
      PairedSnoc(s, Do(cfg, s, a), e);
    } else {
      OwnHistory(cfg, s, a);
    }
  }

  lemma SlotInOrder(cfg: Config, s: State, a: Action)
    requires Ordered(s) && Enabled(cfg, s, a) && ReadsFrame(cfg, a)
    ensures a.c in s.slots && SlotOrdered(s.sent, s.slots[a.c])
  {
  }

  // What a read adds to the history.
  lemma ReadExchange(cfg: Config, s: State, a: Action) returns (e: Exchange)
    requires Enabled(cfg, s, a) && ReadsFrame(cfg, a) && a.c in s.slots && SlotOrdered(s.sent, s.slots[a.c])
    ensures Do(cfg, s, a).history == s.history + [e]
    ensures var k := s.slots[a.c];
            e.sent == e.answered <==>
            if a.Receive? then k.awaiting != [] && k.unread != [] && k.unread[0].to == k.awaiting[0]
            else k.unread == [] || k.unread[0].to == s.sent
    ensures a.Receive? <==> s.slots[a.c].awaiting != []
  {
    hide LeftOf, Denote, Increasing, Below, Answers;
    e := Do(cfg, s, a).history[|s.history|];
  }

  lemma OwnHistory(cfg: Config, s: State, a: Action)
    requires Enabled(cfg, s, a) && !ReadsFrame(cfg, a)
    ensures Paired(Do(cfg, s, a)) <==> Paired(s)
  {
    hide LeftOf, Denote;
    if a.AuthSucceeds? || a.AuthIsRefused? {
      PairedSnoc(s, Do(cfg, s, a), Exchange(s.sent, s.sent));
    }
  }

  // The first frame on its way belongs to the first request awaited, or to an earlier one.
  lemma HeadIsOwnIff(sent: nat, k: Slot)
    requires SlotOrdered(sent, k)
    ensures k.awaiting != [] ==> (k.unread[0].to == k.awaiting[0] <==> |k.unread| == |k.awaiting|)
    ensures k.awaiting == [] && k.unread != [] ==> k.unread[0].to < sent
  {
    var m := |k.unread| - |k.awaiting|;
    if m > 0 {
      assert k.unread[0] == Stray(k)[0];
    } else if k.awaiting != [] {
      assert k.unread[m..][0] == k.unread[0];
    }
  }

  lemma PairedSnoc(s: State, s': State, e: Exchange)
    requires s'.history == s.history + [e]
    ensures Paired(s') <==> Paired(s) && e.sent == e.answered
  {
    assert s'.history[|s.history|] == e;
    assert forall i :: 0 <= i < |s.history| ==> s'.history[i] == s.history[i];
  }

  // Every frame this run reads is read on a connection on which nothing was left behind since it
  // was opened.
  predicate NothingLeft(cfg: Config, run: seq<Action>)
    requires Possible(cfg, INITIAL, run)
  {
    run == [] ||
    (var before := run[..|run| - 1];
     var a := run[|run| - 1];
     NothingLeft(cfg, before) && (ReadsFrame(cfg, a) ==> LeftBehind(cfg, before, a.c) == 0))
  }

  // Over every run of any threads, with either client: every request gets its own reply if and
  // only if nothing is read on a connection on which something was left behind.
  lemma {:induction false} RunsPairedIff(cfg: Config, run: seq<Action>)
    requires Possible(cfg, INITIAL, run)
    ensures Paired(After(cfg, INITIAL, run)) <==> NothingLeft(cfg, run)
  {
    if run != [] {
      var n := |run| - 1;
      var s, a := After(cfg, INITIAL, run[..n]), run[n];
      RunsPairedIff(cfg, run[..n]);
      RunsOrdered(cfg, run[..n]);
      PairedStepIff(cfg, s, a);
      if ReadsFrame(cfg, a) {
        UnreadIsAwaitedOrLeft(cfg, run[..n], a.c);
      }
    }
  }

  // ---- Runs that use clean connections only ----

  // A request is sent, or a health check made, on a connection with a frame on its way.
  predicate UsesDirty(cfg: Config, s: State, a: Action)
  {
    (a.SendSucceeds? || (a.CheckPasses? && !cfg.isAsync)) && a.c in s.slots && s.slots[a.c].unread != []
  }

  predicate Clean(cfg: Config, run: seq<Action>)
    requires Possible(cfg, INITIAL, run)
  {
    run == [] ||
    (Clean(cfg, run[..|run| - 1]) && !UsesDirty(cfg, After(cfg, INITIAL, run[..|run| - 1]), run[|run| - 1]))
  }

  // Whoever waits waits for everything on its way, until it has read an error and raises.
  ghost predicate Aligned(s: State)
  {
    forall c :: c in s.slots ==> AlignedAt(s, c)
  }

  predicate AlignedAt(s: State, c: Conn)
    requires c in s.slots
  {
    var k := s.slots[c];
    k.awaiting != [] && k.phase.Held? ==> |k.unread| == |k.awaiting| || s.At(k.phase.t) == Raising(c)
  }

  lemma AlignedStep(cfg: Config, s: State, a: Action)
    requires Queued(s) && Ordered(s) && Aligned(s) && Enabled(cfg, s, a) && !UsesDirty(cfg, s, a)
    ensures Aligned(Do(cfg, s, a))
  {
    hide SlotOrdered, Queued;
    var s' := Do(cfg, s, a);
    forall d | d in s'.slots ensures AlignedAt(s', d) {
      if d in s.slots {
        assert AlignedAt(s, d);
        AlignedSlot(cfg, s, a, d);
      }
    }
  }

  lemma AlignedSlot(cfg: Config, s: State, a: Action, d: Conn)
    requires Ordered(s) && Enabled(cfg, s, a) && !UsesDirty(cfg, s, a)
    requires d in s.slots && AlignedAt(s, d) && d in Do(cfg, s, a).slots
    ensures AlignedAt(Do(cfg, s, a), d)
  {
    hide LeftOf, Denote, Ordered, SlotOrdered, Do, Enabled;
    if !s.slots[d].phase.Held? { NotAwaited(s, d); }
    if Traffic(a) { AlignedTraffic(cfg, s, a, d); } else { AlignedOtherwise(cfg, s, a, d); }
  }

  lemma AlignedTraffic(cfg: Config, s: State, a: Action, d: Conn)
    requires Enabled(cfg, s, a) && !UsesDirty(cfg, s, a) && Traffic(a)
    requires d in s.slots && AlignedAt(s, d) && d in Do(cfg, s, a).slots
    requires !s.slots[d].phase.Held? ==> s.slots[d].awaiting == []
    ensures AlignedAt(Do(cfg, s, a), d)
  {
    hide LeftOf, Denote;
    if a.Receive? { MeansLeavesNothing(s.slots[a.c].unread[0].reply); }
  }

  lemma AlignedOtherwise(cfg: Config, s: State, a: Action, d: Conn)
    requires Enabled(cfg, s, a) && !Traffic(a)
    requires d in s.slots && AlignedAt(s, d) && d in Do(cfg, s, a).slots
    requires !s.slots[d].phase.Held? ==> s.slots[d].awaiting == []
    ensures AlignedAt(Do(cfg, s, a), d)
  {
  }

  lemma CleanStepReadsOwn(cfg: Config, s: State, a: Action)
    requires Ordered(s) && Aligned(s) && Enabled(cfg, s, a) && !UsesDirty(cfg, s, a)
    ensures !Misreads(cfg, s, a)
  {
    if ReadsFrame(cfg, a) {
      assert AlignedAt(s, a.c);
      assert SlotOrdered(s.sent, s.slots[a.c]);
    }
  }

  // A run that sends and checks on clean connections only is paired.
  lemma {:induction false} CleanRunsPaired(cfg: Config, run: seq<Action>)
    requires Possible(cfg, INITIAL, run) && Clean(cfg, run)
    ensures Paired(After(cfg, INITIAL, run)) && Aligned(After(cfg, INITIAL, run))
  {
    if run != [] {
      var n := |run| - 1;
      CleanRunsPaired(cfg, run[..n]);
      RunsOrdered(cfg, run[..n]);
      AlignedStep(cfg, After(cfg, INITIAL, run[..n]), run[n]);
      CleanStepReadsOwn(cfg, After(cfg, INITIAL, run[..n]), run[n]);
      PairedStepIff(cfg, After(cfg, INITIAL, run[..n]), run[n]);
    }
  }

  lemma DirtyStep(cfg: Config, s: State, a: Action)
    requires Ordered(s) && Enabled(cfg, s, a) && UsesDirty(cfg, s, a)
    ensures a.CheckPasses? ==> Misreads(cfg, s, a)
    ensures a.SendSucceeds? ==>
              var s' := Do(cfg, s, a);
              Enabled(cfg, s', Receive(a.t, a.c)) && Misreads(cfg, s', Receive(a.t, a.c))
  {
    hide Ordered, LeftOf, Denote;
    if a.CheckPasses? { NotAwaited(s, a.c); }
  }

  // And the first step that does not is wrong at once or as soon as the next frame is read.
  lemma DirtyUseGoesWrong(cfg: Config, run: seq<Action>, a: Action) returns (longer: seq<Action>)
    requires Possible(cfg, INITIAL, run) && Enabled(cfg, After(cfg, INITIAL, run), a)
    requires UsesDirty(cfg, After(cfg, INITIAL, run), a)
    ensures longer == run + [a] || longer == run + [a] + [Receive(a.t, a.c)]
    ensures Possible(cfg, INITIAL, longer) && !Paired(After(cfg, INITIAL, longer))
  {
    hide Possible, After, Paired, Do, Enabled, Ordered, Queued, Misreads;
    var s := After(cfg, INITIAL, run);
    RunsOrdered(cfg, run);
    PossibleSnoc(cfg, INITIAL, run, a);
    longer := run + [a];
    PairedStepIff(cfg, s, a);
    DirtyStep(cfg, s, a);
    if a.SendSucceeds? {
      OrderedStep(cfg, s, a);
      PairedStepIff(cfg, Do(cfg, s, a), Receive(a.t, a.c));
      PossibleSnoc(cfg, INITIAL, longer, Receive(a.t, a.c));
      longer := longer + [Receive(a.t, a.c)];
    }
  }

  // ---- Runs in which nothing is left behind ----

  // A borrower lets an exception out with the connection open and a frame on its way.
  predicate LeavesFrame(cfg: Config, s: State, a: Action)
  {
    GivesUp(cfg, a) && a.c in s.slots && s.slots[a.c].unread != []
  }

  predicate Patient(cfg: Config, run: seq<Action>)
    requires Possible(cfg, INITIAL, run)
  {
    run == [] ||
    (Patient(cfg, run[..|run| - 1]) && !LeavesFrame(cfg, After(cfg, INITIAL, run[..|run| - 1]), run[|run| - 1]))
  }

  // Something is left only while the borrower is about to raise.
  predicate LeftWhileRaising(s: State, c: Conn, n: nat)
  {
    n > 0 ==> c in s.slots && s.slots[c].phase.Held? && s.At(s.slots[c].phase.t) == Raising(c)
  }

  lemma RaisingStep(cfg: Config, s: State, a: Action, c: Conn, n: nat)
    requires Queued(s) && Ordered(s) && Enabled(cfg, s, a) && !LeavesFrame(cfg, s, a)
    requires Counts(s, c, n) && LeftWhileRaising(s, c, n)
    ensures LeftWhileRaising(Do(cfg, s, a), c, LeftAfter(cfg, s, a, c, n))
  {
    hide LeftOf, Denote, Ordered;
    if n == 0 || !s.slots[c].phase.Held? {
      if a.Receive? { MeansLeavesNothing(s.slots[a.c].unread[0].reply); }
    } else {
      WhileRaising(cfg, s, a, c, n);
    }
  }

  lemma WhileRaising(cfg: Config, s: State, a: Action, c: Conn, n: nat)
    requires Queued(s) && Enabled(cfg, s, a) && !LeavesFrame(cfg, s, a)
    requires Counts(s, c, n) && n > 0 && LeftWhileRaising(s, c, n)
    ensures LeftWhileRaising(Do(cfg, s, a), c, LeftAfter(cfg, s, a, c, n))
  {
    hide LeftOf, Denote;
  }

  lemma {:induction false} PatientLeavesNothing(cfg: Config, run: seq<Action>, c: Conn)
    requires Possible(cfg, INITIAL, run) && Patient(cfg, run)
    ensures LeftWhileRaising(After(cfg, INITIAL, run), c, LeftBehind(cfg, run, c))
  {
    if run != [] {
      var n := |run| - 1;
      hide LeftWhileRaising, LeavesFrame, LeftAfter, Do, Enabled, Counts;
      PatientLeavesNothing(cfg, run[..n], c);
      RunsOrdered(cfg, run[..n]);
      UnreadIsAwaitedOrLeft(cfg, run[..n], c);
      RaisingStep(cfg, After(cfg, INITIAL, run[..n]), run[n], c, LeftBehind(cfg, run[..n], c));
    } else {
      assert LeftBehind(cfg, run, c) == 0;
    }
  }

  lemma {:induction false} PatientRunsPaired(cfg: Config, run: seq<Action>)
    requires Possible(cfg, INITIAL, run) && Patient(cfg, run)
    ensures NothingLeft(cfg, run) && Paired(After(cfg, INITIAL, run))
  {
    if run != [] {
      var n := |run| - 1;
      PatientRunsPaired(cfg, run[..n]);
      if ReadsFrame(cfg, run[n]) { PatientLeavesNothing(cfg, run[..n], run[n].c); }
    }
    RunsPairedIff(cfg, run);
  }

  lemma GiveUpStep(cfg: Config, s: State, t: Thread, c: Conn, a: Action)
    requires s.Uses(t, c) && s.slots[c].open && s.slots[c].unread != [] && GivesUp(cfg, a) && a.t == t && a.c == c
    ensures Enabled(cfg, s, a)
    ensures var s' := Do(cfg, s, a);
            && s' == s.Put(c, s.slots[c].(awaiting := [])).Move(t, Outside) && s'.slots[c].unread != []
            && Enabled(cfg, s', SendSucceeds(t, c, [PONG]))
            && UsesDirty(cfg, s', SendSucceeds(t, c, [PONG]))
  {
  }

  // Conversely every frame left behind can be misread: the same borrower's next request gets it.
  lemma LeftIsMisread(cfg: Config, run: seq<Action>, t: Thread, c: Conn, a: Action)
    returns (longer: seq<Action>)
    requires Possible(cfg, INITIAL, run) && After(cfg, INITIAL, run).Uses(t, c)
    requires After(cfg, INITIAL, run).slots[c].open && After(cfg, INITIAL, run).slots[c].unread != []
    requires GivesUp(cfg, a) && a.t == t && a.c == c
    ensures longer == run + [a] + [SendSucceeds(t, c, [PONG])] ||
            longer == run + [a] + [SendSucceeds(t, c, [PONG])] + [Receive(t, c)]
    ensures Possible(cfg, INITIAL, longer) && !Paired(After(cfg, INITIAL, longer))
  {
    hide Possible, After, Paired, Do, Enabled, UsesDirty;
    GiveUpStep(cfg, After(cfg, INITIAL, run), t, c, a);
    PossibleSnoc(cfg, INITIAL, run, a);
    longer := DirtyUseGoesWrong(cfg, run + [a], SendSucceeds(t, c, [PONG]));
  }

  // Or it goes back to the pool with the connection.
  lemma LeftStaysOnIdle(cfg: Config, run: seq<Action>, t: Thread, c: Conn, a: Action)
    requires Possible(cfg, INITIAL, run) && After(cfg, INITIAL, run).Uses(t, c)
    requires After(cfg, INITIAL, run).slots[c].open && After(cfg, INITIAL, run).slots[c].unread != []
    requires GivesUp(cfg, a) && a.t == t && a.c == c && |After(cfg, INITIAL, run).queue| < cfg.max
    ensures var longer := run + [a] + [ReleaseIdle(t, c)];
            && Possible(cfg, INITIAL, longer) && After(cfg, INITIAL, longer).In(c, Idle)
            && After(cfg, INITIAL, longer).slots[c].unread != []
  {
    hide Possible, After;
    GiveUpStep(cfg, After(cfg, INITIAL, run), t, c, a);
    PossibleSnoc(cfg, INITIAL, run, a);
    PossibleSnoc(cfg, INITIAL, run + [a], ReleaseIdle(t, c));
  }

  // ---- The two clients ----

  // Thread 0 sends its first requests on the first connection.
  lemma FirstRequests(cfg: Config, replies: seq<Reply>) returns (run: seq<Action>)
    requires cfg.max >= 1 && replies != []
    ensures Possible(cfg, INITIAL, run) && CommandsOnly(run) && NoCommandRaises(run)
    ensures var s := After(cfg, INITIAL, run);
            s.Uses(0, 0) && s.At(0) == Outside && s.queue == [] && s.slots[0].open
            && s.slots[0].unread == Framed(FirstHeld(cfg).sent, replies)
            && s.slots[0].awaiting == Numbered(FirstHeld(cfg).sent, |replies|)
  {
    hide Possible, After, Do, Enabled, FirstHeld, Framed, Numbered;
    FirstConnectionRuns(cfg);
    run := FirstConnection(cfg);
    FirstSend(cfg, replies);
    PossibleSnoc(cfg, INITIAL, run, SendSucceeds(0, 0, replies));
    run := run + [SendSucceeds(0, 0, replies)];
  }

  lemma FirstSend(cfg: Config, replies: seq<Reply>)
    requires replies != []
    ensures Enabled(cfg, FirstHeld(cfg), SendSucceeds(0, 0, replies))
    ensures var s := Do(cfg, FirstHeld(cfg), SendSucceeds(0, 0, replies));
            s.Uses(0, 0) && s.At(0) == Outside && s.queue == [] && s.slots[0].open
            && s.slots[0].unread == Framed(FirstHeld(cfg).sent, replies)
            && s.slots[0].awaiting == Numbered(FirstHeld(cfg).sent, |replies|)
  {
    hide Framed, Numbered;
    assert [] + Framed(FirstHeld(cfg).sent, replies) == Framed(FirstHeld(cfg).sent, replies);
  }

  // No pipeline fails in this run, and no command is interrupted.
  predicate CommandsOnly(run: seq<Action>)
  {
    forall i :: 0 <= i < |run| ==> !run[i].PipelineRaises? && !run[i].Interrupted?
  }

  predicate NoCommandRaises(run: seq<Action>)
  {
    forall i :: 0 <= i < |run| ==> !run[i].ExecuteRaises?
  }

  // Either client, a pipeline on one connection, open all the time: a first reply with an error in
  // it, and more to come - the replies to later commands, or elements after the error.  The next
  // command gets them.
  lemma FailedPipelineIsMisread(cfg: Config, replies: seq<Reply>) returns (run: seq<Action>)
    requires cfg.max >= 1 && replies != [] && Denote(replies[0]).Fails?
    requires |replies| > 1 || LeftOf(replies[0]) != []
    ensures Possible(cfg, INITIAL, run) && !Paired(After(cfg, INITIAL, run))
    ensures NoCommandRaises(run) && forall i :: 0 <= i < |run| ==> !run[i].Interrupted?
  {
    hide Possible, After, Paired, Denote, LeftOf;
    run := FirstRequests(cfg, replies);
    ReadFirst(cfg, After(cfg, INITIAL, run), FirstHeld(cfg).sent, replies);
    PossibleSnoc(cfg, INITIAL, run, Receive(0, 0));
    run := run + [Receive(0, 0)];
    run := LeftIsMisread(cfg, run, 0, 0, PipelineRaises(0, 0));
  }

  lemma ReadFirst(cfg: Config, s: State, first: nat, replies: seq<Reply>)
    requires s.Uses(0, 0) && s.At(0) == Outside && s.slots[0].open && replies != [] && Denote(replies[0]).Fails?
    requires s.slots[0].unread == Framed(first, replies) && s.slots[0].awaiting == Numbered(first, |replies|)
    ensures Enabled(cfg, s, Receive(0, 0))
    ensures var s' := Do(cfg, s, Receive(0, 0));
            && s'.Uses(0, 0) && s'.slots[0].open
            && |s'.slots[0].unread| == |LeftOf(replies[0])| + |replies| - 1
  {
  }

  // An interrupt while a command waits: the synchronous client catches Exception only, so the
  // connection stays open with the reply on its way.
  lemma InterruptedIsMisread(cfg: Config) returns (run: seq<Action>)
    requires cfg.max >= 1
    ensures Possible(cfg, INITIAL, run) && !Paired(After(cfg, INITIAL, run))
    ensures NoCommandRaises(run) && forall i :: 0 <= i < |run| ==> !run[i].PipelineRaises?
  {
    hide Possible, After, Paired;
    run := FirstRequests(cfg, [PONG]);
    run := LeftIsMisread(cfg, run, 0, 0, Interrupted(0, 0));
  }

  lemma {:induction false} SynchronousCommandsPatient(cfg: Config, run: seq<Action>)
    requires !cfg.isAsync && Possible(cfg, INITIAL, run) && CommandsOnly(run)
    ensures Patient(cfg, run)
  {
    if run != [] { SynchronousCommandsPatient(cfg, run[..|run| - 1]); }
  }

  // Without pipelines that fail and without interrupts: every request gets its own reply, over any
  // run, any replies and any mix of other errors, exactly when the client is the synchronous one.
  // (With either of them no client is safe: FailedPipelineIsMisread, InterruptedIsMisread.)
  lemma PairedIffSynchronous(cfg: Config)
    requires cfg.max >= 1
    ensures (forall run :: Possible(cfg, INITIAL, run) && CommandsOnly(run) ==> Paired(After(cfg, INITIAL, run)))
            <==> !cfg.isAsync
  {
    hide Possible, After, Paired;
    if cfg.isAsync {
      var run := FirstRequests(cfg, [PONG]);
      run := LeftIsMisread(cfg, run, 0, 0, ExecuteRaises(0, 0));
      assert CommandsOnly(run);
    } else {
      forall run | Possible(cfg, INITIAL, run) && CommandsOnly(run) ensures Paired(After(cfg, INITIAL, run)) {
        SynchronousCommandsPatient(cfg, run);
        PatientRunsPaired(cfg, run);
      }
    }
  }
}
