// Pipeline of src/kachedb/pipeline.py: one send for all queued commands, then one read for each.
module Pipeline {
  import opened Bytes
  import opened Decimal
  import opened Resp
  import opened RespCodec
  import opened RespReader

  // A connection: whether it is open, what has been sent on it, and its reader.
  class Connection {
    const reader: Reader
    var connected: bool
    var sent: Bytes

    ghost predicate Valid()
      reads this, reader, reader.sock
    {
      reader.Valid()
    }

    constructor (reader: Reader)
      requires reader.Valid()
      ensures Valid() && connected && sent == [] && this.reader == reader
    {
      this.reader := reader;
      connected := true;
      sent := [];
    }

    // transmits: the socket takes all of it.  Otherwise the connection is closed; false is the
    // exception raised.
    method SendPacked(data: Bytes, transmits: bool) returns (ok: bool)
      modifies this`sent, this`connected
      ensures ok <==> old(connected) && transmits
      ensures connected <==> ok
      ensures ok ==> sent == old(sent) + data
    {
      if !connected { return false; }
      if !transmits {
        connected := false;
        return false;
      }
      sent := sent + data;
      ok := true;
    }
  }

  // encode_command: the parts are collected and joined.
  method BuildCommand(args: seq<Bytes>) returns (r: Bytes)
    ensures r == EncodeCommand(args)
  {
    var parts := [[STAR] + Print(|args|) + CRLF];
    assert Join(parts) == parts[0] + Join(parts[1..]);
    assert args[0..] == args;
    for i := 0 to |args|
      invariant Join(parts) + EncodeBulks(args[i..]) == EncodeCommand(args)
    {
      assert args[i..][0] == args[i] && args[i..][1..] == args[i + 1..];
      BulkParts(parts, args[i], EncodeBulks(args[i + 1..]));
      parts := parts + [[DOLLAR] + Print(|args[i]|) + CRLF] + [args[i]] + [CRLF];
    }
    assert Join(parts) + [] == Join(parts);
    r := Join(parts);
  }

  lemma BulkParts(parts: seq<Bytes>, data: Bytes, more: Bytes)
    ensures Join(parts + [[DOLLAR] + Print(|data|) + CRLF] + [data] + [CRLF]) + more ==
            Join(parts) + (EncodeBulk(data) + more)
  {
    hide Join, Print;
    var header := [DOLLAR] + Print(|data|) + CRLF;
    JoinSnoc(parts, header);
    JoinSnoc(parts + [header], data);
    JoinSnoc(parts + [header] + [data], CRLF);
    assert EncodeBulk(data) == header + data + CRLF;
    assert Join(parts) + (header + data + CRLF + more) == Join(parts) + header + data + CRLF + more;
  }

  method BuildCommands(commands: seq<seq<Bytes>>) returns (r: Bytes)
    ensures r == EncodeCommands(commands)
  {
    r := [];
    assert commands[0..] == commands;
    for i := 0 to |commands|
      invariant r + EncodeCommands(commands[i..]) == EncodeCommands(commands)
    {
      var c := BuildCommand(commands[i]);
      assert commands[i..][0] == commands[i] && commands[i..][1..] == commands[i + 1..];
      assert r + (c + EncodeCommands(commands[i + 1..])) == (r + c) + EncodeCommands(commands[i + 1..]);
      r := r + c;
    }
    assert r + [] == r;
  }

  datatype Execution = Results(values: seq<Value>) | Raised(failure: Failure) | NotSent

  function ExecutionOf(r: Outcomes): Execution
  {
    if r.OkAll? then Results(r.values) else Raised(r.failure)
  }

  class Pipeline {
    const conn: Connection
    var commands: seq<seq<Bytes>>

    constructor (conn: Connection)
      ensures commands == [] && this.conn == conn
    {
      this.conn := conn;
      commands := [];
    }

    method Queue(args: seq<Bytes>)
      modifies this
      ensures commands == old(commands) + [args]
    {
      commands := commands + [args];
    }

    // Everything queued is sent at once and forgotten, sent or not; the replies are read in order
    // up to the first error.
    method Execute(transmits: bool) returns (r: Execution)
      requires conn.Valid()
      modifies this, conn`sent, conn`connected, conn.reader`buf, conn.reader`pos, conn.reader.sock
      ensures commands == []
      ensures r == NotSent <==> old(commands) != [] && !(old(conn.connected) && transmits)
      ensures conn.connected <==> old(conn.connected) && r != NotSent
      ensures r == NotSent ==> conn.Valid() && conn.reader.Stream() == old(conn.reader.Stream())
      ensures r != NotSent ==> conn.sent == old(conn.sent) + EncodeCommands(old(commands))
      ensures r != NotSent ==> ReadAll(old(conn.reader.Stream()), |old(commands)|, r)
    {
      if commands == [] {
        assert conn.sent + [] == conn.sent;
        return Results([]);
      }
      var packed := BuildCommands(commands);
      var count := |commands|;
      commands := [];
      var ok := conn.SendPacked(packed, transmits);
      if !ok { return NotSent; }
      r := ReadReplies(count);
    }

    // r is what reading count frames of this stream comes to, and the reader is left behind them
    // - unless a length below -1 has moved its cursor back, at which the model stops.
    ghost predicate ReadAll(s: Bytes, count: nat, r: Execution)
      reads conn, conn.reader, conn.reader.sock
    {
      var m := ParseMany(s, count);
      r == ExecutionOf(m) && (IsRewindAll(m) || (conn.Valid() && conn.reader.Stream() == m.rest))
    }

    // One read for each command, up to the first error.
    method ReadReplies(count: nat) returns (r: Execution)
      requires conn.Valid()
      modifies conn.reader`buf, conn.reader`pos, conn.reader.sock
      ensures ReadAll(old(conn.reader.Stream()), count, r)
    {
      hide ParseFrame, Rewinds;
      var results, i := [], 0;
      ghost var s := conn.reader.Stream();
      while i < count
        invariant 0 <= i <= count && conn.Valid()
        invariant ParseMany(s, count) == Continue(results, ParseMany(conn.reader.Stream(), count - i))
      {
        ghost var before := conn.reader.Stream();
        if Rewinds(before) { RewindsMeansRewind(before); }
        ElementOutcome(s, count, results, before, count - i);
        var o := conn.reader.ReadResponse();
        if o.Rewound? {
          return Raised(Rewind(o.length));
        }
        if o.Raises? {
          return Raised(o.failure);
        }
        OneMoreRead(s, count, results, before, count - i, o.value, conn.reader.Stream());
        results := results + [o.value];
        i := i + 1;
      }
      assert results + [] == results;
      r := Results(results);
    }
  }

  // ---- Which reply goes with which command ----

  // The stream after i frames.
  function StreamAfter(s: Bytes, i: nat): Bytes
    decreases i
  {
    if i == 0 then s else StreamAfter(ParseFrame(s).rest, i - 1)
  }

  ghost predicate AllOk(s: Bytes, n: nat)
  {
    forall i :: 0 <= i < n ==> ParseFrame(StreamAfter(s, i)).Ok?
  }

  lemma AllOkFirst(s: Bytes, n: nat)
    requires n > 0
    ensures AllOk(s, n) <==> ParseFrame(s).Ok? && AllOk(ParseFrame(s).rest, n - 1)
  {
    var rest := ParseFrame(s).rest;
    assert StreamAfter(s, 0) == s;
    if AllOk(s, n) {
      forall i | 0 <= i < n - 1 ensures ParseFrame(StreamAfter(rest, i)).Ok? {
        assert StreamAfter(s, i + 1) == StreamAfter(rest, i);
      }
    }
    if ParseFrame(s).Ok? && AllOk(rest, n - 1) {
      forall i | 0 <= i < n ensures ParseFrame(StreamAfter(s, i)).Ok? {
        if i > 0 { assert StreamAfter(s, i) == StreamAfter(rest, i - 1); }
      }
    }
  }

  // n results come back exactly when each of the first n frames reads as a value; then exactly n
  // frames are consumed.
  lemma {:induction false} ResultsIffAllOk(s: Bytes, n: nat)
    ensures ParseMany(s, n).OkAll? <==> AllOk(s, n)
    ensures AllOk(s, n) ==> ParseMany(s, n).rest == StreamAfter(s, n) && |ParseMany(s, n).values| == n
    decreases n
  {
    if n > 0 {
      AllOkFirst(s, n);
      if ParseFrame(s).Ok? { ResultsIffAllOk(ParseFrame(s).rest, n - 1); }
    }
  }

  // Result i is the value of frame i.
  lemma {:induction false} ResultsInOrder(s: Bytes, n: nat, i: nat)
    requires AllOk(s, n) && i < n && ParseMany(s, n).OkAll? && |ParseMany(s, n).values| == n
    ensures Ok(ParseMany(s, n).values[i], StreamAfter(s, i + 1)) == ParseFrame(StreamAfter(s, i))
    decreases n
  {
    hide ParseFrame;
    AllOkFirst(s, n);
    var rest := ParseFrame(s).rest;
    ResultsIffAllOk(rest, n - 1);
    if i > 0 {
      ResultsInOrder(rest, n - 1, i - 1);
      assert ParseMany(s, n).values[i] == ParseMany(rest, n - 1).values[i - 1];
    } else {
      assert StreamAfter(s, 1) == StreamAfter(rest, 0) == rest;
    }
  }

  // If frame i is the first that does not read as a value, its failure is raised after exactly
  // i + 1 frames.
  lemma {:induction false} FirstFailureRaised(s: Bytes, n: nat, i: nat)
    requires i < n && AllOk(s, i) && ParseFrame(StreamAfter(s, i)).Err?
    ensures ParseMany(s, n) == ErrAt(ParseFrame(StreamAfter(s, i)).failure, StreamAfter(s, i + 1))
    decreases i
  {
    var rest := ParseFrame(s).rest;
    if i > 0 {
      AllOkFirst(s, i);
      FirstFailureRaised(rest, n - 1, i - 1);
    } else {
      assert StreamAfter(s, 1) == StreamAfter(rest, 0) == rest;
    }
  }

  // ---- Against a server that answers in order ----

  // With no error among the replies, the results are their meanings, one for each command, and
  // the stream is left at the end of the last reply.
  lemma RepliesPaired(replies: seq<Reply>, rest: Bytes)
    requires forall x :: x in replies ==> WellFormed(x)
    requires DenoteAll(replies).MeansAll?
    ensures ParseMany(WireAll(replies) + rest, |replies|) == OkAll(DenoteAll(replies).values, rest)
    ensures |DenoteAll(replies).values| == |replies|
    ensures forall i :: 0 <= i < |replies| ==> Denote(replies[i]) == Means(DenoteAll(replies).values[i])
  {
    RepliesRoundTrip(replies, rest);
    MeaningsInOrder(replies);
  }

  lemma {:induction false} MeaningsInOrder(replies: seq<Reply>)
    requires DenoteAll(replies).MeansAll?
    ensures |DenoteAll(replies).values| == |replies|
    ensures forall i :: 0 <= i < |replies| ==> Denote(replies[i]) == Means(DenoteAll(replies).values[i])
  {
    if replies != [] {
      MeaningsInOrder(replies[1..]);
      forall i | 0 < i < |replies| ensures Denote(replies[i]) == Means(DenoteAll(replies).values[i]) {
        assert replies[i] == replies[1..][i - 1];
      }
    }
  }

  // When reply i is the first with an error, the replies to all later commands stay unread on
  // the connection, preceded by whatever of reply i came after the error.
  lemma {:induction false} LaterRepliesLeft(replies: seq<Reply>, i: nat, rest: Bytes)
    requires forall x :: x in replies ==> WellFormed(x)
    requires i < |replies| && Denote(replies[i]).Fails?
    requires forall j :: 0 <= j < i ==> Denote(replies[j]).Means?
    ensures var d := Denote(replies[i]);
            ParseMany(WireAll(replies) + rest, |replies|) ==
            ErrAt(ServerError(d.message), d.left + WireAll(replies[i + 1..]) + rest)
  {
    RepliesRoundTrip(replies, rest);
    LeftAfterFirst(replies, i);
  }

  lemma {:induction false} LeftAfterFirst(replies: seq<Reply>, i: nat)
    requires i < |replies| && Denote(replies[i]).Fails?
    requires forall j :: 0 <= j < i ==> Denote(replies[j]).Means?
    ensures var d := Denote(replies[i]);
            DenoteAll(replies) == FailsAt(d.message, d.left + WireAll(replies[i + 1..]))
  {
    if i > 0 {
      assert replies[1..][i - 1] == replies[i];
      assert replies[1..][i..] == replies[i + 1..];
      assert Denote(replies[0]).Means?;
      forall j | 0 <= j < i - 1 ensures Denote(replies[1..][j]).Means? {
        assert replies[1..][j] == replies[j + 1];
      }
      LeftAfterFirst(replies[1..], i - 1);
    }
  }

  // So the next read on that connection is answered with the reply to an earlier command.
  lemma NextReadIsStale(replies: seq<Reply>, i: nat, rest: Bytes)
    requires forall x :: x in replies ==> WellFormed(x)
    requires i + 1 < |replies| && Denote(replies[i]).Fails? && Denote(replies[i]).left == []
    requires forall j :: 0 <= j < i ==> Denote(replies[j]).Means?
    ensures var left := ParseMany(WireAll(replies) + rest, |replies|).rest;
            ParseFrame(left) == OutcomeOf(Denote(replies[i + 1]), WireAll(replies[i + 2..]) + rest)
  {
    LaterRepliesLeft(replies, i, rest);
    var tail := WireAll(replies[i + 2..]) + rest;
    assert replies[i + 1..][1..] == replies[i + 2..];
    assert [] + WireAll(replies[i + 1..]) + rest == Wire(replies[i + 1]) + tail;
    ReplyRoundTrip(replies[i + 1], tail);
  }
}
