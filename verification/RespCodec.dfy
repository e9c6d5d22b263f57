// What is put on the wire, and that the parser undoes it (src/kachedb/resp.py).
module RespCodec {
  import opened Bytes
  import opened Decimal
  import opened Resp

  // ---- Commands ----

  function EncodeBulk(data: Bytes): Bytes
  {
    [DOLLAR] + Print(|data|) + CRLF + data + CRLF
  }

  function EncodeBulks(args: seq<Bytes>): Bytes
  {
    if args == [] then [] else EncodeBulk(args[0]) + EncodeBulks(args[1..])
  }

  // encode_command, on arguments already encoded as bytes
  function EncodeCommand(args: seq<Bytes>): (r: Bytes)
  {
    [STAR] + Print(|args|) + CRLF + EncodeBulks(args)
  }

  function EncodeCommands(commands: seq<seq<Bytes>>): Bytes
  {
    if commands == [] then [] else EncodeCommand(commands[0]) + EncodeCommands(commands[1..])
  }

  // The value a server reads for a command.
  function CommandValue(args: seq<Bytes>): Value
  {
    Array(seq(|args|, i requires 0 <= i < |args| => Bulk(args[i])))
  }

  // ---- Replies ----

  // Every frame a server may send, including an error inside an array.
  datatype Reply =
    | SimpleString(text: Bytes)
    | Error(message: Bytes)
    | IntegerReply(i: int)
    | BulkString(data: Bytes)
    | NullBulk
    | NullArray
    | Null3
    | ArrayOf(items: seq<Reply>)

  ghost predicate LineSafe(s: Bytes)
  {
    Utf8Valid(s) && forall i :: 0 <= i < |s| ==> s[i] != CR
  }

  // Lines hold text without line breaks.
  ghost predicate WellFormed(r: Reply)
  {
    match r
    case SimpleString(t) => LineSafe(t)
    case Error(m) => LineSafe(m)
    case ArrayOf(items) => forall x :: x in items ==> WellFormed(x)
    case _ => true
  }

  function Line(marker: byte, text: Bytes): Bytes { [marker] + text + CRLF }

  function Wire(r: Reply): Bytes
    decreases r, 1
  {
    match r
    case SimpleString(t) => Line(PLUS, t)
    case Error(m) => Line(MINUS, m)
    case IntegerReply(i) => Line(COLON, PrintInt(i))
    case BulkString(d) => EncodeBulk(d)
    case NullBulk => Line(DOLLAR, PrintInt(-1))
    case NullArray => Line(STAR, PrintInt(-1))
    case Null3 => Line(UNDERSCORE, [])
    case ArrayOf(items) => Line(STAR, Print(|items|)) + WireAll(items)
  }

  function WireAll(items: seq<Reply>): Bytes
    decreases items, 0
  {
    if items == [] then [] else Wire(items[0]) + WireAll(items[1..])
  }

  // What reading a reply means: its value, or its first error in reading order together with
  // the bytes of the reply that come after that error and are left on the stream.
  datatype Meaning = Means(value: Value) | Fails(message: Bytes, left: Bytes)

  datatype Meanings = MeansAll(values: seq<Value>) | FailsAt(message: Bytes, left: Bytes)

  function Denote(r: Reply): Meaning
    decreases r, 1
  {
    match r
    case SimpleString(t) => Means(Text(t))
    case Error(m) => Fails(m, [])
    case IntegerReply(i) => Means(Integer(i))
    case BulkString(d) => Means(Bulk(d))
    case NullBulk => Means(Null)
    case NullArray => Means(Null)
    case Null3 => Means(Null)
    case ArrayOf(items) =>
      var m := DenoteAll(items);
      if m.MeansAll? then Means(Array(m.values)) else Fails(m.message, m.left)
  }

  function DenoteAll(items: seq<Reply>): Meanings
    decreases items, 0
  {
    if items == [] then MeansAll([])
    else
      var first := Denote(items[0]);
      if first.Fails? then FailsAt(first.message, first.left + WireAll(items[1..]))
      else
        var m := DenoteAll(items[1..]);
        if m.MeansAll? then MeansAll([first.value] + m.values) else m
  }

  // The elements of a reply that come after its first error, which reading it leaves on the stream.
  function LeftOf(r: Reply): seq<Reply>
    decreases r, 1
  {
    if r.ArrayOf? then LeftOfAll(r.items) else []
  }

  function LeftOfAll(items: seq<Reply>): seq<Reply>
    decreases items, 0
  {
    if items == [] then []
    else if Denote(items[0]).Fails? then LeftOf(items[0]) + items[1..]
    else LeftOfAll(items[1..])
  }

  lemma {:induction false} WireAllAppend(a: seq<Reply>, b: seq<Reply>)
    ensures WireAll(a + b) == WireAll(a) + WireAll(b)
  {
    hide Wire;
    if a == [] {
      assert a + b == b;
    } else {
      WireAllAppend(a[1..], b);
      assert (a + b)[1..] == a[1..] + b && (a + b)[0] == a[0];
      assert WireAll(a + b) == Wire(a[0]) + WireAll(a[1..] + b);
    }
  }

  // They are what Denote says is left.
  lemma {:induction false} LeftIsLeft(r: Reply)
    ensures WireAll(LeftOf(r)) == if Denote(r).Fails? then Denote(r).left else []
    decreases r, 1
  {
    if r.ArrayOf? { LeftAllIsLeft(r.items); }
  }

  lemma {:induction false} LeftAllIsLeft(items: seq<Reply>)
    ensures WireAll(LeftOfAll(items)) == if DenoteAll(items).FailsAt? then DenoteAll(items).left else []
    decreases items, 0
  {
    if items != [] {
      LeftIsLeft(items[0]);
      if Denote(items[0]).Fails? {
        WireAllAppend(LeftOf(items[0]), items[1..]);
      } else {
        LeftAllIsLeft(items[1..]);
      }
    }
  }

  // So nothing is left exactly when no element follows the first error.
  lemma NothingLeftIff(r: Reply)
    ensures LeftOf(r) == [] <==> Denote(r).Means? || Denote(r).left == []
  {
    LeftIsLeft(r);
    if LeftOf(r) != [] { assert |Wire(LeftOf(r)[0])| > 0; MeansLeavesNothing(r); }
  }

  lemma {:induction false} MeansLeavesNothing(r: Reply)
    ensures Denote(r).Means? ==> LeftOf(r) == []
    decreases r, 1
  {
    if r.ArrayOf? { AllMeanLeaveNothing(r.items); }
  }

  lemma {:induction false} AllMeanLeaveNothing(items: seq<Reply>)
    ensures DenoteAll(items).MeansAll? ==> LeftOfAll(items) == []
    decreases items, 0
  {
    if items != [] { AllMeanLeaveNothing(items[1..]); }
  }

  // ---- The parser undoes the encoders ----

  lemma CrlfAfter(text: Bytes, rest: Bytes)
    requires forall i :: 0 <= i < |text| ==> text[i] != CR
    ensures FindCrlf(text + CRLF + rest) == Some(|text|)
    ensures (text + CRLF + rest)[..|text|] == text && (text + CRLF + rest)[|text| + 2..] == rest
  {
    var s := text + CRLF + rest;
    assert s[|text|] == CR && s[|text| + 1] == LF;
    assert forall i :: 0 <= i < |text| ==> s[i] == text[i];
    FindCrlfFirst(s, |text|);
  }

  // A frame read past its first line.
  lemma ParseLine(marker: byte, text: Bytes, rest: Bytes)
    requires marker in {PLUS, MINUS, COLON, DOLLAR, STAR, UNDERSCORE}
    requires forall i :: 0 <= i < |text| ==> text[i] != CR
    ensures ParseFrame(Line(marker, text) + rest) == ParseAfterLine(marker, text, rest)
  {
    CrlfAfter(text, rest);
    var s := Line(marker, text) + rest;
    assert s[1..] == text + CRLF + rest;
  }

  lemma ParseBulkString(data: Bytes, rest: Bytes)
    ensures ParseFrame(EncodeBulk(data) + rest) == Ok(Bulk(data), rest)
  {
    var n: int := |data|;
    ParsePrint(n);
    var after := data + CRLF + rest;
    assert EncodeBulk(data) + rest == Line(DOLLAR, Print(|data|)) + after;
    ParseLine(DOLLAR, Print(|data|), after);
    assert after[..|data|] == data && after[|data| + 2..] == rest;
  }

  lemma OneMoreFrame(s: Bytes, n: int, v: Value, rest: Bytes)
    requires n > 0 && ParseFrame(s) == Ok(v, rest)
    ensures var r := ParseMany(rest, n - 1);
            ParseMany(s, n) == if r.OkAll? then OkAll([v] + r.values, r.rest) else r
  {
  }

  lemma {:induction false} ParseBulks(args: seq<Bytes>, rest: Bytes)
    ensures ParseMany(EncodeBulks(args) + rest, |args|) == OkAll(CommandValue(args).items, rest)
  {
    if args == [] {
      assert EncodeBulks(args) + rest == rest;
    } else {
      var tail := EncodeBulks(args[1..]) + rest;
      assert EncodeBulks(args) + rest == EncodeBulk(args[0]) + tail;
      ParseBulkString(args[0], tail);
      ParseBulks(args[1..], rest);
      OneMoreFrame(EncodeBulks(args) + rest, |args|, Bulk(args[0]), tail);
      assert CommandValue(args).items == [Bulk(args[0])] + CommandValue(args[1..]).items;
    }
  }

  // A command is read back as exactly its arguments, whatever bytes they hold, and nothing after
  // it is touched.
  lemma CommandRoundTrip(args: seq<Bytes>, rest: Bytes)
    ensures ParseFrame(EncodeCommand(args) + rest) == Ok(CommandValue(args), rest)
  {
    var n: int := |args|;
    ParsePrint(n);
    var after := EncodeBulks(args) + rest;
    assert EncodeCommand(args) + rest == Line(STAR, Print(|args|)) + after;
    ParseLine(STAR, Print(|args|), after);
    ParseBulks(args, rest);
  }

  function CommandValues(commands: seq<seq<Bytes>>): seq<Value>
  {
    seq(|commands|, i requires 0 <= i < |commands| => CommandValue(commands[i]))
  }

  // A pipelined buffer is read back command by command.
  lemma {:induction false} CommandsRoundTrip(commands: seq<seq<Bytes>>, rest: Bytes)
    ensures ParseMany(EncodeCommands(commands) + rest, |commands|) == OkAll(CommandValues(commands), rest)
  {
    if commands == [] {
      assert EncodeCommands(commands) + rest == rest;
    } else {
      var tail := EncodeCommands(commands[1..]) + rest;
      assert EncodeCommands(commands) + rest == EncodeCommand(commands[0]) + tail;
      CommandRoundTrip(commands[0], tail);
      CommandsRoundTrip(commands[1..], rest);
      OneMoreFrame(EncodeCommands(commands) + rest, |commands|, CommandValue(commands[0]), tail);
      assert CommandValues(commands) == [CommandValue(commands[0])] + CommandValues(commands[1..]);
    }
  }

  lemma CommandValueInjective(a: seq<Bytes>, b: seq<Bytes>)
    requires CommandValue(a) == CommandValue(b)
    ensures a == b
  {
    var x, y := CommandValue(a).items, CommandValue(b).items;
    assert |a| == |x| == |y| == |b|;
    forall i | 0 <= i < |a| ensures a[i] == b[i] {
      assert x[i] == Bulk(a[i]) && y[i] == Bulk(b[i]);
    }
  }

  // So the encoding is injective and prefix-free: a stream begins with at most one command.
  lemma EncodingPrefixFree(a: seq<Bytes>, x: Bytes, b: seq<Bytes>, y: Bytes)
    requires EncodeCommand(a) + x == EncodeCommand(b) + y
    ensures a == b && x == y
  {
    CommandRoundTrip(a, x);
    CommandRoundTrip(b, y);
    CommandValueInjective(a, b);
  }

  // The outcome a reply's meaning gives on a stream that continues with rest.
  function OutcomeOf(m: Meaning, rest: Bytes): Outcome
  {
    match m
    case Means(v) => Ok(v, rest)
    case Fails(msg, left) => Err(ServerError(msg), left + rest)
  }

  function OutcomesOf(m: Meanings, rest: Bytes): Outcomes
  {
    match m
    case MeansAll(vs) => OkAll(vs, rest)
    case FailsAt(msg, left) => ErrAt(ServerError(msg), left + rest)
  }

  // Reading any reply gives its meaning.
  lemma {:induction false} ReplyRoundTrip(r: Reply, rest: Bytes)
    requires WellFormed(r)
    ensures ParseFrame(Wire(r) + rest) == OutcomeOf(Denote(r), rest)
    decreases r, 1
  {
    match r
    case SimpleString(t) => ParseLine(PLUS, t, rest);
    case Error(m) => ParseLine(MINUS, m, rest); assert [] + rest == rest;
    case IntegerReply(i) => ParsePrint(i); ParseLine(COLON, PrintInt(i), rest);
    case BulkString(d) => ParseBulkString(d, rest);
    case NullBulk => ParsePrint(-1); ParseLine(DOLLAR, PrintInt(-1), rest);
    case NullArray => ParsePrint(-1); ParseLine(STAR, PrintInt(-1), rest);
    case Null3 => ParseLine(UNDERSCORE, [], rest);
    case ArrayOf(items) =>
      var n: int := |items|;
      ParsePrint(n);
      var after := WireAll(items) + rest;
      assert Wire(r) + rest == Line(STAR, Print(|items|)) + after;
      ParseLine(STAR, Print(|items|), after);
      RepliesRoundTrip(items, rest);
  }

  // Reading as many frames as there are replies gives their meanings, up to the first error.
  lemma {:induction false} RepliesRoundTrip(items: seq<Reply>, rest: Bytes)
    requires forall x :: x in items ==> WellFormed(x)
    ensures ParseMany(WireAll(items) + rest, |items|) == OutcomesOf(DenoteAll(items), rest)
    decreases items, 0
  {
    hide ParseFrame, Denote, Wire, WellFormed;
    if items == [] {
      assert WireAll(items) + rest == rest;
    } else {
      var tail := WireAll(items[1..]) + rest;
      var first := Denote(items[0]);
      assert WireAll(items) + rest == Wire(items[0]) + tail;
      ReplyRoundTrip(items[0], tail);
      if first.Fails? {
        assert first.left + tail == first.left + WireAll(items[1..]) + rest;
      } else {
        RepliesRoundTrip(items[1..], rest);
      }
    }
  }

  // The reader is left exactly at the end of the reply if and only if no element follows its
  // first error.
  lemma AlignedIff(r: Reply, rest: Bytes)
    requires WellFormed(r)
    ensures ParseFrame(Wire(r) + rest).rest == rest <==> Denote(r).Means? || Denote(r).left == []
  {
    ReplyRoundTrip(r, rest);
    var m := Denote(r);
    if m.Fails? {
      assert |m.left + rest| == |m.left| + |rest|;
      if m.left == [] { assert m.left + rest == rest; }
    }
  }

  // A reply cut short is never taken for a value or for another error.
  lemma CutReply(r: Reply, k: nat)
    requires WellFormed(r) && Denote(r).Means? && k < |Wire(r)|
    ensures IsClosed(ParseFrame(Wire(r)[..k]))
  {
    ReplyRoundTrip(r, []);
    assert Wire(r) + [] == Wire(r);
    CutFrame(Wire(r), k);
  }
}
