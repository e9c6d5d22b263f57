// The RESP wire format of src/kachedb/resp.py as functions of the whole byte stream: the
// encoder, and a one-shot parser that sees everything the server will ever send.
module Resp {
  import opened Bytes
  import opened Decimal

  const CR: byte := 13
  const LF: byte := 10
  const CRLF: Bytes := [13, 10]

  const PLUS: byte := 43
  const MINUS: byte := 45
  const COLON: byte := 58
  const DOLLAR: byte := 36
  const STAR: byte := 42
  const UNDERSCORE: byte := 95

  datatype Value = Text(text: Bytes) | Integer(i: int) | Bulk(data: Bytes) | Null | Array(items: seq<Value>)

  // ServerError is ResponseError; Closed and UnknownMarker are ProtocolError; BadInteger and
  // BadText are the ValueError of int() and the UnicodeDecodeError of decode().  Rewind stands
  // for a bulk length below -1, on which the reader's cursor moves back: what is read then is not a
  // function of the stream, and RespReader says what it is.
  datatype Failure =
    | ServerError(message: Bytes)
    | UnknownMarker(marker: byte)
    | Closed
    | BadInteger(line: Bytes)
    | BadText(line: Bytes)
    | Rewind(length: int)

  // What one read of a frame gives, and what it leaves unread.
  datatype Outcome = Ok(value: Value, rest: Bytes) | Err(failure: Failure, rest: Bytes)

  datatype Outcomes = OkAll(values: seq<Value>, rest: Bytes) | ErrAt(failure: Failure, rest: Bytes)

  // ---- UTF-8 ----

  predicate Continues(s: Bytes, i: nat, low: byte, high: byte)
  {
    i < |s| && low <= s[i] <= high
  }

  // Well-formed UTF-8 (table 3-7 of the Unicode standard).
  predicate Utf8Valid(s: Bytes)
  {
    if s == [] then true
    else if s[0] < 0x80 then Utf8Valid(s[1..])
    else if 0xC2 <= s[0] <= 0xDF then Continues(s, 1, 0x80, 0xBF) && Utf8Valid(s[2..])
    else if 0xE0 <= s[0] <= 0xEF then
      && Continues(s, 1, if s[0] == 0xE0 then 0xA0 else 0x80, if s[0] == 0xED then 0x9F else 0xBF)
      && Continues(s, 2, 0x80, 0xBF) && Utf8Valid(s[3..])
    else if 0xF0 <= s[0] <= 0xF4 then
      && Continues(s, 1, if s[0] == 0xF0 then 0x90 else 0x80, if s[0] == 0xF4 then 0x8F else 0xBF)
      && Continues(s, 2, 0x80, 0xBF) && Continues(s, 3, 0x80, 0xBF) && Utf8Valid(s[4..])
    else false
  }

  // ---- Lines ----

  // The index of the first CRLF.
  function FindCrlf(s: Bytes): (r: Option<nat>)
    ensures r.Some? ==> r.value + 2 <= |s| && s[r.value] == CR && s[r.value + 1] == LF
  {
    if |s| < 2 then None
    else if s[0] == CR && s[1] == LF then Some(0)
    else
      var r := FindCrlf(s[1..]);
      if r.None? then None else Some(r.value + 1)
  }

  lemma {:induction false} FindCrlfFirst(s: Bytes, k: nat)
    requires k + 2 <= |s| && s[k] == CR && s[k + 1] == LF
    requires forall i :: 0 <= i < k ==> !(s[i] == CR && s[i + 1] == LF)
    ensures FindCrlf(s) == Some(k)
  {
    if k > 0 {
      FindCrlfFirst(s[1..], k - 1);
    }
  }

  // A CRLF found stays the first one when more bytes arrive, and one that lies inside a prefix
  // is found in the prefix.
  lemma {:induction false} FindCrlfLocal(s: Bytes, t: Bytes)
    ensures FindCrlf(s).Some? ==> FindCrlf(s + t) == FindCrlf(s)
    ensures FindCrlf(s + t).Some? && FindCrlf(s + t).value + 2 <= |s| ==> FindCrlf(s) == FindCrlf(s + t)
  {
    if s != [] {
      assert (s + t)[1..] == s[1..] + t;
      FindCrlfLocal(s[1..], t);
    }
  }

  // ---- The one-shot parser ----

  // The bytes a read consumed.
  function Consumed(s: Bytes, o: Outcome): int { |s| - |o.rest| }

  function ParseFrame(s: Bytes): (o: Outcome)
    ensures |o.rest| <= |s|
    ensures s != [] ==> |o.rest| < |s|
    ensures s == [] ==> o == Err(Closed, [])
    decreases |s|, 0
  {
    if s == [] then Err(Closed, [])
    else
      var body := s[1..];
      if s[0] !in {PLUS, MINUS, COLON, DOLLAR, STAR, UNDERSCORE} then Err(UnknownMarker(s[0]), body)
      else
        var crlf := FindCrlf(body);
        if crlf.None? then Err(Closed, body)
        else ParseAfterLine(s[0], body[..crlf.value], body[crlf.value + 2..])
  }

  // The frame whose marker and first line have been read.
  function ParseAfterLine(marker: byte, line: Bytes, rest: Bytes): (o: Outcome)
    ensures |o.rest| <= |rest|
    decreases |rest|, 2
  {
    if marker == PLUS then
      if Utf8Valid(line) then Ok(Text(line), rest) else Err(BadText(line), rest)
    else if marker == MINUS then
      Err(if Utf8Valid(line) then ServerError(line) else BadText(line), rest)
    else if marker == UNDERSCORE then Ok(Null, rest)
    else
      var n := ParseInt(line);
      if n.None? then Err(BadInteger(line), rest)
      else if marker == COLON then Ok(Integer(n.value), rest)
      else if n.value == -1 then Ok(Null, rest)
      else if marker == DOLLAR then ParseBulk(n.value, rest)
      else
        var r := ParseMany(rest, n.value);
        if r.OkAll? then Ok(Array(r.values), r.rest) else Err(r.failure, r.rest)
  }

  // The data of a bulk string and the two bytes after it, whatever they are.
  function ParseBulk(n: int, rest: Bytes): (o: Outcome)
    ensures |o.rest| <= |rest|
  {
    if n < 0 then Err(Rewind(n), rest)
    else if |rest| < n then Err(Closed, rest)
    else if |rest| < n + 2 then Err(Closed, rest[n..])
    else Ok(Bulk(rest[..n]), rest[n + 2..])
  }

  // n frames in a row, stopping at the first failure.
  function ParseMany(s: Bytes, n: int): (r: Outcomes)
    ensures |r.rest| <= |s|
    decreases |s|, 1
  {
    if n <= 0 then OkAll([], s)
    else
      var o := ParseFrame(s);
      if o.Err? then ErrAt(o.failure, o.rest)
      else
        var r := ParseMany(o.rest, n - 1);
        if r.OkAll? then OkAll([o.value] + r.values, r.rest) else r
  }

  // ---- Locality: a frame is determined by its own bytes ----

  function Extended(o: Outcome, t: Bytes): Outcome
  {
    if o.Ok? then Ok(o.value, o.rest + t) else Err(o.failure, o.rest + t)
  }

  function ExtendedAll(r: Outcomes, t: Bytes): Outcomes
  {
    if r.OkAll? then OkAll(r.values, r.rest + t) else ErrAt(r.failure, r.rest + t)
  }

  predicate IsClosed(o: Outcome) { o.Err? && o.failure == Closed }

  predicate IsClosedAll(r: Outcomes) { r.ErrAt? && r.failure == Closed }

  // A read of s that finds its frame complete gives the same result when more bytes follow; and
  // when a read of s + t needs no byte of t, the read of s alone gives its result.
  lemma {:induction false} FrameLocal(s: Bytes, t: Bytes)
    ensures !IsClosed(ParseFrame(s)) ==> ParseFrame(s + t) == Extended(ParseFrame(s), t)
    ensures IsClosed(ParseFrame(s)) ==> IsClosed(ParseFrame(s + t)) || |ParseFrame(s + t).rest| < |t|
    decreases |s|, 0
  {
    if s == [] {
      assert s + t == t;
    } else {
      var body := s[1..];
      assert (s + t)[1..] == body + t;
      FindCrlfLocal(body, t);
      if s[0] in {PLUS, MINUS, COLON, DOLLAR, STAR, UNDERSCORE} {
        var more := FindCrlf(body + t);
        if FindCrlf(body).Some? {
          var k := FindCrlf(body).value;
          assert (body + t)[..k] == body[..k] && (body + t)[k + 2..] == body[k + 2..] + t;
          AfterLineLocal(s[0], body[..k], body[k + 2..], t);
        }
      }
    }
  }

  lemma {:induction false} AfterLineLocal(marker: byte, line: Bytes, rest: Bytes, t: Bytes)
    ensures var o := ParseAfterLine(marker, line, rest);
            var o' := ParseAfterLine(marker, line, rest + t);
            && (!IsClosed(o) ==> o' == Extended(o, t))
            && (IsClosed(o) ==> IsClosed(o') || |o'.rest| < |t|)
    decreases |rest|, 2
  {
    var n := ParseInt(line);
    if n.Some? && n.value != -1 {
      if marker == DOLLAR {
        BulkLocal(n.value, rest, t);
      } else {
        ManyLocal(rest, n.value, t);
      }
    }
  }

  lemma BulkLocal(n: int, rest: Bytes, t: Bytes)
    ensures var o, o' := ParseBulk(n, rest), ParseBulk(n, rest + t);
            && (!IsClosed(o) ==> o' == Extended(o, t))
            && (IsClosed(o) ==> IsClosed(o') || |o'.rest| < |t|)
  {
    if 0 <= n && n + 2 <= |rest| {
      assert (rest + t)[..n] == rest[..n];
      assert (rest + t)[n + 2..] == rest[n + 2..] + t;
    }
  }

  lemma {:induction false} ManyLocal(s: Bytes, n: int, t: Bytes)
    ensures var r, r' := ParseMany(s, n), ParseMany(s + t, n);
            && (!IsClosedAll(r) ==> r' == ExtendedAll(r, t))
            && (IsClosedAll(r) ==> IsClosedAll(r') || |r'.rest| < |t|)
    decreases |s|, 1
  {
    hide ParseFrame;
    if n > 0 {
      FrameLocal(s, t);
      var o := ParseFrame(s);
      if o.Ok? {
        ManyLocal(o.rest, n - 1, t);
      } else if IsClosed(o) && ParseFrame(s + t).Ok? {
        var o' := ParseFrame(s + t);
        assert |o'.rest| < |t|;
      }
    }
  }

  // Cutting a stream strictly inside the frame it begins with leaves a read that ends in Closed,
  // never a value or another error; cutting it after the frame changes nothing but the rest.
  lemma CutFrame(s: Bytes, k: nat)
    requires k <= |s| && !IsClosed(ParseFrame(s))
    ensures k < Consumed(s, ParseFrame(s)) <==> IsClosed(ParseFrame(s[..k]))
    ensures k >= Consumed(s, ParseFrame(s)) ==> Extended(ParseFrame(s[..k]), s[k..]) == ParseFrame(s)
  {
    assert s == s[..k] + s[k..];
    FrameLocal(s[..k], s[k..]);
  }
}
