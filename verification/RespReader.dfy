// RespReader of src/kachedb/resp.py: the buffered parser over whatever chunks recv delivers.
module RespReader {
  import opened Bytes
  import opened Decimal
  import opened Resp

  // A connected socket: the chunks still to be delivered, oldest first.  None of them is empty,
  // for an empty recv means that the peer has closed.
  class Socket {
    var chunks: seq<Bytes>

    ghost predicate Valid()
      reads this
    {
      forall c :: c in chunks ==> c != []
    }

    constructor (chunks: seq<Bytes>)
      requires forall c :: c in chunks ==> c != []
      ensures Valid() && this.chunks == chunks
    {
      this.chunks := chunks;
    }

    method Recv() returns (chunk: Bytes)
      requires Valid()
      modifies this
      ensures Valid()
      ensures Join(old(chunks)) == chunk + Join(chunks)
      ensures if old(chunks) == [] then chunk == [] && chunks == []
              else chunk == old(chunks)[0] != [] && chunks == old(chunks)[1..]
    {
      if chunks == [] {
        chunk := [];
      } else {
        assert forall c :: c in chunks[1..] ==> c in chunks;
        assert chunks[0] in chunks;
        chunk := chunks[0];
        chunks := chunks[1..];
      }
    }
  }

  // What a read hands to its caller: a value, or the exception it raises.  Rewound is also a value,
  // the bytes of a bulk string whose length was below -1; the cursor has moved back.
  datatype Result = Got(value: Value) | Raises(failure: Failure) | Rewound(length: int, data: Bytes)

  function ResultOf(o: Outcome): Result
  {
    if o.Ok? then Got(o.value) else Raises(o.failure)
  }

  predicate IsRewind(o: Outcome) { o.Err? && o.failure.Rewind? }

  predicate IsRewindAll(r: Outcomes) { r.ErrAt? && r.failure.Rewind? }

  // buf.find(b"\r\n", pos), relative to pos
  function FindFrom(buf: Bytes, pos: nat): Option<nat>
    requires pos <= |buf|
  {
    FindCrlf(buf[pos..])
  }

  // Python's resolution of a slice bound, and buf[i:j].
  function SliceBound(i: int, len: nat): nat
  {
    if i < 0 then Max(0, len + i) else Min(i, len)
  }

  function PySlice(b: Bytes, i: int, j: int): Bytes
  {
    var lo, hi := SliceBound(i, |b|), SliceBound(j, |b|);
    if lo <= hi then b[lo..hi] else []
  }

  // The cursor after compaction.
  function Compacted(pos: nat): nat { if pos > 4096 then 0 else pos }

  // ---- How much has been received ----

  // The bytes received and not consumed, and the chunks still to come.
  datatype Arrival = Arrival(got: Bytes, pending: seq<Bytes>)

  // Receiving chunk by chunk until there are n bytes.
  function Arrive(unread: Bytes, chunks: seq<Bytes>, n: nat): (a: Arrival)
    ensures unread <= a.got
    decreases |chunks|
  {
    if |unread| >= n || chunks == [] then Arrival(unread, chunks)
    else Arrive(unread + chunks[0], chunks[1..], n)
  }

  lemma {:induction false} ArriveKeepsStream(unread: Bytes, chunks: seq<Bytes>, n: nat)
    ensures var a := Arrive(unread, chunks, n); a.got + Join(a.pending) == unread + Join(chunks)
    decreases |chunks|
  {
    if |unread| < n && chunks != [] {
      ArriveKeepsStream(unread + chunks[0], chunks[1..], n);
      assert unread + chunks[0] + Join(chunks[1..]) == unread + (chunks[0] + Join(chunks[1..]));
    }
  }

  // Receiving one byte, consuming it and receiving the others is receiving them all.
  lemma {:induction false} ArriveAfterOne(unread: Bytes, chunks: seq<Bytes>, n: nat)
    requires n > 0 && |Arrive(unread, chunks, 1).got| >= 1
    ensures |Arrive(unread, chunks, n).got| >= 1
    ensures var one, all := Arrive(unread, chunks, 1), Arrive(unread, chunks, n);
            Arrive(one.got[1..], one.pending, n - 1) == Arrival(all.got[1..], all.pending)
    decreases |chunks|
  {
    if unread == [] && chunks != [] {
      ArriveAfterOne(unread + chunks[0], chunks[1..], n);
    } else if |unread| < n && chunks != [] {
      ArriveDropsOne(unread, chunks, n);
    }
  }

  lemma {:induction false} ArriveDropsOne(unread: Bytes, chunks: seq<Bytes>, n: nat)
    requires n > 0 && |unread| >= 1
    ensures var a := Arrive(unread, chunks, n); Arrive(unread[1..], chunks, n - 1) == Arrival(a.got[1..], a.pending)
    decreases |chunks|
  {
    if |unread| < n && chunks != [] {
      assert (unread + chunks[0])[1..] == unread[1..] + chunks[0];
      ArriveDropsOne(unread + chunks[0], chunks[1..], n);
    }
  }

  // ---- Bulk strings of a length below -1 ----

  // The length in the header of a bulk string, and the header's size.
  function BulkHeader(s: Bytes): Option<(int, nat)>
  {
    if s == [] || s[0] != DOLLAR then None
    else
      var crlf := FindCrlf(s[1..]);
      if crlf.None? then None
      else
        var n := ParseInt(s[1..][..crlf.value]);
        if n.None? then None else Some((n.value, crlf.value + 3))
  }

  predicate Rewinds(s: Bytes) { BulkHeader(s).Some? && BulkHeader(s).value.0 < -1 }

  lemma RewindsMeansRewind(s: Bytes)
    requires Rewinds(s)
    ensures BulkHeader(s).value.1 <= |s|
    ensures ParseFrame(s) == Err(Rewind(BulkHeader(s).value.0), s[BulkHeader(s).value.1..])
  {
    FrameAfterLine(s);
  }

  // A frame whose marker and first line are there.
  lemma FrameAfterLine(s: Bytes)
    requires s != [] && s[0] in {PLUS, MINUS, COLON, DOLLAR, STAR, UNDERSCORE} && FindCrlf(s[1..]).Some?
    ensures var k := FindCrlf(s[1..]).value;
            var line, rest := s[1..][..k], s[k + 3..];
            && s[1..][k + 2..] == rest && ParseFrame(s) == ParseAfterLine(s[0], line, rest)
            && (Rewinds(s) <==> s[0] == DOLLAR && ParseInt(line).Some? && ParseInt(line).value < -1)
            && (Rewinds(s) ==> BulkHeader(s) == Some((ParseInt(line).value, k + 3))
                               && ParseFrame(s) == Err(Rewind(ParseInt(line).value), rest))
            && (s[0] == DOLLAR ==> (IsRewind(ParseFrame(s)) <==> Rewinds(s)))
  {
    hide ParseInt, FindCrlf, Utf8Valid, ParseMany;
    var k := FindCrlf(s[1..]).value;
    assert s[1..][k + 2..] == s[k + 3..];
  }

  lemma HeaderSize(s: Bytes)
    requires Rewinds(s)
    ensures BulkHeader(s).Some? && BulkHeader(s).value.1 >= 3
  {
  }

  // A frame whose first line is cut off.
  lemma FrameWithoutLine(s: Bytes)
    requires s == [] || s[0] !in {PLUS, MINUS, COLON, DOLLAR, STAR, UNDERSCORE} || FindCrlf(s[1..]).None?
    ensures !IsRewind(ParseFrame(s)) && !Rewinds(s)
    ensures ParseFrame(s) ==
            if s == [] then Err(Closed, [])
            else if s[0] !in {PLUS, MINUS, COLON, DOLLAR, STAR, UNDERSCORE} then Err(UnknownMarker(s[0]), s[1..])
            else Err(Closed, s[1..])
  {
  }

  // What such a read hands back when its cursor stands at c and the bytes r have been received
  // from there on: nothing when the end of the slice, c + n, is still in the buffer; otherwise it
  // counts from the end of the buffer.
  function Rebound(c: nat, r: Bytes, n: int): Bytes
  {
    if c + n < 0 && |r| + c + n > 0 then r[..|r| + c + n] else []
  }

  lemma SliceIsRebound(buf: Bytes, c: nat, n: int)
    requires c <= |buf| && n < 0
    ensures PySlice(buf, c, c + n) == Rebound(c, buf[c..], n)
  {
    if c + n < 0 && |buf| + n > 0 {
      assert buf[c..][..|buf| + n] == buf[c..|buf| + c + n];
    }
  }

  // The next n bytes of a buffer are the next n bytes of the stream.
  lemma TakeNext(buf: Bytes, c: nat, n: nat, more: Bytes)
    requires c + n <= |buf|
    ensures PySlice(buf, c, c + n) == (buf[c..] + more)[..n]
    ensures buf[c + n..] + more == (buf[c..] + more)[n..]
  {
  }

  class Reader {
    const sock: Socket
    var buf: Bytes
    var pos: int

    ghost predicate Valid()
      reads this, sock
    {
      sock.Valid() && 0 <= pos <= |buf|
    }

    // Valid, but for a cursor that may have moved to before the buffer.
    ghost predicate Loose()
      reads this, sock
    {
      sock.Valid() && pos <= |buf|
    }

    // Everything not yet consumed: the unread buffer and what is still to be received.
    ghost function Stream(): Bytes
      requires Valid()
      reads this, sock
    {
      buf[pos..] + Join(sock.chunks)
    }

    // What has been received once n more bytes are needed.
    ghost function Needing(n: nat): Arrival
      requires Valid()
      reads this, sock
    {
      Arrive(buf[pos..], sock.chunks, n)
    }

    constructor (sock: Socket)
      requires sock.Valid()
      ensures Valid() && Stream() == Join(sock.chunks) && this.sock == sock
      ensures buf == [] && pos == 0
    {
      this.sock := sock;
      buf := [];
      pos := 0;
    }

    // Receive one more chunk; false when the peer has closed.
    method Refill() returns (more: bool)
      requires Valid()
      modifies this`buf, sock
      ensures Valid() && pos == old(pos)
      ensures Stream() == old(Stream())
      ensures more <==> old(sock.chunks) != []
      ensures more ==> buf[pos..] == old(buf[pos..]) + old(sock.chunks)[0] && sock.chunks == old(sock.chunks)[1..]
      ensures !more ==> buf == old(buf) && buf[pos..] == Stream() && sock.chunks == []
    {
      var chunk := sock.Recv();
      more := chunk != [];
      ghost var before := buf;
      buf := buf + chunk;
      assert buf[pos..] == before[pos..] + chunk;
    }

    method EnsureData(needed: int) returns (ok: bool)
      requires Valid() || (Loose() && |buf| - pos >= needed)
      modifies this`buf, sock
      ensures pos == old(pos)
      ensures |old(buf)| - pos >= needed ==> ok && buf == old(buf) && sock.chunks == old(sock.chunks) && Loose()
      ensures old(Valid()) ==> Valid() && Stream() == old(Stream()) && (ok <==> |Stream()| >= needed)
      ensures old(Valid()) && needed >= 0 ==> Arrival(buf[pos..], sock.chunks) == old(Needing(needed))
      ensures ok ==> |buf| - pos >= needed
    {
      while |buf| - pos < needed
        invariant Loose() && pos == old(pos)
        invariant |old(buf)| - pos >= needed ==> buf == old(buf) && sock.chunks == old(sock.chunks)
        invariant old(Valid()) ==> Valid() && Stream() == old(Stream())
        invariant old(Valid()) && needed >= 0 ==> Needing(needed) == old(Needing(needed))
        decreases |sock.chunks|
      {
        var more := Refill();
        if !more { return false; }
      }
      ok := true;
    }

    // Drop the consumed bytes once the cursor is far enough along.
    method Compact()
      requires Loose()
      modifies this`buf, this`pos
      ensures if old(pos) > 4096 then pos == 0 && buf == old(buf)[old(pos)..] else pos == old(pos) && buf == old(buf)
    {
      if pos > 4096 {
        buf := buf[pos..];
        pos := 0;
      }
    }

    // A line without its CRLF; None when the peer closes first, and then nothing is consumed.
    method ReadLine() returns (line: Option<Bytes>)
      requires Valid()
      modifies this`buf, this`pos, sock
      ensures Valid()
      ensures var s := old(Stream());
              var crlf := FindCrlf(s);
              && (crlf.Some? ==>
                    && line == Some(s[..crlf.value]) && Stream() == s[crlf.value + 2..]
                    && pos == Compacted(old(pos) + crlf.value + 2) && pos <= 4096
                    && crlf.value + 2 <= |old(Needing(crlf.value + 2)).got|
                    && Arrival(buf[pos..], sock.chunks) ==
                         old(Needing(crlf.value + 2)).(got := old(Needing(crlf.value + 2)).got[crlf.value + 2..]))
              && (crlf.None? ==> line == None && Stream() == s)
    {
      hide FindCrlf, Join;
      ghost var s, start := Stream(), pos;
      ghost var need := if FindCrlf(s).Some? then FindCrlf(s).value + 2 else 0;
      while true
        invariant Valid() && Stream() == s && pos == start
        invariant FindCrlf(s).Some? ==> Needing(need) == old(Needing(need))
        decreases |sock.chunks|
      {
        var k := FindFrom(buf, pos);
        FindCrlfLocal(buf[pos..], Join(sock.chunks));
        if k.Some? {
          var idx := pos + k.value;
          line := Some(buf[pos..idx]);
          assert buf[pos..idx] == s[..k.value];
          assert buf[idx + 2..] == buf[pos..][k.value + 2..];
          pos := idx + 2;
          assert Stream() == s[k.value + 2..];
          Compact();
          return;
        }
        var more := Refill();
        if !more { return None; }
      }
    }

    // buf[pos:pos+n] once n bytes are there, or None when the peer closes first.  With a cursor in
    // the buffer and n not negative these are the next n bytes of the stream.
    method ReadExact(n: int) returns (data: Option<Bytes>)
      requires Loose()
      requires (pos >= 0 && n >= 0) || (|buf| - pos >= n && pos + n <= 4096)
      modifies this`buf, this`pos, sock
      ensures Loose()
      ensures old(pos) >= 0 && n >= 0 ==> Valid()
      ensures old(pos) >= 0 && n >= 0 && |old(Stream())| >= n ==>
                data == Some(old(Stream())[..n]) && Stream() == old(Stream())[n..]
      ensures old(pos) >= 0 && n >= 0 && |old(Stream())| < n ==> data == None && Stream() == old(Stream())
      ensures |old(buf)| - old(pos) >= n && old(pos) + n <= 4096 ==>
                && data == Some(PySlice(buf, old(pos), old(pos) + n)) && pos == old(pos) + n
                && buf == old(buf) && sock.chunks == old(sock.chunks)
    {
      hide Join;
      var ok := EnsureData(n);
      if !ok { return None; }
      data := Some(PySlice(buf, pos, pos + n));
      ghost var buf0, pos0 := buf, pos;
      pos := pos + n;
      Compact();
      if pos0 >= 0 && n >= 0 {
        TakeNext(buf0, pos0, n, Join(sock.chunks));
        assert buf[pos..] == buf0[pos0 + n..];
      }
    }

    // read_response.  The outcome, and what is left of the stream, are those of the one-shot parser
    // on the concatenation of all chunks, wherever they are cut.  A bulk string of a length below
    // -1 hands back what Rebound says of the bytes received with its header.
    method ReadResponse() returns (o: Result)
      requires Valid()
      modifies this`buf, this`pos, sock
      ensures var f := ParseFrame(old(Stream()));
              && (!IsRewind(f) ==> Valid() && o == ResultOf(f) && Stream() == f.rest)
              && (IsRewind(f) && !Rewinds(old(Stream())) ==> sock.Valid() && o == Raises(f.failure))
      ensures Rewinds(old(Stream())) ==> HasRewound(old(Stream()), old(pos), old(buf[pos..]), old(sock.chunks), o)
    {
      o := ParseNext();
    }

    // The reader after a bulk string of a length below -1, read with these bytes not yet consumed
    // and these chunks not yet received.
    ghost predicate HasRewound(s: Bytes, start: int, unread: Bytes, chunks: seq<Bytes>, o: Result)
      requires Rewinds(s) && start >= 0
      reads this, sock
    {
      var (n, h) := BulkHeader(s).value;
      var a, c := Arrive(unread, chunks, h), Compacted(start + h);
      h <= |a.got| && ReboundFrom(n, c, a.got[h..], a.pending, o)
    }

    // The reader after handing back a rebound of the bytes got from cursor c on.
    ghost predicate ReboundFrom(n: int, c: nat, got: Bytes, pending: seq<Bytes>, o: Result)
      reads this, sock
    {
      && Loose() && c <= |buf| && buf[c..] == got && sock.chunks == pending && pos == c + n + 2
      && o == Rewound(n, Rebound(c, got, n))
    }

    method ParseNext() returns (o: Result)
      requires Valid()
      modifies this`buf, this`pos, sock
      ensures var f := ParseFrame(old(Stream()));
              && (!IsRewind(f) ==> Valid() && o == ResultOf(f) && Stream() == f.rest)
              && (IsRewind(f) && !Rewinds(old(Stream())) ==> sock.Valid() && o == Raises(f.failure))
      ensures Rewinds(old(Stream())) ==> HasRewound(old(Stream()), old(pos), old(buf[pos..]), old(sock.chunks), o)
      decreases |Stream()|, 0
    {
      hide ParseFrame, Rewinds, BulkHeader, Rebound, Arrive, Compacted, Join;
      ghost var s, unread, chunks := Stream(), buf[pos..], sock.chunks;
      if s == [] { FrameWithoutLine(s); }
      var ok := EnsureData(1);
      if !ok { return Raises(Closed); }
      var marker := buf[pos];
      assert marker == s[0];
      assert buf[pos..][1..] == buf[pos + 1..];
      pos := pos + 1;
      assert Stream() == s[1..] && [marker] + s[1..] == s;
      if Rewinds(s) {
        HeaderSize(s);
        ArriveAfterOne(unread, chunks, BulkHeader(s).value.1);
      }
      o := ParseMarked(marker);
    }

    // The frame after its marker.
    method ParseMarked(marker: byte) returns (o: Result)
      requires Valid()
      modifies this`buf, this`pos, sock
      ensures var s := [marker] + old(Stream());
              var f := ParseFrame(s);
              && (!IsRewind(f) ==> Valid() && o == ResultOf(f) && Stream() == f.rest)
              && (IsRewind(f) && !Rewinds(s) ==> sock.Valid() && o == Raises(f.failure))
      ensures var s := [marker] + old(Stream());
              Rewinds(s) ==> MarkedRebound(s, old(pos), old(Needing(HeaderAfterMarker(s))), o)
      decreases |Stream()|, 3
    {
      hide ParseFrame, ParseAfterLine, Rewinds, FindCrlf, Join, Arrive, BulkHeader, ParseInt, Compacted, MarkedRebound;
      ghost var t := Stream();
      ghost var s := [marker] + t;
      assert s[1..] == t;
      if marker !in {PLUS, MINUS, COLON, DOLLAR, STAR, UNDERSCORE} {
        FrameWithoutLine(s);
        return Raises(UnknownMarker(marker));
      }
      if FindCrlf(t).Some? { FrameAfterLine(s); } else { FrameWithoutLine(s); }
      ghost var start, arrival := pos, Needing(if FindCrlf(t).Some? then FindCrlf(t).value + 2 else 0);
      var line := ReadLine();
      if line.None? { return Raises(Closed); }
      assert Stream() == s[FindCrlf(t).value + 3..];
      ghost var c, got, pending := pos, buf[pos..], sock.chunks;
      o := ParseRest(marker, line.value);
      if Rewinds(s) {
        ReboundAfterLine(s, start, arrival, c, got, pending, o);
      }
    }

    // How many bytes of a bulk string's header come after its marker.
    static ghost function HeaderAfterMarker(s: Bytes): nat
    {
      if BulkHeader(s).Some? && BulkHeader(s).value.1 > 0 then BulkHeader(s).value.1 - 1 else 0
    }

    // The reader after a bulk string of a length below -1, with what had arrived once the header
    // was there.
    ghost predicate MarkedRebound(s: Bytes, start: int, a: Arrival, o: Result)
      reads this, sock
    {
      && Rewinds(s) && start >= 0 && HeaderAfterMarker(s) <= |a.got|
      && ReboundFrom(BulkHeader(s).value.0, Compacted(start + HeaderAfterMarker(s)), a.got[HeaderAfterMarker(s)..],
                     a.pending, o)
    }

    lemma ReboundAfterLine(s: Bytes, start: int, a: Arrival, c: nat, got: Bytes, pending: seq<Bytes>, o: Result)
      requires Rewinds(s) && s != [] && FindCrlf(s[1..]).Some? && start >= 0
      requires var k := FindCrlf(s[1..]).value + 2;
               k <= |a.got| && c == Compacted(start + k) && got == a.got[k..] && pending == a.pending
      requires ParseFrame(s).Err? && ParseFrame(s).failure.Rewind?
      requires ReboundFrom(ParseFrame(s).failure.length, c, got, pending, o)
      ensures MarkedRebound(s, start, a, o)
      ensures HeaderAfterMarker(s) == FindCrlf(s[1..]).value + 2
    {
      hide ParseFrame;
      RewindsMeansRewind(s);
    }

    // The branches of _parse_frame after the marker and its line.
    method ParseRest(marker: byte, line: Bytes) returns (o: Result)
      requires Valid() && pos <= 4096
      modifies this`buf, this`pos, sock
      ensures var f := ParseAfterLine(marker, line, old(Stream()));
              && (!IsRewind(f) ==> Valid() && o == ResultOf(f) && Stream() == f.rest)
              && (IsRewind(f) && marker != DOLLAR ==> sock.Valid() && o == Raises(f.failure))
              && (IsRewind(f) && marker == DOLLAR ==>
                    ReboundFrom(f.failure.length, old(pos), old(buf[pos..]), old(sock.chunks), o))
      decreases |Stream()|, 2
    {
      if marker == PLUS {
        return if Utf8Valid(line) then Got(Text(line)) else Raises(BadText(line));
      }
      if marker == MINUS {
        return Raises(if Utf8Valid(line) then ServerError(line) else BadText(line));
      }
      if marker == UNDERSCORE {
        return Got(Null);
      }
      var n := ParseInt(line);
      if n.None? { return Raises(BadInteger(line)); }
      if marker == COLON { return Got(Integer(n.value)); }
      if n.value == -1 { return Got(Null); }
      if marker == DOLLAR {
        o := ReadBulk(n.value);
      } else {
        o := ReadArray(n.value);
      }
    }

    // The data and the two bytes after it, whatever they are.
    method ReadBulk(n: int) returns (o: Result)
      requires Valid() && pos <= 4096 && n != -1
      modifies this`buf, this`pos, sock
      ensures var f := ParseBulk(n, old(Stream()));
              && (n >= 0 ==> Valid() && o == ResultOf(f) && Stream() == f.rest)
              && (n < 0 ==> ReboundFrom(n, old(pos), old(buf[pos..]), old(sock.chunks), o))
    {
      ghost var s := Stream();
      SliceIsReboundIfNegative(buf, pos, n);
      var data := ReadExact(n);
      if data.None? { return Raises(Closed); }
      var end := ReadExact(2);
      if end.None? { return Raises(Closed); }
      assert n >= 0 ==> s[n..][2..] == s[n + 2..];
      o := if n < 0 then Rewound(n, data.value) else Got(Bulk(data.value));
    }

    // [self._parse_frame() for _ in range(n)]; on an element that has moved the cursor back the
    // model stops, for the code may then read without end.
    method ReadArray(n: int) returns (o: Result)
      requires Valid()
      modifies this`buf, this`pos, sock
      ensures var r := ParseMany(old(Stream()), n);
              && o == (if r.OkAll? then Got(Array(r.values)) else Raises(r.failure))
              && (if IsRewindAll(r) then sock.Valid() else Valid() && Stream() == r.rest)
      decreases |Stream()|, 1
    {
      hide ParseFrame, Rewinds, BulkHeader, Join, Rebound, Arrive;
      var items, i := [], 0;
      ghost var s := Stream();
      while i < n
        invariant Valid() && (i == 0 || i <= n) && 0 <= i
        invariant i > 0 ==> |Stream()| < |s|
        invariant i == 0 ==> Stream() == s && items == []
        invariant ParseMany(s, n) == Continue(items, ParseMany(Stream(), n - i))
        decreases n - i
      {
        ghost var before := Stream();
        if Rewinds(before) { RewindsMeansRewind(before); }
        ElementOutcome(s, n, items, before, n - i);
        o := ParseNext();
        if o.Rewound? { return Raises(Rewind(o.length)); }
        if o.Raises? { return; }
        OneMoreRead(s, n, items, before, n - i, o.value, Stream());
        items := items + [o.value];
        i := i + 1;
      }
      assert items + [] == items;
      o := Got(Array(items));
    }
  }

  lemma SliceIsReboundIfNegative(buf: Bytes, c: nat, n: int)
    requires c <= |buf|
    ensures n < 0 ==> PySlice(buf, c, c + n) == Rebound(c, buf[c..], n)
  {
    if n < 0 { SliceIsRebound(buf, c, n); }
  }

  // A failing element fails the array.
  lemma ElementOutcome(s: Bytes, n: int, items: seq<Value>, before: Bytes, left: nat)
    requires left > 0 && ParseMany(s, n) == Continue(items, ParseMany(before, left))
    ensures ParseFrame(before).Err? ==> ParseMany(s, n) == ErrAt(ParseFrame(before).failure, ParseFrame(before).rest)
    ensures before != [] && ParseFrame(before).Ok? ==> |ParseFrame(before).rest| < |before|
  {
  }

  // Frames read before the rest of them.
  function Continue(before: seq<Value>, r: Outcomes): Outcomes
  {
    if r.OkAll? then OkAll(before + r.values, r.rest) else r
  }

  lemma ContinueTwice(a: seq<Value>, b: seq<Value>, r: Outcomes)
    ensures Continue(a, Continue(b, r)) == Continue(a + b, r)
    ensures Continue([], r) == r
  {
    if r.OkAll? { assert a + (b + r.values) == a + b + r.values; assert [] + r.values == r.values; }
  }

  lemma OneMoreRead(s: Bytes, n: int, items: seq<Value>, before: Bytes, left: nat, v: Value, after: Bytes)
    requires left > 0 && ParseMany(s, n) == Continue(items, ParseMany(before, left))
    requires ParseFrame(before) == Ok(v, after)
    ensures ParseMany(s, n) == Continue(items + [v], ParseMany(after, left - 1))
  {
    hide ParseFrame;
    assert ParseMany(before, left) == Continue([v], ParseMany(after, left - 1));
    ContinueTwice(items, [v], ParseMany(after, left - 1));
  }

  // ---- When chunks matter ----

  // What read_response hands back for a bulk string of a length below -1, read by a reader that
  // has nothing unread and whose cursor stands at pos.
  function Answer(s: Bytes, pos: nat, chunks: seq<Bytes>): Bytes
    requires Rewinds(s)
  {
    var (n, h) := BulkHeader(s).value;
    var got := Arrive([], chunks, h).got;
    if h <= |got| then Rebound(Compacted(pos + h), got[h..], n) else []
  }

  // recv is asked for this many bytes.
  const CHUNK_SIZE := 65536

  // These chunks deliver the stream, none of them longer than recv was asked for.
  ghost predicate Delivers(chunks: seq<Bytes>, s: Bytes, size: nat)
  {
    Join(chunks) == s && forall c :: c in chunks ==> 0 < |c| <= size
  }

  ghost predicate SameForAllChunks(s: Bytes, pos: nat, size: nat)
    requires Rewinds(s)
  {
    forall x, y :: Delivers(x, s, size) && Delivers(y, s, size) ==> Answer(s, pos, x) == Answer(s, pos, y)
  }

  // The most bytes that can be there beyond a header of h bytes when the header is: one chunk
  // brings its last byte.
  function MostBeyond(s: Bytes, h: nat, size: nat): int { Min(|s| - h, size - 1) }

  // The answer is the same however the stream is cut exactly when the length takes the end of the
  // slice no further back than the start of the buffer, or so far back that no chunk and no stream
  // of this length reaches it.
  lemma ChunksMatterIff(s: Bytes, pos: nat, size: nat)
    requires Rewinds(s) && size > 0
    ensures var (n, h) := BulkHeader(s).value;
            var back := -(Compacted(pos + h) + n);
            SameForAllChunks(s, pos, size) <==> back <= 0 || MostBeyond(s, h, size) <= back
  {
    hide BulkHeader, Arrive, Rebound, Join, SameForAllChunks;
    var (n, h) := BulkHeader(s).value;
    var back := -(Compacted(pos + h) + n);
    HeaderSize(s);
    RewindsMeansRewind(s);
    if back <= 0 || MostBeyond(s, h, size) <= back {
      AlwaysEmpty(s, pos, size);
    } else {
      SometimesNot(s, pos, size);
    }
  }

  lemma AlwaysEmpty(s: Bytes, pos: nat, size: nat)
    requires Rewinds(s) && size > 0
    requires var (n, h) := BulkHeader(s).value;
             var back := -(Compacted(pos + h) + n); back <= 0 || MostBeyond(s, h, size) <= back
    ensures SameForAllChunks(s, pos, size)
  {
    hide BulkHeader, Arrive;
    var (n, h) := BulkHeader(s).value;
    RewindsMeansRewind(s);
    HeaderSize(s);
    forall x | Delivers(x, s, size) ensures Answer(s, pos, x) == [] {
      ArriveKeepsStream([], x, h);
      ArrivesWithinChunk([], x, h, size);
      assert [] + Join(x) == s;
    }
  }

  // What is there once h bytes are needed is less than a chunk more.
  lemma {:induction false} ArrivesWithinChunk(unread: Bytes, chunks: seq<Bytes>, h: nat, size: nat)
    requires forall c :: c in chunks ==> 0 < |c| <= size
    requires h > 0 && |unread| <= h - 1 + size
    ensures |Arrive(unread, chunks, h).got| <= h - 1 + size
    decreases |chunks|
  {
    if |unread| < h && chunks != [] {
      assert chunks[0] in chunks;
      ArrivesWithinChunk(unread + chunks[0], chunks[1..], h, size);
    }
  }

  lemma SometimesNot(s: Bytes, pos: nat, size: nat)
    requires Rewinds(s) && size > 0
    requires var (n, h) := BulkHeader(s).value;
             var back := -(Compacted(pos + h) + n); 0 < back < MostBeyond(s, h, size)
    ensures !SameForAllChunks(s, pos, size)
  {
    hide BulkHeader, Arrive, Join, Singles, Compacted, Delivers, SameForAllChunks;
    var (n, h) := BulkHeader(s).value;
    RewindsMeansRewind(s);
    HeaderSize(s);
    var k := Min(|s| - (h - 1), size);
    var x := Singles(s);
    var y := Singles(s[..h - 1]) + ([s[h - 1..h - 1 + k]] + Singles(s[h - 1 + k..]));
    OneByOne(s, h, size);
    LastChunk(s, h, k, size);
    assert Answer(s, pos, x) == Rebound(Compacted(pos + h), [], n) == [];
    var got := s[..h - 1 + k];
    assert |got[h..]| == MostBeyond(s, h, size);
    assert Answer(s, pos, y) == Rebound(Compacted(pos + h), got[h..], n);
    assert |Answer(s, pos, y)| > 0;
    if SameForAllChunks(s, pos, size) {
      SameMeans(s, pos, size, x, y);
      assert false;
    }
  }

  lemma SameMeans(s: Bytes, pos: nat, size: nat, x: seq<Bytes>, y: seq<Bytes>)
    requires Rewinds(s) && SameForAllChunks(s, pos, size) && Delivers(x, s, size) && Delivers(y, s, size)
    ensures Answer(s, pos, x) == Answer(s, pos, y)
  {
  }

  // One byte at a time.
  function Singles(s: Bytes): (r: seq<Bytes>)
    ensures |r| == |s|
    ensures forall i :: 0 <= i < |r| ==> |r[i]| == 1
  {
    seq(|s|, i requires 0 <= i < |s| => [s[i]])
  }

  lemma SinglesHead(s: Bytes, more: seq<Bytes>)
    requires s != []
    ensures Singles(s) + more == [[s[0]]] + (Singles(s[1..]) + more)
  {
    assert Singles(s) == [[s[0]]] + Singles(s[1..]);
  }

  lemma {:induction false} SinglesJoin(s: Bytes)
    ensures Join(Singles(s)) == s
  {
    hide Singles;
    if s == [] {
      assert Singles(s) == [];
    } else {
      SinglesJoin(s[1..]);
      SinglesHead(s, []);
      assert Singles(s) + [] == Singles(s) && Singles(s[1..]) + [] == Singles(s[1..]);
      JoinFirst([s[0]], Singles(s[1..]));
    }
  }

  // Byte by byte exactly what is needed arrives.
  lemma {:induction false} SinglesArrive(unread: Bytes, s: Bytes, more: seq<Bytes>, h: nat)
    requires |unread| <= h <= |unread| + |s|
    ensures var n := h - |unread|;
            Arrive(unread, Singles(s) + more, h) == Arrival(unread + s[..n], Singles(s[n..]) + more)
    decreases |s|
  {
    hide Singles, Arrive;
    var n := h - |unread|;
    if n == 0 {
      assert unread + s[..0] == unread && s[0..] == s;
      ArriveNone(unread, Singles(s) + more, h);
    } else {
      SinglesHead(s, more);
      ArriveStep(unread, [s[0]], Singles(s[1..]) + more, h);
      SinglesArrive(unread + [s[0]], s[1..], more, h);
      assert unread + [s[0]] + s[1..][..n - 1] == unread + s[..n] && s[1..][n - 1..] == s[n..];
    }
  }

  lemma ArriveNone(unread: Bytes, chunks: seq<Bytes>, h: nat)
    requires |unread| >= h
    ensures Arrive(unread, chunks, h) == Arrival(unread, chunks)
  {
  }

  lemma ArriveStep(unread: Bytes, chunk: Bytes, rest: seq<Bytes>, h: nat)
    requires |unread| < h
    ensures Arrive(unread, [chunk] + rest, h) == Arrive(unread + chunk, rest, h)
  {
    assert ([chunk] + rest)[1..] == rest;
  }

  lemma OneByOne(s: Bytes, h: nat, size: nat)
    requires 0 < h <= |s| && size > 0
    ensures Delivers(Singles(s), s, size) && Arrive([], Singles(s), h).got == s[..h]
  {
    SinglesJoin(s);
    SinglesArrive([], s, [], h);
    assert Singles(s) + [] == Singles(s) && [] + s[..h] == s[..h];
  }

  // All but the last byte of the header one by one, and then a chunk of k bytes.
  lemma LastChunk(s: Bytes, h: nat, k: nat, size: nat)
    requires 0 < h <= |s| && 0 < k <= size && h - 1 + k <= |s|
    ensures var chunks := Singles(s[..h - 1]) + ([s[h - 1..h - 1 + k]] + Singles(s[h - 1 + k..]));
            Delivers(chunks, s, size) && Arrive([], chunks, h).got == s[..h - 1 + k]
  {
    hide Arrive, Join, Singles;
    var head, chunk, tail := s[..h - 1], s[h - 1..h - 1 + k], s[h - 1 + k..];
    var more := [chunk] + Singles(tail);
    SinglesJoin(head);
    SinglesJoin(tail);
    JoinAppend(Singles(head), more);
    JoinFirst(chunk, Singles(tail));
    assert s == head + (chunk + tail);
    SinglesFirst(head, more);
    ArriveFurther([], Singles(head) + more, h - 1, h);
    ArriveOne(head, chunk, Singles(tail), h);
    assert head + chunk == s[..h - 1 + k];
    var chunks := Singles(head) + more;
    assert forall i :: 0 <= i < |chunks| ==> 0 < |chunks[i]| <= size;
  }

  lemma JoinFirst(chunk: Bytes, rest: seq<Bytes>)
    ensures Join([chunk] + rest) == chunk + Join(rest)
  {
    assert ([chunk] + rest)[1..] == rest;
  }

  lemma SinglesFirst(head: Bytes, more: seq<Bytes>)
    ensures Arrive([], Singles(head) + more, |head|) == Arrival(head, more)
  {
    hide Arrive;
    SinglesArrive([], head, more, |head|);
    assert [] + head[..|head|] == head && head[|head|..] == [];
    assert Singles([]) + more == more;
  }

  lemma ArriveOne(unread: Bytes, chunk: Bytes, rest: seq<Bytes>, h: nat)
    requires |unread| < h <= |unread| + |chunk|
    ensures Arrive(unread, [chunk] + rest, h) == Arrival(unread + chunk, rest)
  {
    hide Arrive;
    ArriveStep(unread, chunk, rest, h);
    ArriveNone(unread + chunk, rest, h);
  }

  // Receiving for h - 1 bytes first does not change what is received for h.
  lemma {:induction false} ArriveFurther(unread: Bytes, chunks: seq<Bytes>, a: nat, b: nat)
    requires a <= b
    ensures var first := Arrive(unread, chunks, a);
            Arrive(first.got, first.pending, b) == Arrive(unread, chunks, b)
    decreases |chunks|
  {
    if |unread| < a && chunks != [] { ArriveFurther(unread + chunks[0], chunks[1..], a, b); }
  }

  // A fresh reader gives this answer.
  method ReadOnce(chunks: seq<Bytes>, ghost s: Bytes) returns (o: Result)
    requires Delivers(chunks, s, CHUNK_SIZE) && Rewinds(s)
    ensures o == Rewound(BulkHeader(s).value.0, Answer(s, 0, chunks))
  {
    hide Rewinds, BulkHeader, Arrive, Rebound;
    var sock := new Socket(chunks);
    var reader := new Reader(sock);
    assert [] + Join(chunks) == Join(chunks) && reader.buf[reader.pos..] == [];
    o := reader.ReadResponse();
  }

  // One stream, read whole and read in two chunks: a fresh reader hands back 56 bytes in the one
  // case and none in the other.
  method SameStreamTwoAnswers(tail: Bytes) returns (whole: Result, cut: Result)
    requires |tail| == 100
    ensures whole == Rewound(-50, tail[..56]) && cut == Rewound(-50, [])
  {
    hide Rewinds, BulkHeader, Arrive, Join;
    var s := [DOLLAR] + PrintInt(-50) + CRLF + tail;
    HeaderOfFifty(tail);
    OneChunk(s, 6);
    TwoChunks(s, 6);
    whole := ReadOnce([s], s);
    cut := ReadOnce([s[..6], s[6..]], s);
    assert s[6..] == tail;
  }

  lemma OneChunk(s: Bytes, h: nat)
    requires 0 < h <= |s| <= CHUNK_SIZE
    ensures Delivers([s], s, CHUNK_SIZE) && Arrive([], [s], h) == Arrival(s, [])
  {
    assert Join([s]) == s + Join([s][1..]) && s + [] == s;
    assert [] + s == s;
  }

  lemma TwoChunks(s: Bytes, h: nat)
    requires 0 < h < |s| <= CHUNK_SIZE
    ensures Delivers([s[..h], s[h..]], s, CHUNK_SIZE)
    ensures Arrive([], [s[..h], s[h..]], h) == Arrival(s[..h], [s[h..]])
  {
    var chunks := [s[..h], s[h..]];
    assert chunks[1..] == [s[h..]] && [s[h..]][1..] == [];
    assert Join([s[h..]]) == s[h..] + Join([s[h..]][1..]) == s[h..];
    assert Join(chunks) == s[..h] + Join(chunks[1..]) == s;
    assert [] + s[..h] == s[..h];
  }

  lemma HeaderOfFifty(tail: Bytes)
    ensures var s := [DOLLAR] + PrintInt(-50) + CRLF + tail;
            |[DOLLAR] + PrintInt(-50) + CRLF| == 6 && BulkHeader(s) == Some((-50, 6)) && Rewinds(s)
  {
    var line := PrintInt(-50);
    var s := [DOLLAR] + line + CRLF + tail;
    assert Print(5) == [53] && Print(50) == [53] + [48];
    assert line == [45] + ([53] + [48]);
    ParsePrint(-50);
    assert s[1..] == line + CRLF + tail;
    assert s[1..][3] == CR && s[1..][4] == LF;
    FindCrlfFirst(s[1..], 3);
    assert s[1..][..3] == line;
  }
}
