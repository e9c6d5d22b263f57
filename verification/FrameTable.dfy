// The RESP frames byte by byte: which bytes a reader takes for which value, and which bytes are
// sent for a command.
module FrameTable {
  import opened Bytes
  import opened Decimal
  import opened Resp
  import opened RespCodec

  // ---- Lengths and numbers ----

  // The number these digits write, the first one counting most.
  function PlaceValue(d: Bytes): int
  {
    if d == [] then 0 else 10 * PlaceValue(d[..|d| - 1]) + (d[|d| - 1] as int - 48)
  }

  // The digits of n in base ten, without leading zeros.
  ghost predicate IsDecimal(d: Bytes, n: int)
  {
    && d != [] && (forall i :: 0 <= i < |d| ==> 48 <= d[i] <= 57)
    && (|d| > 1 ==> d[0] != 48)
    && PlaceValue(d) == n
  }

  lemma {:induction false} PlaceValueAtLeast(d: Bytes)
    requires forall i :: 0 <= i < |d| ==> 48 <= d[i] <= 57
    ensures PlaceValue(d) >= 0
    ensures d != [] && d[0] != 48 ==> PlaceValue(d) > 0
  {
    if d != [] { PlaceValueAtLeast(d[..|d| - 1]); }
  }

  // Every number has exactly one such string of digits, and that is what is printed.
  lemma {:induction false} DecimalIff(d: Bytes, n: nat)
    ensures IsDecimal(d, n) <==> d == Print(n)
    decreases n
  {
    if n >= 10 { DecimalIff(Print(n / 10), n / 10); }
    PrintIsDecimal(n);
    if IsDecimal(d, n) {
      var front := d[..|d| - 1];
      assert d == front + [d[|d| - 1]];
      PlaceValueAtLeast(front);
      if front != [] {
        assert front[0] == d[0] && PlaceValue(front) == n / 10;
        DecimalIff(front, n / 10);
      }
    }
  }

  lemma PrintIsDecimal(n: nat)
    requires n >= 10 ==> IsDecimal(Print(n / 10), n / 10)
    ensures IsDecimal(Print(n), n)
  {
    if n < 10 {
      assert Print(n)[..0] == [];
      return;
    }
    var p := Print(n / 10);
    PrintPositive(n / 10);
    var d := Print(n);
    assert d == p + [(48 + n % 10) as byte] && d[..|d| - 1] == p;
  }

  lemma {:induction false} PrintPositive(n: nat)
    requires n > 0
    ensures Print(n)[0] != 48
  {
    if n >= 10 { PrintPositive(n / 10); }
  }

  lemma ParsesDecimal(d: Bytes, n: int)
    requires n >= 0 && IsDecimal(d, n)
    ensures ParseInt(d) == Some(n) && ParseInt([45] + d) == Some(-n)
    ensures forall i :: 0 <= i < |d| ==> d[i] != 13
  {
    hide ParseInt, PlaceValue, Print;
    DecimalIff(d, n);
    ParsePrint(n);
    if n > 0 { ParsePrint(-n); } else { PrintZero(); assert [45 as byte] + d == [45, 48]; MinusZero(); }
  }

  lemma PrintZero()
    ensures Print(0) == [48]
  {
  }

  lemma MinusZero()
    ensures ParseInt([45, 48]).Some? && ParseInt([45, 48]).value == 0
  {
    var s: Bytes := [45, 48];
    assert TrimLeft(s) == s && TrimRight(s) == s;
    assert s[1..] == [48];
  }

  // ---- What int() accepts ----

  ghost predicate AllSpace(s: Bytes) { forall i :: 0 <= i < |s| ==> s[i] == 32 || 9 <= s[i] <= 13 }

  // Digits and underscores, each underscore alone between two digits.
  ghost predicate DigitGroups(s: Bytes)
  {
    && s != [] && s[0] != 95 && s[|s| - 1] != 95
    && (forall i :: 0 <= i < |s| ==> 48 <= s[i] <= 57 || s[i] == 95)
    && (forall i :: 0 <= i < |s| - 1 ==> !(s[i] == 95 && s[i + 1] == 95))
  }

  function WithoutUnderscores(s: Bytes): Bytes
  {
    if s == [] then []
    else WithoutUnderscores(s[..|s| - 1]) + if s[|s| - 1] == 95 then [] else [s[|s| - 1]]
  }

  lemma OneMoreDigit(front: Bytes, d: byte)
    ensures PlaceValue(front + [d]) == 10 * PlaceValue(front) + (d as int - 48)
    ensures WithoutUnderscores(front + [d]) == WithoutUnderscores(front) + if d == 95 then [] else [d]
  {
    assert (front + [d])[..|front|] == front;
  }

  lemma {:induction false} DigitsIff(s: Bytes)
    ensures Digits(s).Some? <==> DigitGroups(s)
    ensures Digits(s).Some? ==> Digits(s).value == PlaceValue(WithoutUnderscores(s))
    decreases |s|
  {
    if |s| > 1 && 48 <= s[|s| - 1] <= 57 {
      hide PlaceValue, WithoutUnderscores, DigitGroups, Digits;
      var rest, d := s[..|s| - 1], s[|s| - 1];
      assert s == rest + [d];
      var front := if rest[|rest| - 1] == 95 then rest[..|rest| - 1] else rest;
      LastDigit(s, front);
      DigitsIff(front);
      DigitsStep(s, front);
      DigitAfter(front, rest, d);
    } else {
      FewDigits(s);
    }
  }

  lemma FewDigits(s: Bytes)
    requires |s| > 1 ==> !(48 <= s[|s| - 1] <= 57)
    ensures Digits(s).Some? <==> DigitGroups(s)
    ensures Digits(s).Some? ==> Digits(s).value == PlaceValue(WithoutUnderscores(s))
  {
    if |s| == 1 {
      OneMoreDigit([], s[0]);
      assert [] + [s[0]] == s;
      assert PlaceValue([]) == 0 && WithoutUnderscores([]) == [];
    }
  }

  lemma DigitsStep(s: Bytes, front: Bytes)
    requires |s| > 1 && 48 <= s[|s| - 1] <= 57
    requires front == if s[|s| - 2] == 95 then s[..|s| - 2] else s[..|s| - 1]
    ensures Digits(s).Some? <==> Digits(front).Some?
    ensures Digits(s).Some? ==> Digits(s).value == 10 * Digits(front).value + (s[|s| - 1] as int - 48)
  {
    var rest := s[..|s| - 1];
    assert rest[..|rest| - 1] == s[..|s| - 2];
  }

  lemma DigitAfter(front: Bytes, rest: Bytes, d: byte)
    requires d != 95 && (rest == front || rest == front + [95])
    ensures PlaceValue(WithoutUnderscores(rest + [d])) == 10 * PlaceValue(WithoutUnderscores(front)) + (d as int - 48)
  {
    hide PlaceValue, WithoutUnderscores;
    var w := WithoutUnderscores(front);
    if rest != front { OneMoreDigit(front, 95); assert w + [] == w; }
    OneMoreDigit(rest, d);
    OneMoreDigit(w, d);
  }

  // A digit, or an underscore and a digit, at the end.
  lemma LastDigit(s: Bytes, front: Bytes)
    requires s != [] && 48 <= s[|s| - 1] <= 57 && |s| > 1
    requires front == if s[|s| - 2] == 95 then s[..|s| - 2] else s[..|s| - 1]
    ensures DigitGroups(s) <==> DigitGroups(front)
  {
    if front != [] && DigitGroups(front) {
      assert forall i :: 0 <= i < |front| ==> s[i] == front[i];
    }
    if DigitGroups(s) {
      assert s[|s| - 2] == 95 ==> |s| > 2 && s[|s| - 3] != 95;
    }
  }

  // White space, a sign or none, digit groups, white space; and the number they write.
  ghost predicate Writes(before: Bytes, sign: Bytes, digits: Bytes, after: Bytes, line: Bytes, n: int)
  {
    && line == before + sign + digits + after && AllSpace(before) && AllSpace(after)
    && (sign == [] || sign == [43] || sign == [45]) && DigitGroups(digits)
    && n == if sign == [45] then -PlaceValue(WithoutUnderscores(digits)) else PlaceValue(WithoutUnderscores(digits))
  }

  lemma {:induction false} TrimsLeft(s: Bytes) returns (before: Bytes)
    ensures s == before + TrimLeft(s) && AllSpace(before)
  {
    if s != [] && IsSpace(s[0]) {
      before := TrimsLeft(s[1..]);
      before := [s[0]] + before;
    } else {
      before := [];
    }
  }

  lemma {:induction false} TrimsRight(s: Bytes) returns (after: Bytes)
    ensures s == TrimRight(s) + after && AllSpace(after)
  {
    if s != [] && IsSpace(s[|s| - 1]) {
      var front := s[..|s| - 1];
      after := TrimsRight(front);
      after := after + [s[|s| - 1]];
    } else {
      after := [];
    }
  }

  lemma {:induction false} TrimLeftPast(before: Bytes, s: Bytes)
    requires AllSpace(before) && s != [] && !IsSpace(s[0])
    ensures TrimLeft(before + s) == s
  {
    if before == [] {
      assert before + s == s;
    } else {
      assert (before + s)[1..] == before[1..] + s;
      TrimLeftPast(before[1..], s);
    }
  }

  lemma {:induction false} TrimRightPast(s: Bytes, after: Bytes)
    requires AllSpace(after) && s != [] && !IsSpace(s[|s| - 1])
    ensures TrimRight(s + after) == s
  {
    if after == [] {
      assert s + after == s;
    } else {
      var front := after[..|after| - 1];
      assert (s + after)[..|s + after| - 1] == s + front;
      TrimRightPast(s, front);
    }
  }

  // A line is the integer n exactly when it is written so.
  lemma ParseIntIff(line: Bytes, n: int)
    ensures ParseInt(line) == Some(n) <==>
            exists before, sign, digits, after :: Writes(before, sign, digits, after, line, n)
  {
    if ParseInt(line) == Some(n) { ParsedWrites(line, n); }
    forall before, sign, digits, after | Writes(before, sign, digits, after, line, n)
      ensures ParseInt(line) == Some(n)
    {
      WrittenParses(before, sign, digits, after, line, n);
    }
  }

  lemma DigitsAtEnds(digits: Bytes)
    requires DigitGroups(digits)
    ensures digits != [] && IsDigit(digits[0]) && IsDigit(digits[|digits| - 1])
  {
  }

  lemma WrittenParses(before: Bytes, sign: Bytes, digits: Bytes, after: Bytes, line: Bytes, n: int)
    requires Writes(before, sign, digits, after, line, n)
    ensures ParseInt(line) == Some(n)
  {
    hide TrimLeft, TrimRight, WithoutUnderscores, PlaceValue, Digits, AllSpace, DigitGroups;
    var s := sign + digits;
    assert line == before + (s + after);
    DigitsAtEnds(digits);
    assert s[|s| - 1] == digits[|digits| - 1];
    TrimLeftPast(before, s + after);
    TrimRightPast(s, after);
    DigitsIff(digits);
    if sign == [] { assert s == digits; } else { assert s[1..] == digits; }
  }

  lemma ParsedWrites(line: Bytes, n: int)
    requires ParseInt(line) == Some(n)
    ensures exists before, sign, digits, after :: Writes(before, sign, digits, after, line, n)
  {
    hide TrimLeft, TrimRight, WithoutUnderscores, PlaceValue, Digits, AllSpace, DigitGroups;
    var before := TrimsLeft(line);
    var t := TrimLeft(line);
    var after := TrimsRight(t);
    var s := TrimRight(t);
    if s != [] && (s[0] == 43 || s[0] == 45) {
      DigitsIff(s[1..]);
      assert s == [s[0]] + s[1..];
      assert Writes(before, [s[0]], s[1..], after, line, n);
    } else {
      DigitsIff(s);
      assert s == [] + s;
      assert Writes(before, [], s, after, line, n);
    }
  }

  // ---- What a reader takes the bytes for ----

  // The text of a line: the two bytes that end it are not in it.
  ghost predicate OneLine(t: Bytes)
  {
    forall i :: 0 <= i < |t| - 1 ==> !(t[i] == 13 && t[i + 1] == 10)
  }

  lemma FirstLine(marker: byte, t: Bytes, rest: Bytes)
    requires OneLine(t)
    ensures var body := ([marker] + t + [13, 10] + rest)[1..];
            FindCrlf(body) == Some(|t|) && body[..|t|] == t && body[|t| + 2..] == rest
  {
    var body := ([marker] + t + [13, 10] + rest)[1..];
    assert body == t + [13, 10] + rest;
    assert body[|t|] == 13 && body[|t| + 1] == 10;
    FindCrlfFirst(body, |t|);
  }

  // Frames of one line: text, an error, null and an integer.
  lemma LineFrames(t: Bytes, rest: Bytes)
    requires OneLine(t)
    ensures ParseFrame([43] + t + [13, 10] + rest) ==
            if Utf8Valid(t) then Ok(Text(t), rest) else Err(BadText(t), rest)
    ensures ParseFrame([45] + t + [13, 10] + rest) ==
            if Utf8Valid(t) then Err(ServerError(t), rest) else Err(BadText(t), rest)
    ensures ParseFrame([95] + t + [13, 10] + rest) == Ok(Null, rest)
    ensures ParseFrame([58] + t + [13, 10] + rest) ==
            if ParseInt(t).Some? then Ok(Integer(ParseInt(t).value), rest) else Err(BadInteger(t), rest)
  {
    hide FindCrlf, ParseInt, Utf8Valid;
    FirstLine(43, t, rest);
    FirstLine(45, t, rest);
    FirstLine(95, t, rest);
    FirstLine(58, t, rest);
  }

  // A marker of another kind is refused with its line unread; a line that never ends is waited for.
  lemma OtherFrames(s: Bytes)
    requires s != []
    ensures s[0] !in {36, 42, 43, 45, 58, 95} ==> ParseFrame(s) == Err(UnknownMarker(s[0]), s[1..])
    ensures s[0] in {36, 42, 43, 45, 58, 95} && OneLine(s[1..]) ==> ParseFrame(s) == Err(Closed, s[1..])
  {
    if OneLine(s[1..]) { NoCrlfFound(s[1..]); }
  }

  lemma {:induction false} NoCrlfFound(s: Bytes)
    requires OneLine(s)
    ensures FindCrlf(s).None?
  {
    if |s| >= 2 {
      forall i | 0 <= i < |s[1..]| - 1 ensures !(s[1..][i] == 13 && s[1..][i + 1] == 10) {
        assert s[1..][i] == s[i + 1] && s[1..][i + 1] == s[i + 2];
      }
      NoCrlfFound(s[1..]);
    }
  }

  // An integer with an optional sign.
  lemma IntegerFrames(d: Bytes, n: int, rest: Bytes)
    requires n >= 0 && IsDecimal(d, n)
    ensures ParseFrame([58] + d + [13, 10] + rest) == Ok(Integer(n), rest)
    ensures ParseFrame([58, 45] + d + [13, 10] + rest) == Ok(Integer(-n), rest)
  {
    hide ParseFrame;
    ParsesDecimal(d, n);
    LineFrames(d, rest);
    LineFrames([45] + d, rest);
    assert [58, 45] + d + [13, 10] + rest == [58] + ([45] + d) + [13, 10] + rest;
  }

  // A bulk string of |data| bytes, with whatever two bytes follow them, and the null one.
  lemma BulkFrames(d: Bytes, data: Bytes, x: byte, y: byte, rest: Bytes)
    requires IsDecimal(d, |data|)
    ensures ParseFrame([36] + d + [13, 10] + data + [x, y] + rest) == Ok(Bulk(data), rest)
    ensures ParseFrame([36, 45, 49, 13, 10] + rest) == Ok(Null, rest)
  {
    hide FindCrlf, ParseInt;
    ParsesDecimal(d, |data|);
    var after := data + [x, y] + rest;
    FirstLine(36, d, after);
    assert [36] + d + [13, 10] + after == [36] + d + [13, 10] + data + [x, y] + rest;
    assert after[..|data|] == data && after[|data| + 2..] == rest;
    MinusOne();
    FirstLine(36, [45, 49], rest);
    assert [36] + [45, 49] + [13, 10] + rest == [36, 45, 49, 13, 10] + rest;
  }

  lemma MinusOne()
    ensures ParseInt([45, 49]) == Some(-1)
  {
    assert IsDecimal([49], 1) by { DecimalIff([49], 1); }
    ParsesDecimal([49], 1);
    assert [45] + [49] == [45, 49];
  }

  // These frames follow one another: each read gives a value and leaves the next stream.
  ghost predicate Follow(at: seq<Bytes>, values: seq<Value>)
  {
    |at| == |values| + 1 && forall i :: 0 <= i < |values| ==> ParseFrame(at[i]) == Ok(values[i], at[i + 1])
  }

  // An array of n frames is their values in order, or the failure of the first that fails.
  lemma ArrayFrames(d: Bytes, n: nat, at: seq<Bytes>, values: seq<Value>)
    requires IsDecimal(d, n) && Follow(at, values) && |values| <= n
    ensures |values| == n ==> ParseFrame([42] + d + [13, 10] + at[0]) == Ok(Array(values), at[n])
    ensures |values| < n && ParseFrame(at[|values|]).Err? ==>
              ParseFrame([42] + d + [13, 10] + at[0]) == ParseFrame(at[|values|])
  {
    hide FindCrlf, ParseInt, ParseMany, IsDecimal, Follow;
    ParsesDecimal(d, n);
    FollowMany(at, values, n);
    assert |at| == |values| + 1 by { assert Follow(at, values); FollowLength(at, values); }
    CountedFrames(d, n, at[0]);
  }

  lemma FollowLength(at: seq<Bytes>, values: seq<Value>)
    requires Follow(at, values)
    ensures |at| == |values| + 1
  {
  }

  lemma CountedFrames(line: Bytes, n: int, s: Bytes)
    requires OneLine(line) && ParseInt(line) == Some(n)
    ensures ParseFrame([42] + line + [13, 10] + s) ==
            if n == -1 then Ok(Null, s)
            else
              var r := ParseMany(s, n);
              if r.OkAll? then Ok(Array(r.values), r.rest) else Err(r.failure, r.rest)
  {
    hide FindCrlf, ParseInt, ParseMany, OneLine;
    FirstLine(42, line, s);
  }

  // The null array, and a count below it, which is an array of no frames.
  lemma NoArrayFrames(d: Bytes, n: int, s: Bytes)
    requires n > 1 && IsDecimal(d, n)
    ensures ParseFrame([42, 45, 49, 13, 10] + s) == Ok(Null, s)
    ensures ParseFrame([42, 45] + d + [13, 10] + s) == Ok(Array([]), s)
  {
    hide ParseFrame, ParseInt, IsDecimal;
    ParsesDecimal(d, n);
    MinusOne();
    CountedFrames([45, 49], -1, s);
    assert [42] + [45, 49] + [13, 10] + s == [42, 45, 49, 13, 10] + s;
    CountedFrames([45] + d, -n, s);
    assert [42] + ([45] + d) + [13, 10] + s == [42, 45] + d + [13, 10] + s;
    NoneCounted(s, -n);
  }

  lemma NoneCounted(s: Bytes, n: int)
    requires n <= 0
    ensures ParseMany(s, n) == OkAll([], s)
  {
  }

  lemma {:induction false} FollowMany(at: seq<Bytes>, values: seq<Value>, n: nat)
    requires Follow(at, values) && |values| <= n
    ensures |values| == n ==> ParseMany(at[0], n) == OkAll(values, at[n])
    ensures |values| < n && ParseFrame(at[|values|]).Err? ==>
              var o := ParseFrame(at[|values|]); ParseMany(at[0], n) == ErrAt(o.failure, o.rest)
    decreases |values|
  {
    hide ParseFrame;
    if values != [] {
      assert ParseFrame(at[0]) == Ok(values[0], at[1]);
      assert Follow(at[1..], values[1..]);
      FollowMany(at[1..], values[1..], n - 1);
      assert values == [values[0]] + values[1..];
    }
  }

  // ---- What is sent for a command ----

  // The bytes of one argument, its length written as d.
  function ArgumentBytes(d: Bytes, arg: Bytes): Bytes { [36] + d + [13, 10] + arg + [13, 10] }

  function ArgumentsBytes(ds: seq<Bytes>, args: seq<Bytes>): Bytes
    requires |ds| == |args|
  {
    Join(seq(|args|, i requires 0 <= i < |args| => ArgumentBytes(ds[i], args[i])))
  }

  // A star, the number of arguments, and for each a dollar, its length and its bytes.
  lemma CommandBytes(count: Bytes, lengths: seq<Bytes>, args: seq<Bytes>)
    requires IsDecimal(count, |args|)
    requires |lengths| == |args| && forall i :: 0 <= i < |args| ==> IsDecimal(lengths[i], |args[i]|)
    ensures EncodeCommand(args) == [42] + count + [13, 10] + ArgumentsBytes(lengths, args)
  {
    hide IsDecimal;
    DecimalIff(count, |args|);
    BulksBytes(lengths, args);
  }

  lemma {:induction false} BulksBytes(lengths: seq<Bytes>, args: seq<Bytes>)
    requires |lengths| == |args| && forall i :: 0 <= i < |args| ==> IsDecimal(lengths[i], |args[i]|)
    ensures EncodeBulks(args) == ArgumentsBytes(lengths, args)
  {
    hide IsDecimal;
    if args != [] {
      DecimalIff(lengths[0], |args[0]|);
      BulksBytes(lengths[1..], args[1..]);
      var all := seq(|args|, i requires 0 <= i < |args| => ArgumentBytes(lengths[i], args[i]));
      var tail := seq(|args[1..]|, i requires 0 <= i < |args[1..]| => ArgumentBytes(lengths[1..][i], args[1..][i]));
      assert all[1..] == tail;
    }
  }

  // ---- UTF-8 ----

  // The values a character may have: everything up to 0x10FFFF but the surrogates.
  predicate IsScalar(c: nat) { c < 0xD800 || 0xE000 <= c < 0x110000 }

  // The bytes of one character: six bits in every byte after the first.
  function EncodeScalar(c: nat): (r: Bytes)
    requires IsScalar(c)
  {
    if c < 0x80 then [c as byte]
    else if c < 0x800 then [(0xC0 + c / 64) as byte, (0x80 + c % 64) as byte]
    else if c < 0x10000 then
      [(0xE0 + c / 4096) as byte, (0x80 + c / 64 % 64) as byte, (0x80 + c % 64) as byte]
    else
      [(0xF0 + c / 262144) as byte, (0x80 + c / 4096 % 64) as byte, (0x80 + c / 64 % 64) as byte,
       (0x80 + c % 64) as byte]
  }

  function EncodeText(cs: seq<nat>): Bytes
    requires forall i :: 0 <= i < |cs| ==> IsScalar(cs[i])
  {
    if cs == [] then [] else EncodeScalar(cs[0]) + EncodeText(cs[1..])
  }

  ghost predicate IsTextOf(s: Bytes, cs: seq<nat>)
  {
    (forall i :: 0 <= i < |cs| ==> IsScalar(cs[i])) && EncodeText(cs) == s
  }

  // The first character of a string that starts with one.
  lemma ScalarAccepted(c: nat, rest: Bytes)
    requires IsScalar(c)
    ensures Utf8Valid(EncodeScalar(c) + rest) == Utf8Valid(rest)
  {
    var s := EncodeScalar(c) + rest;
    if c < 0x80 { assert s[1..] == rest; }
    else if c < 0x800 { assert s[2..] == rest; }
    else if c < 0x10000 { assert s[3..] == rest; }
    else { assert s[4..] == rest; }
  }

  function FirstScalar(s: Bytes): nat
    requires s != [] && Utf8Valid(s)
  {
    if s[0] < 0x80 then s[0] as nat
    else if s[0] <= 0xDF then (s[0] as int - 0xC0) * 64 + (s[1] as int - 0x80)
    else if s[0] <= 0xEF then (s[0] as int - 0xE0) * 4096 + (s[1] as int - 0x80) * 64 + (s[2] as int - 0x80)
    else (s[0] as int - 0xF0) * 262144 + (s[1] as int - 0x80) * 4096 + (s[2] as int - 0x80) * 64
         + (s[3] as int - 0x80)
  }

  // Numbers in base 64.
  lemma TwoSixes(a: nat, b: nat)
    requires b < 64
    ensures (a * 64 + b) / 64 == a && (a * 64 + b) % 64 == b
  {
  }

  lemma ThreeSixes(a: nat, b: nat, c: nat)
    requires b < 64 && c < 64
    ensures var n := a * 4096 + b * 64 + c; n / 4096 == a && n / 64 % 64 == b && n % 64 == c
  {
    TwoSixes(a * 64 + b, c);
    TwoSixes(a, b);
  }

  lemma FourSixes(a: nat, b: nat, c: nat, d: nat)
    requires b < 64 && c < 64 && d < 64
    ensures var n := a * 262144 + b * 4096 + c * 64 + d;
            n / 262144 == a && n / 4096 % 64 == b && n / 64 % 64 == c && n % 64 == d
  {
    ThreeSixes(a * 64 + b, c, d);
    TwoSixes(a, b);
  }

  lemma FirstScalarStands(s: Bytes)
    requires s != [] && Utf8Valid(s)
    ensures var c := FirstScalar(s);
            && IsScalar(c) && |EncodeScalar(c)| <= |s| && s[..|EncodeScalar(c)|] == EncodeScalar(c)
            && Utf8Valid(s[|EncodeScalar(c)|..])
  {
    if s[0] < 0x80 {
    } else if s[0] <= 0xDF {
      TwoSixes(s[0] as int - 0xC0, s[1] as int - 0x80);
    } else if s[0] <= 0xEF {
      ThreeBytes(s);
    } else {
      FourBytes(s);
    }
  }

  lemma ThreeBytes(s: Bytes)
    requires s != [] && Utf8Valid(s) && 0xE0 <= s[0] <= 0xEF
    ensures var c := FirstScalar(s);
            IsScalar(c) && EncodeScalar(c) == s[..3] && Utf8Valid(s[3..])
  {
    ThreeSixes(s[0] as int - 0xE0, s[1] as int - 0x80, s[2] as int - 0x80);
  }

  lemma FourBytes(s: Bytes)
    requires s != [] && Utf8Valid(s) && 0xF0 <= s[0]
    ensures var c := FirstScalar(s);
            IsScalar(c) && EncodeScalar(c) == s[..4] && Utf8Valid(s[4..])
  {
    FourSixes(s[0] as int - 0xF0, s[1] as int - 0x80, s[2] as int - 0x80, s[3] as int - 0x80);
  }

  // A line decodes exactly when it is the encoding of some characters.
  lemma {:induction false} Utf8ValidIff(s: Bytes)
    ensures Utf8Valid(s) <==> exists cs :: IsTextOf(s, cs)
  {
    if Utf8Valid(s) { DecodedText(s); }
    forall cs | IsTextOf(s, cs) ensures Utf8Valid(s) { TextAccepted(cs); }
  }

  lemma NoText()
    ensures Utf8Valid([])
  {
  }

  lemma {:induction false} TextAccepted(cs: seq<nat>)
    requires forall i :: 0 <= i < |cs| ==> IsScalar(cs[i])
    ensures Utf8Valid(EncodeText(cs))
  {
    hide EncodeScalar, Utf8Valid, IsScalar;
    if cs == [] {
      NoText();
    } else {
      TextAccepted(cs[1..]);
      ScalarAccepted(cs[0], EncodeText(cs[1..]));
    }
  }

  lemma {:induction false} DecodedText(s: Bytes)
    requires Utf8Valid(s)
    ensures exists cs :: IsTextOf(s, cs)
    decreases |s|
  {
    hide EncodeScalar, Utf8Valid, IsScalar, FirstScalar;
    if s == [] {
      assert IsTextOf(s, []);
    } else {
      FirstScalarStands(s);
      var c := FirstScalar(s);
      var e := EncodeScalar(c);
      SomeBytes(c);
      DecodedText(s[|e|..]);
      var cs :| IsTextOf(s[|e|..], cs);
      var all := [c] + cs;
      assert all[1..] == cs && s == e + s[|e|..];
      assert IsTextOf(s, all);
    }
  }

  lemma SomeBytes(c: nat)
    requires IsScalar(c)
    ensures EncodeScalar(c) != []
  {
  }
}
