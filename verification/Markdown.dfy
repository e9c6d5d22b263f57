// Lines, headings and fences as src/kachedb/semantic/chunker.py sees them.
module Markdown {

  // str.isspace() for one character
  predicate IsSpace(c: char)
  {
    || 9 as char <= c <= 13 as char
    || 28 as char <= c <= 32 as char
    || c == 0x85 as char || c == 0xA0 as char || c == 0x1680 as char
    || 0x2000 as char <= c <= 0x200A as char
    || c == 0x2028 as char || c == 0x2029 as char || c == 0x202F as char
    || c == 0x205F as char || c == 0x3000 as char
  }

  predicate AllSpace(s: string) { forall i :: 0 <= i < |s| ==> IsSpace(s[i]) }

  function StripLeft(s: string): string
  {
    if s != "" && IsSpace(s[0]) then StripLeft(s[1..]) else s
  }

  function StripRight(s: string): string
  {
    if s != "" && IsSpace(s[|s| - 1]) then StripRight(s[..|s| - 1]) else s
  }

  function Strip(s: string): string { StripRight(StripLeft(s)) }

  lemma {:induction false} StripLeftEmptyIff(s: string)
    ensures StripLeft(s) == "" <==> AllSpace(s)
    ensures StripLeft(s) != "" ==> !IsSpace(StripLeft(s)[0])
  {
    if s != "" && IsSpace(s[0]) {
      StripLeftEmptyIff(s[1..]);
      assert forall i :: 0 < i < |s| ==> s[i] == s[1..][i - 1];
    }
  }

  lemma {:induction false} StripRightEmptyIff(s: string)
    ensures StripRight(s) == "" <==> AllSpace(s)
  {
    if s != "" && IsSpace(s[|s| - 1]) {
      StripRightEmptyIff(s[..|s| - 1]);
    }
  }

  lemma StripEmptyIff(s: string)
    ensures Strip(s) == "" <==> AllSpace(s)
  {
    StripLeftEmptyIff(s);
    StripRightEmptyIff(StripLeft(s));
  }

  // What is between white space on both sides, and begins and ends with something else.
  ghost predicate Trimmed(s: string, a: string, t: string, b: string)
  {
    && s == a + t + b && AllSpace(a) && AllSpace(b)
    && (t != "" ==> !IsSpace(t[0]) && !IsSpace(t[|t| - 1]))
  }

  lemma {:induction false} StripLeftParts(s: string) returns (a: string)
    ensures s == a + StripLeft(s) && AllSpace(a)
  {
    if s != "" && IsSpace(s[0]) {
      a := StripLeftParts(s[1..]);
      a := [s[0]] + a;
    } else {
      a := "";
    }
  }

  lemma {:induction false} StripRightParts(s: string) returns (b: string)
    ensures s == StripRight(s) + b && AllSpace(b)
    ensures StripRight(s) != "" ==> !IsSpace(StripRight(s)[|StripRight(s)| - 1])
  {
    if s != "" && IsSpace(s[|s| - 1]) {
      var front := s[..|s| - 1];
      b := StripRightParts(front);
      b := b + [s[|s| - 1]];
    } else {
      b := "";
    }
  }

  lemma {:induction false} StripLeftPast(a: string, t: string)
    requires AllSpace(a) && (t != "" ==> !IsSpace(t[0]))
    ensures StripLeft(a + t) == t
  {
    if a == "" {
      assert a + t == t;
    } else {
      assert (a + t)[1..] == a[1..] + t;
      StripLeftPast(a[1..], t);
    }
  }

  lemma {:induction false} StripRightPast(t: string, b: string)
    requires AllSpace(b) && (t != "" ==> !IsSpace(t[|t| - 1]))
    ensures StripRight(t + b) == t
  {
    if b == "" {
      assert t + b == t;
    } else {
      assert (t + b)[..|t + b| - 1] == t + b[..|b| - 1];
      StripRightPast(t, b[..|b| - 1]);
    }
  }

  // Stripping keeps everything from the first character that is no white space to the last.
  lemma StripIff(s: string, t: string)
    ensures t == Strip(s) <==> exists a, b :: Trimmed(s, a, t, b)
  {
    hide StripLeft, StripRight, IsSpace;
    if t == Strip(s) {
      var a := StripLeftParts(s);
      var b := StripRightParts(StripLeft(s));
      StripLeftEmptyIff(s);
      assert Trimmed(s, a, t, b);
    }
    forall a, b | Trimmed(s, a, t, b) ensures t == Strip(s) { StripsTo(s, a, t, b); }
  }

  lemma StripsTo(s: string, a: string, t: string, b: string)
    requires Trimmed(s, a, t, b)
    ensures Strip(s) == t
  {
    hide StripLeft, StripRight, IsSpace;
    if t == "" {
      assert s == a + b;
      AllSpaceConcat(a, b);
      StripEmptyIff(s);
    } else {
      assert s == a + (t + b);
      StripLeftPast(a, t + b);
      StripRightPast(t, b);
    }
  }

  // "\n".join(lines)
  function JoinLines(lines: seq<string>): string
  {
    if lines == [] then ""
    else if |lines| == 1 then lines[0]
    else lines[0] + "\n" + JoinLines(lines[1..])
  }

  // One more line comes after a line feed.
  lemma {:induction false} JoinOneMore(lines: seq<string>, line: string)
    ensures JoinLines([line]) == line
    ensures lines != [] ==> JoinLines(lines + [line]) == JoinLines(lines) + [10 as char] + line
  {
    if |lines| > 1 {
      JoinOneMore(lines[1..], line);
      assert (lines + [line])[1..] == lines[1..] + [line];
    }
  }

  // A run of lines is all white space exactly when each of them is.
  lemma {:induction false} JoinAllSpaceIff(lines: seq<string>)
    ensures AllSpace(JoinLines(lines)) <==> forall i :: 0 <= i < |lines| ==> AllSpace(lines[i])
  {
    if |lines| > 1 {
      JoinAllSpaceIff(lines[1..]);
      var a, b := lines[0], JoinLines(lines[1..]);
      assert forall i :: 0 < i < |lines| ==> lines[i] == lines[1..][i - 1];
      AllSpaceConcat(a + "\n", b);
      AllSpaceConcat(a, "\n");
    }
  }

  lemma AllSpaceConcat(a: string, b: string)
    ensures AllSpace(a + b) <==> AllSpace(a) && AllSpace(b)
  {
    assert forall i :: 0 <= i < |a| ==> (a + b)[i] == a[i];
    assert forall i :: 0 <= i < |b| ==> (a + b)[|a| + i] == b[i];
  }

  // ~4 characters per token, at least one for any text
  function EstimateTokens(text: string): nat
  {
    if text == "" then 0 else if |text| / 4 >= 1 then |text| / 4 else 1
  }

  // Four characters to a token, and one token for a text of fewer.
  lemma EstimateIff(text: string, n: nat)
    ensures EstimateTokens(text) == n <==>
            if |text| < 4 then n == (if text == "" then 0 else 1) else 4 * n <= |text| < 4 * n + 4
  {
  }

  predicate IsFence(line: string) { "```" <= line }

  // Three backticks at the very beginning of the line, whatever follows them.
  lemma FenceIff(line: string)
    ensures IsFence(line) <==> |line| >= 3 && line[0] == 96 as char && line[1] == 96 as char && line[2] == 96 as char
  {
    var marks := "```";
    assert |line| >= 3 ==> (line[..3] == marks <==> line[0] == marks[0] && line[1] == marks[1] && line[2] == marks[2]);
  }

  function CountHashes(line: string): nat
  {
    if line != "" && line[0] == '#' then 1 + CountHashes(line[1..]) else 0
  }

  // ^(#{1,6})\s+(.+)$ on a line without line breaks
  predicate IsHeading(line: string)
  {
    var h := CountHashes(line);
    1 <= h <= 6 && h + 2 <= |line| && IsSpace(line[h])
  }

  function Level(line: string): nat { CountHashes(line) }

  function Title(line: string): string
    requires IsHeading(line)
  {
    Strip(line[CountHashes(line)..])
  }

  lemma {:induction false} CountIff(line: string, h: nat)
    ensures CountHashes(line) == h <==>
            && h <= |line| && (forall i :: 0 <= i < h ==> line[i] == '#') && (h < |line| ==> line[h] != '#')
  {
    if line != "" && line[0] == '#' && h > 0 {
      CountIff(line[1..], h - 1);
      assert forall i :: 0 < i < h && i < |line| ==> line[i] == line[1..][i - 1];
      assert forall i :: 0 <= i < h - 1 && i < |line[1..]| ==> line[1..][i] == line[i + 1];
    }
  }

  // A heading of level h: h hash signs, one to six of them, white space, and one character more.
  lemma HeadingIff(line: string, h: nat)
    ensures IsHeading(line) && Level(line) == h <==>
            && 1 <= h <= 6 && h + 2 <= |line| && (forall i :: 0 <= i < h ==> line[i] == '#') && IsSpace(line[h])
    ensures IsHeading(line) && Level(line) == h ==> Title(line) == Strip(line[h..])
  {
    CountIff(line, h);
    CountIff(line, CountHashes(line));
  }

  lemma HeadingIsNoFence(line: string)
    ensures !(IsHeading(line) && IsFence(line))
  {
  }

  // ---- Splitting ----

  predicate IsBreak(c: char)
  {
    || 10 as char <= c <= 13 as char || 28 as char <= c <= 30 as char
    || c == 0x85 as char || c == 0x2028 as char || c == 0x2029 as char
  }

  // str.splitlines(), with the characters of the current line so far
  function SplitFrom(text: string, line: string): seq<string>
  {
    if text == "" then if line == "" then [] else [line]
    else if !IsBreak(text[0]) then SplitFrom(text[1..], line + [text[0]])
    else if text[0] == '\r' && |text| > 1 && text[1] == '\n' then [line] + SplitFrom(text[2..], "")
    else [line] + SplitFrom(text[1..], "")
  }

  function SplitLines(text: string): seq<string> { SplitFrom(text, "") }

  // The characters of a text other than its line breaks.
  function Unbroken(text: string): string
  {
    if text == "" then "" else (if IsBreak(text[0]) then "" else [text[0]]) + Unbroken(text[1..])
  }

  function Concat(lines: seq<string>): string
  {
    if lines == [] then "" else lines[0] + Concat(lines[1..])
  }

  // Splitting drops the line breaks and nothing else.
  lemma {:induction false} SplitKeepsCharacters(text: string, line: string)
    ensures Concat(SplitFrom(text, line)) == line + Unbroken(text)
  {
    if text == "" {
      if line != "" { assert Concat([line]) == line + Concat([line][1..]); }
    } else if !IsBreak(text[0]) {
      SplitKeepsCharacters(text[1..], line + [text[0]]);
      assert line + [text[0]] + Unbroken(text[1..]) == line + ([text[0]] + Unbroken(text[1..]));
    } else if text[0] == '\r' && |text| > 1 && text[1] == '\n' {
      SplitKeepsCharacters(text[2..], "");
      var rest := SplitFrom(text[2..], "");
      assert ([line] + rest)[1..] == rest;
      assert text[1..][1..] == text[2..];
      assert IsBreak(text[1]);
      assert Unbroken(text[1..]) == "" + Unbroken(text[2..]);
      assert Unbroken(text) == "" + Unbroken(text[1..]);
    } else {
      SplitKeepsCharacters(text[1..], "");
      var rest := SplitFrom(text[1..], "");
      assert ([line] + rest)[1..] == rest;
      assert Unbroken(text) == "" + Unbroken(text[1..]);
    }
  }

  // ---- Where lines end ----

  predicate NoBreak(line: string) { forall i :: 0 <= i < |line| ==> !IsBreak(line[i]) }

  // Each line, followed by what ends it.
  function Glue(lines: seq<string>, ends: seq<string>): string
    requires |lines| == |ends|
  {
    if lines == [] then "" else lines[0] + ends[0] + Glue(lines[1..], ends[1..])
  }

  // A line ends at one break, or at the two characters CR LF, which are never taken apart; only
  // the last line may end with the text, and then it is not empty.
  predicate Ended(lines: seq<string>, ends: seq<string>, k: nat)
    requires |lines| == |ends| && k < |lines|
  {
    && NoBreak(lines[k])
    && (ends[k] == "\r\n" || (|ends[k]| == 1 && IsBreak(ends[k][0]))
        || (ends[k] == "" && lines[k] != "" && k == |lines| - 1))
    && !(ends[k] == "\r" && k + 1 < |lines| && lines[k + 1] == "" && ends[k + 1] == "\n")
  }

  ghost predicate AllEnded(lines: seq<string>, ends: seq<string>)
  {
    |lines| == |ends| && forall k :: 0 <= k < |lines| ==> Ended(lines, ends, k)
  }

  lemma {:induction false} SplitPast(line: string, rest: string, sofar: string)
    requires NoBreak(line)
    ensures SplitFrom(line + rest, sofar) == SplitFrom(rest, sofar + line)
  {
    if line == "" {
      assert line + rest == rest && sofar + line == sofar;
    } else {
      assert (line + rest)[1..] == line[1..] + rest;
      SplitPast(line[1..], rest, sofar + [line[0]]);
      assert sofar + [line[0]] + line[1..] == sofar + line;
    }
  }

  // The first line and what follows its end.
  lemma SplitFirst(line: string, end: string, rest: string)
    requires NoBreak(line)
    requires end == "\r\n" || (|end| == 1 && IsBreak(end[0])) || (end == "" && line != "" && rest == "")
    requires !(end == "\r" && rest != "" && rest[0] == '\n')
    ensures SplitLines(line + end + rest) == [line] + SplitLines(rest)
  {
    hide SplitFrom;
    assert line + end + rest == line + (end + rest);
    SplitPast(line, end + rest, "");
    assert "" + line == line;
    SplitEnd(line, end, rest);
  }

  lemma SplitEnd(line: string, end: string, rest: string)
    requires end == "\r\n" || (|end| == 1 && IsBreak(end[0])) || (end == "" && line != "" && rest == "")
    requires !(end == "\r" && rest != "" && rest[0] == '\n')
    ensures SplitFrom(end + rest, line) == [line] + SplitFrom(rest, "")
  {
    var s := end + rest;
    if end == "\r\n" { assert s[2..] == rest; }
    else if end != "" { assert s[1..] == rest; }
  }

  // Lines put together are split at exactly the same places.
  lemma {:induction false} SplitGlue(lines: seq<string>, ends: seq<string>)
    requires AllEnded(lines, ends)
    ensures SplitLines(Glue(lines, ends)) == lines
  {
    hide SplitLines, NoBreak, IsBreak;
    if lines == [] {
      SplitNothing();
    } else {
      var rest := Glue(lines[1..], ends[1..]);
      assert Ended(lines, ends, 0);
      forall k | 0 <= k < |lines[1..]| ensures Ended(lines[1..], ends[1..], k) {
        assert Ended(lines, ends, k + 1);
      }
      SplitGlue(lines[1..], ends[1..]);
      if rest != "" { StartsWithLineFeed(lines[1..], ends[1..]); }
      assert lines[0] + ends[0] + rest == Glue(lines, ends);
      SplitFirst(lines[0], ends[0], rest);
    }
  }

  lemma SplitNothing()
    ensures SplitLines("") == []
  {
  }

  lemma StartsWithLineFeed(lines: seq<string>, ends: seq<string>)
    requires AllEnded(lines, ends) && Glue(lines, ends) != ""
    ensures lines != []
    ensures Glue(lines, ends)[0] == '\n' ==> lines[0] == "" && ends[0] == "\n"
  {
    assert Ended(lines, ends, 0);
    if lines[0] != "" { assert Glue(lines, ends)[0] == lines[0][0]; }
    else { assert Glue(lines, ends)[0] == ends[0][0]; }
  }

  // Every text is so put together out of its lines.
  lemma {:induction false} SplitIsGlued(text: string) returns (ends: seq<string>)
    ensures AllEnded(SplitLines(text), ends) && Glue(SplitLines(text), ends) == text
    decreases |text|
  {
    hide SplitLines, IsBreak;
    if text == "" {
      SplitNothing();
      ends := [];
    } else {
      var n := FirstBreak(text);
      var line := text[..n];
      var end := if n == |text| then ""
                 else if text[n] == '\r' && n + 1 < |text| && text[n + 1] == '\n' then "\r\n" else [text[n]];
      var rest := text[n + |end|..];
      assert text == line + end + rest;
      SplitFirst(line, end, rest);
      var tail := SplitIsGlued(rest);
      ends := [end] + tail;
      GluedFirst(line, end, rest, SplitLines(rest), tail);
      assert SplitLines(text) == [line] + SplitLines(rest);
    }
  }

  lemma FirstBreak(text: string) returns (n: nat)
    ensures n <= |text| && NoBreak(text[..n]) && (n < |text| ==> IsBreak(text[n]))
  {
    n := 0;
    while n < |text| && !IsBreak(text[n])
      invariant n <= |text| && NoBreak(text[..n])
    {
      n := n + 1;
    }
  }

  lemma GluedFirst(line: string, end: string, rest: string, lines: seq<string>, ends: seq<string>)
    requires NoBreak(line) && AllEnded(lines, ends) && Glue(lines, ends) == rest
    requires end == "\r\n" || (|end| == 1 && IsBreak(end[0])) || (end == "" && line != "" && rest == "")
    requires !(end == "\r" && rest != "" && rest[0] == '\n')
    ensures AllEnded([line] + lines, [end] + ends) && Glue([line] + lines, [end] + ends) == line + end + rest
  {
    hide NoBreak, IsBreak;
    var ls, es := [line] + lines, [end] + ends;
    assert ls[1..] == lines && es[1..] == ends;
    NothingGlued(lines, ends);
    forall k | 0 <= k < |ls| ensures Ended(ls, es, k) {
      if k > 0 { assert Ended(lines, ends, k - 1); }
    }
  }

  lemma NothingGlued(lines: seq<string>, ends: seq<string>)
    requires AllEnded(lines, ends)
    ensures Glue(lines, ends) == "" ==> lines == []
    ensures lines != [] && lines[0] == "" && ends[0] == "\n" ==> Glue(lines, ends) != "" && Glue(lines, ends)[0] == '\n'
  {
    if lines != [] { assert Ended(lines, ends, 0); }
  }

  // So a text has one such list of lines, and it is the one the split gives.
  lemma SplitLinesIff(text: string, lines: seq<string>)
    ensures SplitLines(text) == lines <==> exists ends :: AllEnded(lines, ends) && Glue(lines, ends) == text
  {
    if SplitLines(text) == lines {
      var ends := SplitIsGlued(text);
      assert AllEnded(lines, ends) && Glue(lines, ends) == text;
    }
    forall ends | AllEnded(lines, ends) && Glue(lines, ends) == text ensures SplitLines(text) == lines {
      SplitGlue(lines, ends);
    }
  }
}
