// What the lines kept for overlap do to the chunks of a whole document: which fenced blocks they
// split, and when they become a second chunk with the same end.
module ChunkOverlap {
  import opened Markdown
  import opened Chunker

  // ---- Fenced blocks ----

  lemma {:induction false} FencesSplit(lines: seq<string>, a: nat, b: nat)
    requires a <= b <= |lines|
    ensures Fences(lines, b) == Fences(lines, a) + FencesIn(lines, a, b)
  {
    if a < b { FencesSplit(lines, a, b - 1); }
  }

  // Fence lines among lines [a, b).
  function FencesIn(lines: seq<string>, a: nat, b: nat): nat
    requires a <= b <= |lines|
    decreases b - a
  {
    if a == b then 0 else FencesIn(lines, a, b - 1) + (if IsFence(lines[b - 1]) then 1 else 0)
  }

  // Line f opens a fenced block that line c closes.
  predicate FencedBlock(lines: seq<string>, f: nat, c: nat)
  {
    && f < c < |lines| && IsFence(lines[f]) && IsFence(lines[c])
    && Fences(lines, f) % 2 == 0 && Fences(lines, c) == Fences(lines, f) + 1
  }

  // Line r comes after the opening fence of the block, and not after the closing one.
  predicate Inside(lines: seq<string>, f: nat, c: nat, r: nat)
  {
    FencedBlock(lines, f, c) && f < r <= c
  }

  lemma {:induction false} FencesGrow(lines: seq<string>, a: nat, b: nat)
    requires a <= b <= |lines|
    ensures Fences(lines, a) <= Fences(lines, b)
  {
    if a < b { FencesGrow(lines, a, b - 1); }
  }

  lemma {:induction false} LastFenceBefore(lines: seq<string>, r: nat) returns (f: nat)
    requires r <= |lines| && Fences(lines, r) > 0
    ensures f < r && IsFence(lines[f]) && Fences(lines, f) + 1 == Fences(lines, r)
  {
    if IsFence(lines[r - 1]) { f := r - 1; } else { f := LastFenceBefore(lines, r - 1); }
  }

  lemma {:induction false} FirstFenceFrom(lines: seq<string>, r: nat, end: nat) returns (c: nat)
    requires r <= end <= |lines| && Fences(lines, r) < Fences(lines, end)
    ensures r <= c < end && IsFence(lines[c]) && Fences(lines, c) == Fences(lines, r)
    decreases end - r
  {
    if Fences(lines, end - 1) == Fences(lines, r) {
      c := end - 1;
    } else {
      FencesGrow(lines, r, end - 1);
      c := FirstFenceFrom(lines, r, end - 1);
    }
  }

  // Before a line that is outside code blocks, an odd number of fences means being inside one.
  lemma OddMeansInside(lines: seq<string>, r: nat, end: nat)
    requires r <= end <= |lines| && Fences(lines, end) % 2 == 0
    ensures Fences(lines, r) % 2 == 1 <==> exists f, c: nat :: c < end && Inside(lines, f, c, r)
  {
    hide Fences, FencedBlock, Inside;
    if Fences(lines, r) % 2 == 1 {
      var f, c := BlockAround(lines, r, end);
      assert c < end && Inside(lines, f, c, r);
    }
    forall f, c: nat | c < end && Inside(lines, f, c, r) ensures Fences(lines, r) % 2 == 1 {
      InsideIsOdd(lines, f, c, r);
    }
  }

  lemma BlockAround(lines: seq<string>, r: nat, end: nat) returns (f: nat, c: nat)
    requires r <= end <= |lines| && Fences(lines, end) % 2 == 0 && Fences(lines, r) % 2 == 1
    ensures c < end && Inside(lines, f, c, r)
  {
    FencesGrow(lines, r, end);
    f := LastFenceBefore(lines, r);
    c := FirstFenceFrom(lines, r, end);
  }

  lemma InsideIsOdd(lines: seq<string>, f: nat, c: nat, r: nat)
    requires r <= |lines| && Inside(lines, f, c, r)
    ensures Fences(lines, r) % 2 == 1
  {
    FencesGrow(lines, f + 1, r);
    FencesGrow(lines, r, c);
  }

  // The first line kept after a chunk.
  function Kept(cfg: Config, lines: seq<string>, s: Span): (r: nat)
    requires s.first <= s.end <= |lines|
    ensures s.first <= r <= s.end
  {
    OverlapStart(cfg, lines, s.first, s.end)
  }

  // The closing fence of the block and what follows it fit in the overlap, the whole block does
  // not, or not all of it is in the chunk.
  predicate SplitsBlock(cfg: Config, lines: seq<string>, s: Span, f: nat, c: nat)
    requires s.first <= s.end <= |lines|
  {
    && FencedBlock(lines, f, c) && s.first <= c < s.end
    && cfg.overlap > 0 && s.end - s.first > 1
    && LineTokens(lines, c, s.end) <= cfg.overlap
    && (f < s.first || LineTokens(lines, f, s.end) > cfg.overlap)
  }

  ghost predicate SplitsSomeBlock(cfg: Config, lines: seq<string>, s: Span)
    requires s.first <= s.end <= |lines|
  {
    exists f, c: nat :: SplitsBlock(cfg, lines, s, f, c)
  }

  lemma KeptInsideIff(cfg: Config, lines: seq<string>, s: Span, f: nat, c: nat)
    requires s.first <= s.end <= |lines| && FencedBlock(lines, f, c) && c < s.end
    ensures Inside(lines, f, c, Kept(cfg, lines, s)) <==> SplitsBlock(cfg, lines, s, f, c)
  {
    OverlapIsLongestSuffix(cfg, lines, s.first, s.end);
  }

  // What is kept after a chunk that ends outside code blocks begins inside one exactly when the
  // chunk splits a block.
  lemma KeptOddIff(cfg: Config, lines: seq<string>, s: Span)
    requires s.first <= s.end <= |lines| && Fences(lines, s.end) % 2 == 0
    ensures Fences(lines, Kept(cfg, lines, s)) % 2 == 1 <==> SplitsSomeBlock(cfg, lines, s)
  {
    var r := Kept(cfg, lines, s);
    OddMeansInside(lines, r, s.end);
    forall f, c: nat | c < s.end && FencedBlock(lines, f, c)
      ensures Inside(lines, f, c, r) <==> SplitsBlock(cfg, lines, s, f, c)
    {
      KeptInsideIff(cfg, lines, s, f, c);
    }
  }

  lemma {:induction false} BlankLinesNoFences(lines: seq<string>, a: nat, b: nat)
    requires BlankLines(lines, a, b)
    ensures Fences(lines, a) == Fences(lines, b)
  {
    if a < b {
      BlankLinesNoFences(lines, a, b - 1);
      assert AllSpace(lines[b - 1]);
      FenceNotBlank(lines[b - 1]);
    }
  }

  lemma FenceNotBlank(line: string)
    ensures !(IsFence(line) && AllSpace(line))
  {
    if IsFence(line) { assert line[0] == '`'; }
  }

  // Only the last chunk is cut off by the end of the document.
  lemma EndIsLast(cfg: Config, lines: seq<string>, spans: seq<Span>, k: nat)
    requires Chained(cfg, lines, spans) && k + 1 < |spans|
    ensures spans[k].trigger != AtEnd
  {
    assert SpanOk(cfg, lines, spans[k]);
    assert EndsAfter(spans[k], spans[k + 1]);
  }

  // A chunk of a document begins inside a fenced block exactly when the chunk before it splits
  // one: when the closing fence and the lines after it fit in the overlap, and the block does not.
  lemma BeginsInsideIff(cfg: Config, lines: seq<string>, k: nat)
    requires k < |AllSpans(cfg, lines)|
    ensures InRange(lines, AllSpans(cfg, lines))
    ensures var spans := AllSpans(cfg, lines);
            Fences(lines, spans[k].first) % 2 == 1 <==> k > 0 && SplitsSomeBlock(cfg, lines, spans[k - 1])
  {
    hide AllSpans, Chained, SplitsSomeBlock, SpanOk;
    var spans := AllSpans(cfg, lines);
    AllSpansChained(cfg, lines);
    LinkedPart(cfg, lines, spans);
    assert BlankLines(lines, ResumesAt(cfg, lines, spans, k), spans[k].first);
    BlankLinesNoFences(lines, ResumesAt(cfg, lines, spans, k), spans[k].first);
    if k > 0 {
      EndIsLast(cfg, lines, spans, k - 1);
      EndsOutside(cfg, lines, spans, k - 1);
      KeptOddIff(cfg, lines, spans[k - 1]);
    }
  }

  lemma LinkedPart(cfg: Config, lines: seq<string>, spans: seq<Span>)
    requires Chained(cfg, lines, spans)
    ensures Linked(cfg, lines, spans)
  {
  }

  lemma EndsOutside(cfg: Config, lines: seq<string>, spans: seq<Span>, k: nat)
    requires Chained(cfg, lines, spans) && k < |spans| && spans[k].trigger != AtEnd
    ensures spans[k].end <= |lines| && Fences(lines, spans[k].end) % 2 == 0
  {
    assert SpanOk(cfg, lines, spans[k]);
  }

  // So the fence lines of a chunk come in pairs exactly when the one before it splits no block, or -
  // for a last chunk that ends inside a block - exactly when the one before it splits one.
  lemma FencesBalancedIff(cfg: Config, lines: seq<string>, k: nat)
    requires k < |AllSpans(cfg, lines)|
    ensures InRange(lines, AllSpans(cfg, lines))
    ensures var spans := AllSpans(cfg, lines);
            var s := spans[k];
            && (s.trigger != AtEnd ==> Fences(lines, s.end) % 2 == 0)
            && (FencesIn(lines, s.first, s.end) % 2 == 0 <==>
                  (k > 0 && SplitsSomeBlock(cfg, lines, spans[k - 1]) <==> Fences(lines, s.end) % 2 == 1))
  {
    hide AllSpans, Chained, SplitsSomeBlock, SpanOk;
    var spans := AllSpans(cfg, lines);
    BeginsInsideIff(cfg, lines, k);
    AllSpansChained(cfg, lines);
    if spans[k].trigger != AtEnd { EndsOutside(cfg, lines, spans, k); }
    FencesSplit(lines, spans[k].first, spans[k].end);
  }

  // A block too big for the overlap, whose closing fence fits: the second chunk opens with it.
  lemma ChunkCanBeginInside(x: string)
    requires |x| == 200 && forall i :: 0 <= i < |x| ==> x[i] == 'a'
    ensures var cfg, lines := Config(50, 5), ["```", x, "```", "y"];
            && cfg.Valid()
            && AllSpans(cfg, lines) == [Span(0, 3, "General", AtSize), Span(2, 4, "General", AtEnd)]
            && FencedBlock(lines, 0, 2) && Inside(lines, 0, 2, 2)
  {
    var cfg, lines := Config(50, 5), ["```", x, "```", "y"];
    assert !IsFence(x) && !IsHeading(x);
    assert !IsFence("y") && CountHashes("y") == 0 && CountHashes("```") == 0;
    NoSpace(x);
    BlockTokens(x);
    assert lines[0..1] == ["```"] && lines[0..2] == ["```"] + [x] && lines[0..3] == ["```"] + ([x] + ["```"]);
    assert IsFence(lines[0]) && !IsFence(lines[1]) && IsFence(lines[2]) && !IsFence(lines[3]);
    assert Fences(lines, 0) == 0;
    assert Fences(lines, 1) == 1;
    assert Fences(lines, 2) == 1;
    var p := Progress([], [], 0, true);
    assert Process(cfg, lines, 0) == START;
    assert Process(cfg, lines, 1) == p;
    assert Process(cfg, lines, 2) == p;
    assert !AllSpace(lines[1]);
    BlankIffStripEmpty(lines, 0, 3);
    assert LineTokens(lines, 2, 3) == 1 && LineTokens(lines, 1, 3) == 51;
    assert OverlapStart(cfg, lines, 0, 3) == 2;
    var p3 := Progress([Span(0, 3, "General", AtSize)], [], 2, false);
    assert Process(cfg, lines, 3) == p3;
    assert lines[2..4] == ["```"] + ["y"];
    assert Process(cfg, lines, 4) == p3;
    assert !AllSpace(lines[2]);
    BlankIffStripEmpty(lines, 2, 4);
  }

  lemma BlockTokens(x: string)
    requires |x| == 200
    ensures EstimateTokens(JoinLines(["```"])) == 1 && EstimateTokens(JoinLines(["```"] + ["y"])) == 1
    ensures EstimateTokens(JoinLines(["```"] + ([x] + ["```"]))) == 52
  {
    assert (["```"] + ["y"])[1..] == ["y"] && ([x] + ["```"])[1..] == ["```"];
    assert JoinLines(["```"] + ["y"]) == "```" + "\n" + JoinLines(["y"]);
    assert (["```"] + ([x] + ["```"]))[1..] == [x] + ["```"];
    assert JoinLines([x] + ["```"]) == x + "\n" + JoinLines(["```"]);
    assert JoinLines(["```"] + ([x] + ["```"])) == "```" + "\n" + JoinLines([x] + ["```"]);
  }

  // ---- Two chunks with one end ----

  // A size flush, and then either the end of the document or a heading that finds the kept lines
  // to be half a chunk already; and the kept lines are not all blank.
  ghost predicate Repeats(cfg: Config, lines: seq<string>, s: Span)
    requires s.first <= s.end <= |lines|
  {
    && s.trigger == AtSize && !BlankLines(lines, Kept(cfg, lines, s), s.end)
    && (s.end == |lines| || CutsAt(cfg, lines, Kept(cfg, lines, s), s.end))
  }

  // Line i is a heading that cuts off lines [a, i).
  predicate CutsAt(cfg: Config, lines: seq<string>, a: nat, i: nat)
    requires a <= i < |lines|
  {
    HeadingAt(lines, i) && EstimateTokens(JoinLines(lines[a..i])) >= cfg.target / 2
  }

  predicate SameEnd(spans: seq<Span>, k: nat)
    requires k + 1 < |spans|
  {
    spans[k].end == spans[k + 1].end
  }

  // All spans but the last are settled.
  ghost predicate Settled(cfg: Config, lines: seq<string>, spans: seq<Span>)
  {
    && InRange(lines, spans)
    && forall k: nat {:trigger SameEnd(spans, k)} ::
         k + 1 < |spans| ==> (SameEnd(spans, k) <==> Repeats(cfg, lines, spans[k]))
  }

  // After n lines: a chunk that ends where they do has left its overlap; any other has not been
  // repeated and will not be.
  ghost predicate After(cfg: Config, lines: seq<string>, p: Progress, n: nat)
    requires n <= |lines|
  {
    && Settled(cfg, lines, p.spans) && p.start <= n
    && (p.spans != [] ==> var last := p.spans[|p.spans| - 1];
          && last.end <= n
          && (last.end == n ==> last.trigger == AtSize && p.start == Kept(cfg, lines, last))
          && (last.end < n ==> !Repeats(cfg, lines, last)))
  }

  // The same between the heading part of line i and its size part.
  ghost predicate Between(cfg: Config, lines: seq<string>, p: Progress, i: nat)
    requires i < |lines|
  {
    && Settled(cfg, lines, p.spans) && p.start <= i
    && (p.spans != [] ==> var last := p.spans[|p.spans| - 1];
          last.end <= i && !Repeats(cfg, lines, last))
  }

  lemma SettledSnoc(cfg: Config, lines: seq<string>, spans: seq<Span>, s: Span)
    requires Settled(cfg, lines, spans) && s.first <= s.end <= |lines|
    requires spans != [] ==> (spans[|spans| - 1].end == s.end <==> Repeats(cfg, lines, spans[|spans| - 1]))
    ensures Settled(cfg, lines, spans + [s])
  {
    hide Repeats;
    var all := spans + [s];
    assert forall k :: 0 <= k < |spans| ==> all[k] == spans[k];
    forall k: nat | k + 1 < |all| ensures SameEnd(all, k) <==> Repeats(cfg, lines, all[k]) {
      if k + 1 < |spans| { assert SameEnd(spans, k) <==> Repeats(cfg, lines, spans[k]); }
    }
  }

  // The span a flush records.
  function NewSpan(lines: seq<string>, p: Progress, end: nat, trigger: Trigger): Span
    requires OnStack(lines, p.open)
  {
    Span(p.start, end, Breadcrumb(lines, p.open), trigger)
  }

  lemma FlushCases(cfg: Config, lines: seq<string>, p: Progress, end: nat, trigger: Trigger)
    requires p.start <= end <= |lines| && OnStack(lines, p.open)
    ensures var q, s := Flush(cfg, lines, p, end, trigger), NewSpan(lines, p, end, trigger);
            if BlankLines(lines, p.start, end) then q.spans == p.spans && q.start == end
            else q.spans == p.spans + [s] && q.start == Kept(cfg, lines, s)
  {
    BlankIffStripEmpty(lines, p.start, end);
  }

  lemma HeadingPart(cfg: Config, lines: seq<string>, p: Progress, i: nat)
    requires i < |lines| && OnStack(lines, p.open) && HeadingAt(lines, i) && After(cfg, lines, p, i)
    ensures Between(cfg, lines, OnHeading(cfg, lines, p, i), i)
  {
    hide Settled, Flush, PopTo, JoinLines, EstimateTokens, Breadcrumb;
    var pushed := p.(open := PopTo(lines, p.open, Level(lines[i])) + [i]);
    assert OnStack(lines, pushed.open) by { assert HeadingLine(lines, i); }
    if p.start < i && EstimateTokens(JoinLines(lines[p.start..i])) >= cfg.target / 2 {
      assert OnHeading(cfg, lines, p, i) == Flush(cfg, lines, pushed, i, AtHeading);
      FlushCases(cfg, lines, pushed, i, AtHeading);
      if !BlankLines(lines, p.start, i) {
        SettledSnoc(cfg, lines, p.spans, NewSpan(lines, pushed, i, AtHeading));
      }
    } else {
      assert OnHeading(cfg, lines, p, i) == pushed;
      assert BlankLines(lines, i, i);
    }
  }

  lemma SizePart(cfg: Config, lines: seq<string>, p: Progress, i: nat)
    requires i < |lines| && OnStack(lines, p.open) && Between(cfg, lines, p, i)
    ensures After(cfg, lines, p, i + 1) && After(cfg, lines, Flush(cfg, lines, p, i + 1, AtSize), i + 1)
  {
    hide Settled, Flush, Breadcrumb, Repeats;
    FlushCases(cfg, lines, p, i + 1, AtSize);
    if !BlankLines(lines, p.start, i + 1) {
      SettledSnoc(cfg, lines, p.spans, NewSpan(lines, p, i + 1, AtSize));
    }
  }

  lemma LinePart(cfg: Config, lines: seq<string>, p: Progress, i: nat)
    requires i < |lines| && OnStack(lines, p.open) && p.start <= i
    requires p.fenced == FencedAfter(lines, i) && After(cfg, lines, p, i)
    ensures After(cfg, lines, OnLine(cfg, lines, p, i), i + 1)
  {
    hide After, Between, Flush, OnHeading, JoinLines, EstimateTokens, PopTo;
    FencedIsOdd(lines, i);
    HeadingIsNoFence(lines[i]);
    var fenced := if IsFence(lines[i]) then !p.fenced else p.fenced;
    var heading := !fenced && IsHeading(lines[i]);
    var h := if heading then OnHeading(cfg, lines, p, i) else p;
    if heading { HeadingPart(cfg, lines, p, i); } else { NoHeadingPart(cfg, lines, p, i); }
    var q := h.(fenced := fenced);
    BetweenFence(cfg, lines, h, q, i);
    SizePart(cfg, lines, q, i);
    if EstimateTokens(JoinLines(lines[q.start..i + 1])) >= cfg.target && !fenced {
      assert OnLine(cfg, lines, p, i) == Flush(cfg, lines, q, i + 1, AtSize);
    } else {
      assert OnLine(cfg, lines, p, i) == q;
    }
  }

  lemma NoHeadingPart(cfg: Config, lines: seq<string>, p: Progress, i: nat)
    requires i < |lines| && !HeadingAt(lines, i) && After(cfg, lines, p, i)
    ensures Between(cfg, lines, p, i)
  {
    hide Settled, BlankLines;
  }

  lemma BetweenFence(cfg: Config, lines: seq<string>, p: Progress, q: Progress, i: nat)
    requires i < |lines| && Between(cfg, lines, p, i) && q.spans == p.spans && q.start == p.start
    ensures Between(cfg, lines, q, i) && q.start <= i
  {
    hide Settled, Repeats;
  }

  lemma {:induction false} ProcessPart(cfg: Config, lines: seq<string>, n: nat)
    requires n <= |lines|
    ensures After(cfg, lines, Process(cfg, lines, n), n)
  {
    hide After, OnLine, FencedAfter;
    if n == 0 {
      PartAtStart(cfg, lines);
    } else {
      ProcessLine(cfg, lines, n);
      ProcessTracks(cfg, lines, n - 1);
      ProcessPart(cfg, lines, n - 1);
      LinePart(cfg, lines, Process(cfg, lines, n - 1), n - 1);
    }
  }

  lemma PartAtStart(cfg: Config, lines: seq<string>)
    ensures After(cfg, lines, START, 0)
  {
  }

  // For every document and every chunk of it: another chunk with the same end follows exactly
  // when the chunk was cut by size, what it leaves for overlap is not all blank, and either the
  // document ends there or the next line is a heading that finds it to be half a chunk already.
  lemma EndRepeatsIff(cfg: Config, lines: seq<string>, k: nat)
    requires k < |AllSpans(cfg, lines)|
    ensures InRange(lines, AllSpans(cfg, lines))
    ensures var spans := AllSpans(cfg, lines);
            k + 1 < |spans| && spans[k].end == spans[k + 1].end <==> Repeats(cfg, lines, spans[k])
  {
    hide Process, Settled, Flush, Breadcrumb;
    var n, spans := |lines|, AllSpans(cfg, lines);
    var p := Process(cfg, lines, n);
    ProcessPart(cfg, lines, n);
    assert BlankLines(lines, n, n);
    if p.start < n {
      FlushCases(cfg, lines, p, n, AtEnd);
      if !BlankLines(lines, p.start, n) {
        SettledSnoc(cfg, lines, p.spans, NewSpan(lines, p, n, AtEnd));
      }
    }
    SettledAt(cfg, lines, spans, k);
  }

  lemma SettledAt(cfg: Config, lines: seq<string>, spans: seq<Span>, k: nat)
    requires Settled(cfg, lines, spans) && k < |spans|
    ensures InRange(lines, spans)
    ensures k + 1 < |spans| ==> (spans[k].end == spans[k + 1].end <==> Repeats(cfg, lines, spans[k]))
  {
    hide Repeats;
    if k + 1 < |spans| { assert SameEnd(spans, k) <==> Repeats(cfg, lines, spans[k]); }
  }

  // A size flush that keeps half a chunk's worth of overlap, followed by a heading: the kept line
  // becomes a second chunk with the same end, and it is labelled with the heading after it.
  lemma EndsCanRepeat(x: string)
    requires |x| == 103 && forall i :: 0 <= i < |x| ==> x[i] == 'a'
    ensures var cfg, lines := Config(50, 25), [x, x, "# h"];
            && cfg.Valid()
            && Process(cfg, lines, 3).spans ==
                 [Span(0, 2, "General", AtSize), Span(1, 2, "h", AtHeading)]
            && Breadcrumb(lines, OpenAfter(lines, 2)) == "General"
  {
    var cfg, lines := Config(50, 25), [x, x, "# h"];
    assert !IsFence(x) && !IsHeading(x);
    NoSpace(x);
    assert lines[0..1] == [x];
    assert Process(cfg, lines, 1) == START;
    assert lines[0..2] == [x] + [x];
    TwoLines(x);
    BlankIffStripEmpty(lines, 0, 2);
    assert !AllSpace(lines[0]);
    assert LineTokens(lines, 1, 2) == 25 && LineTokens(lines, 0, 2) == 50;
    assert OverlapStart(cfg, lines, 0, 2) == 1;
    var first := Progress([Span(0, 2, "General", AtSize)], [], 1, false);
    assert Process(cfg, lines, 2) == first;
    assert lines[1] == x && OpenAfter(lines, 1) == [];
    assert OpenAfter(lines, 2) == OpenAfter(lines, 1);
    AfterTwo(cfg, lines, first, x);
  }

  lemma NoSpace(x: string)
    requires x != "" && x[0] == 'a'
    ensures !AllSpace(x)
  {
  }

  lemma TwoLines(x: string)
    requires |x| == 103
    ensures EstimateTokens(JoinLines([x] + [x])) == 51 && EstimateTokens(JoinLines([x])) == 25
  {
    assert ([x] + [x])[1..] == [x];
    assert JoinLines([x] + [x]) == x + "\n" + JoinLines([x]);
  }

  lemma AfterTwo(cfg: Config, lines: seq<string>, p: Progress, x: string)
    requires cfg == Config(50, 25) && |x| == 103 && x[0] == 'a' && lines == [x, x, "# h"]
    requires p == Progress([Span(0, 2, "General", AtSize)], [], 1, false)
    ensures OnLine(cfg, lines, p, 2).spans == [Span(0, 2, "General", AtSize), Span(1, 2, "h", AtHeading)]
  {
    var h := "# h";
    assert h[1..][0..] == h[1..];
    assert CountHashes(h[1..]) == 0;
    assert CountHashes(h) == 1;
    assert IsHeading(h) && !IsFence(h);
    assert h[1..] == [' ', 'h'];
    TitleOfH();
    assert lines[1..2] == [x];
    TwoLines(x);
    NoSpace(x);
    BlankIffStripEmpty(lines, 1, 2);
    assert !AllSpace(lines[1]);
    var pushed := p.(open := PopTo(lines, p.open, Level(lines[2])) + [2]);
    assert pushed.open == [2];
    assert StackOf(lines, [2]) == [Heading(1, "h")];
    var q := OnHeading(cfg, lines, p, 2);
    assert q.spans == [Span(0, 2, "General", AtSize)] + [Span(1, 2, "h", AtHeading)];
    assert OverlapStart(cfg, lines, 1, 2) == 2;
    assert lines[2..3] == [h];
    assert EstimateTokens(JoinLines([h])) == 1;
  }

  lemma TitleOfH()
    ensures Strip([' ', 'h']) == "h"
  {
    var s: string := [' ', 'h'];
    assert s[1..] == ['h'];
    assert StripLeft(['h']) == ['h'];
    assert StripLeft(s) == ['h'];
    assert StripRight(['h']) == ['h'];
  }

  // The same at the end of the document: the second chunk is the kept line alone.
  lemma EndsCanRepeatAtEnd(x: string)
    requires |x| == 103 && forall i :: 0 <= i < |x| ==> x[i] == 'a'
    ensures var cfg, lines := Config(50, 25), [x, x];
            AllSpans(cfg, lines) == [Span(0, 2, "General", AtSize), Span(1, 2, "General", AtEnd)]
  {
    var cfg, lines := Config(50, 25), [x, x];
    assert !IsFence(x) && !IsHeading(x);
    NoSpace(x);
    assert lines[0..1] == [x] && lines[0..2] == [x] + [x] && lines[1..2] == [x];
    TwoLines(x);
    assert Process(cfg, lines, 1) == START;
    BlankIffStripEmpty(lines, 0, 2);
    BlankIffStripEmpty(lines, 1, 2);
    assert !AllSpace(lines[0]) && !AllSpace(lines[1]);
    assert LineTokens(lines, 1, 2) == 25 && LineTokens(lines, 0, 2) == 50;
    assert OverlapStart(cfg, lines, 0, 2) == 1;
    assert Process(cfg, lines, 2) == Progress([Span(0, 2, "General", AtSize)], [], 1, false);
  }
}
