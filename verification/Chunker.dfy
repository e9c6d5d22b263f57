// MarkdownChunker.chunk_document of src/kachedb/semantic/chunker.py.
//
// The lines collected for the next chunk are always a range of the document's lines, so the
// model keeps the index of the first of them; a chunk is recorded as the range it was cut from.
module Chunker {
  import opened Markdown
  import Decimal

  datatype Config = Config(target: nat, overlap: int)
  {
    predicate Valid() { target >= 50 && overlap <= target / 2 }
  }

  // What made a chunk end: a heading after it, its size, or the end of the document.
  datatype Trigger = AtHeading | AtSize | AtEnd

  datatype Span = Span(first: nat, end: nat, title: string, trigger: Trigger)

  // open: the lines of the headings on the stack; start: the first line collected; fenced:
  // inside a code block.
  datatype Progress = Progress(spans: seq<Span>, open: seq<nat>, start: nat, fenced: bool)

  const START := Progress([], [], 0, false)

  datatype Heading = Heading(level: nat, title: string)

  // The breadcrumb of a heading stack.
  function Crumb(stack: seq<Heading>): string
  {
    if stack == [] then "General"
    else if |stack| == 1 then stack[0].title
    else Crumb(stack[..|stack| - 1]) + " > " + stack[|stack| - 1].title
  }

  // The titles stand in the order of the stack, the outermost first.
  lemma {:induction false} CrumbOutermost(h: Heading, stack: seq<Heading>)
    ensures Crumb([h] + stack) == if stack == [] then h.title else h.title + " > " + Crumb(stack)
  {
    if stack == [] {
      assert [h] + stack == [h];
    } else {
      var n := |stack| - 1;
      var all := [h] + stack;
      assert all[..|all| - 1] == [h] + stack[..n];
      CrumbOutermost(h, stack[..n]);
      assert stack[..n] == [] ==> Crumb(stack) == stack[0].title;
      assert Crumb(all) == Crumb([h] + stack[..n]) + " > " + stack[n].title;
      if stack[..n] != [] {
        assert Crumb(stack) == Crumb(stack[..n]) + " > " + stack[n].title;
        assert h.title + " > " + Crumb(stack[..n]) + " > " + stack[n].title == h.title + " > " + Crumb(stack);
      }
    }
  }

  predicate HeadingLine(lines: seq<string>, j: nat) { j < |lines| && IsHeading(lines[j]) }

  function HeadingOf(lines: seq<string>, j: nat): Heading
    requires HeadingLine(lines, j)
  {
    Heading(Level(lines[j]), Title(lines[j]))
  }

  function LevelAt(lines: seq<string>, j: nat): nat
    requires HeadingLine(lines, j)
  {
    Level(lines[j])
  }

  function StackOf(lines: seq<string>, open: seq<nat>): (r: seq<Heading>)
    requires OnStack(lines, open)
    ensures |r| == |open|
  {
    seq(|open|, k requires 0 <= k < |open| => HeadingOf(lines, open[k]))
  }

  function Breadcrumb(lines: seq<string>, open: seq<nat>): string
    requires OnStack(lines, open)
  {
    Crumb(StackOf(lines, open))
  }

  // Every line on the stack is a heading of the document.
  predicate OnStack(lines: seq<string>, open: seq<nat>)
  {
    forall k {:trigger HeadingLine(lines, open[k])} :: 0 <= k < |open| ==> HeadingLine(lines, open[k])
  }

  function PopTo(lines: seq<string>, open: seq<nat>, level: nat): (r: seq<nat>)
    requires OnStack(lines, open)
    ensures OnStack(lines, r)
  {
    if open != [] && LevelAt(lines, open[|open| - 1]) >= level then PopTo(lines, open[..|open| - 1], level)
    else open
  }

  // The estimates of a range of lines, one by one.
  function LineTokens(lines: seq<string>, first: nat, end: nat): nat
    requires first <= end <= |lines|
    decreases end - first
  {
    if first == end then 0 else EstimateTokens(lines[first]) + LineTokens(lines, first + 1, end)
  }

  // The first line kept for overlap when lines [first, end) have just been cut off: going back
  // from the last one while the estimates fit.
  function KeepFrom(cfg: Config, lines: seq<string>, first: nat, end: nat, s: nat): (r: nat)
    requires first <= s <= end <= |lines|
    ensures first <= r <= s
    decreases s
  {
    if s == first || LineTokens(lines, s - 1, end) > cfg.overlap then s else KeepFrom(cfg, lines, first, end, s - 1)
  }

  function OverlapStart(cfg: Config, lines: seq<string>, first: nat, end: nat): (r: nat)
    requires first <= end <= |lines|
    ensures first <= r <= end
  {
    if cfg.overlap > 0 && end - first > 1 then KeepFrom(cfg, lines, first, end, end) else end
  }

  // flush_current_chunk on lines [p.start, end)
  function Flush(cfg: Config, lines: seq<string>, p: Progress, end: nat, trigger: Trigger): (q: Progress)
    requires p.start <= end <= |lines| && OnStack(lines, p.open)
    ensures q.open == p.open && q.fenced == p.fenced && p.start <= q.start <= end
  {
    if Strip(JoinLines(lines[p.start..end])) == "" then p.(start := end)
    else p.(spans := p.spans + [Span(p.start, end, Breadcrumb(lines, p.open), trigger)],
            start := OverlapStart(cfg, lines, p.start, end))
  }

  // The heading part of one turn of the loop.
  function OnHeading(cfg: Config, lines: seq<string>, p: Progress, i: nat): (q: Progress)
    requires p.start <= i < |lines| && OnStack(lines, p.open) && IsHeading(lines[i])
    ensures q.start <= i && OnStack(lines, q.open) && q.fenced == p.fenced
  {
    assert HeadingLine(lines, i);
    var pushed := p.(open := PopTo(lines, p.open, Level(lines[i])) + [i]);
    if p.start < i && EstimateTokens(JoinLines(lines[p.start..i])) >= cfg.target / 2
    then Flush(cfg, lines, pushed, i, AtHeading) else pushed
  }

  // One turn of the loop over the lines.
  function OnLine(cfg: Config, lines: seq<string>, p: Progress, i: nat): (q: Progress)
    requires p.start <= i < |lines| && OnStack(lines, p.open)
    ensures q.start <= i + 1 && OnStack(lines, q.open)
  {
    var fenced := if IsFence(lines[i]) then !p.fenced else p.fenced;
    var h := if !fenced && IsHeading(lines[i]) then OnHeading(cfg, lines, p, i) else p;
    var q := h.(fenced := fenced);
    if EstimateTokens(JoinLines(lines[q.start..i + 1])) >= cfg.target && !fenced
    then Flush(cfg, lines, q, i + 1, AtSize) else q
  }

  // After the first n lines.
  function Process(cfg: Config, lines: seq<string>, n: nat): (p: Progress)
    requires n <= |lines|
    ensures p.start <= n && OnStack(lines, p.open)
  {
    if n == 0 then START else OnLine(cfg, lines, Process(cfg, lines, n - 1), n - 1)
  }

  // The ranges of all chunks of a document that is not small.
  function AllSpans(cfg: Config, lines: seq<string>): seq<Span>
  {
    var p := Process(cfg, lines, |lines|);
    if p.start < |lines| then Flush(cfg, lines, p, |lines|, AtEnd).spans else p.spans
  }

  // ---- Heading stack ----

  // Fence lines among the first n.
  function Fences(lines: seq<string>, n: nat): nat
    requires n <= |lines|
  {
    if n == 0 then 0 else Fences(lines, n - 1) + (if IsFence(lines[n - 1]) then 1 else 0)
  }

  // Line j is a heading outside code blocks.
  predicate HeadingAt(lines: seq<string>, j: nat)
    requires j < |lines|
  {
    IsHeading(lines[j]) && Fences(lines, j) % 2 == 0
  }

  // Among the first n lines, line j is a heading no later one of equal or lower level has closed.
  ghost predicate StillOpen(lines: seq<string>, n: nat, j: nat)
    requires n <= |lines|
  {
    j < n && HeadingAt(lines, j) &&
    forall k :: j < k < n && HeadingAt(lines, k) ==> Level(lines[j]) < Level(lines[k])
  }

  ghost predicate Nested(lines: seq<string>, open: seq<nat>)
    requires OnStack(lines, open)
  {
    forall a, b {:trigger LevelAt(lines, open[a]), LevelAt(lines, open[b])} ::
      0 <= a < b < |open| ==> open[a] < open[b] && LevelAt(lines, open[a]) < LevelAt(lines, open[b])
  }

  lemma NestedPrefix(lines: seq<string>, open: seq<nat>, n: nat)
    requires OnStack(lines, open) && Nested(lines, open) && n <= |open|
    ensures OnStack(lines, open[..n]) && Nested(lines, open[..n])
  {
    forall k | 0 <= k < n ensures HeadingLine(lines, open[..n][k]) {
      assert HeadingLine(lines, open[k]);
    }
    forall a, b | 0 <= a < b < n
      ensures open[..n][a] < open[..n][b] && LevelAt(lines, open[..n][a]) < LevelAt(lines, open[..n][b])
    {
      assert LevelAt(lines, open[a]) < LevelAt(lines, open[b]);
    }
  }

  lemma {:induction false} PopToKeepsLower(lines: seq<string>, open: seq<nat>, level: nat)
    requires OnStack(lines, open) && Nested(lines, open)
    ensures Nested(lines, PopTo(lines, open, level))
    ensures forall j {:trigger j in PopTo(lines, open, level)} {:trigger j in open} ::
              j in PopTo(lines, open, level) <==> j in open && HeadingLine(lines, j) && LevelAt(lines, j) < level
  {
    if open != [] {
      var n := |open| - 1;
      if LevelAt(lines, open[n]) >= level {
        assert PopTo(lines, open, level) == PopTo(lines, open[..n], level);
        NestedPrefix(lines, open, n);
        PopToKeepsLower(lines, open[..n], level);
        forall j ensures j in open <==> j in open[..n] || j == open[n] {
          assert open == open[..n] + [open[n]];
        }
      } else {
        forall j | j in open ensures HeadingLine(lines, j) && LevelAt(lines, j) < level {
          var k :| 0 <= k < |open| && open[k] == j;
        }
      }
    }
  }

  // The fence flag and the heading stack depend on the lines alone.
  function FencedAfter(lines: seq<string>, n: nat): bool
    requires n <= |lines|
  {
    if n == 0 then false
    else if IsFence(lines[n - 1]) then !FencedAfter(lines, n - 1) else FencedAfter(lines, n - 1)
  }

  function OpenAfter(lines: seq<string>, n: nat): (r: seq<nat>)
    requires n <= |lines|
    ensures OnStack(lines, r)
  {
    if n == 0 then []
    else
      var open := OpenAfter(lines, n - 1);
      if !FencedAfter(lines, n) && IsHeading(lines[n - 1]) then PopTo(lines, open, Level(lines[n - 1])) + [n - 1]
      else open
  }

  lemma LineTracks(cfg: Config, lines: seq<string>, p: Progress, i: nat)
    requires p.start <= i < |lines| && OnStack(lines, p.open)
    ensures var q := OnLine(cfg, lines, p, i);
            && q.fenced == (if IsFence(lines[i]) then !p.fenced else p.fenced)
            && q.open == if !q.fenced && IsHeading(lines[i]) then PopTo(lines, p.open, Level(lines[i])) + [i]
                         else p.open
  {
  }

  lemma {:induction false} ProcessTracks(cfg: Config, lines: seq<string>, n: nat)
    requires n <= |lines|
    ensures Process(cfg, lines, n).fenced == FencedAfter(lines, n)
    ensures Process(cfg, lines, n).open == OpenAfter(lines, n)
  {
    if n > 0 {
      ProcessTracks(cfg, lines, n - 1);
      LineTracks(cfg, lines, Process(cfg, lines, n - 1), n - 1);
    }
  }

  lemma {:induction false} FencedIsOdd(lines: seq<string>, n: nat)
    requires n <= |lines|
    ensures FencedAfter(lines, n) <==> Fences(lines, n) % 2 == 1
  {
    if n > 0 { FencedIsOdd(lines, n - 1); }
  }

  lemma OpenAfterLine(lines: seq<string>, n: nat)
    requires 0 < n <= |lines|
    ensures OpenAfter(lines, n) ==
            if HeadingAt(lines, n - 1) then PopTo(lines, OpenAfter(lines, n - 1), Level(lines[n - 1])) + [n - 1]
            else OpenAfter(lines, n - 1)
  {
    FencedIsOdd(lines, n - 1);
    HeadingIsNoFence(lines[n - 1]);
  }

  // After every line the stack is exactly the headings outside code blocks that no later such
  // heading of equal or lower level has closed, in document order, with levels increasing.
  lemma {:induction false} StackIsOpenHeadings(lines: seq<string>, n: nat)
    requires n <= |lines|
    ensures Nested(lines, OpenAfter(lines, n))
    ensures forall j {:trigger j in OpenAfter(lines, n)} {:trigger StillOpen(lines, n, j)} ::
              j in OpenAfter(lines, n) <==> StillOpen(lines, n, j)
  {
    if n > 0 {
      var i := n - 1;
      StackIsOpenHeadings(lines, i);
      OpenAfterLine(lines, n);
      var before, after := OpenAfter(lines, i), OpenAfter(lines, n);
      forall j ensures j in after <==> StillOpen(lines, n, j) {
        StillOpenStep(lines, i, j);
        PopToKeepsLower(lines, before, Level(lines[i]));
      }
      if HeadingAt(lines, i) {
        PushNests(lines, before, i);
      }
    }
  }

  lemma PushNests(lines: seq<string>, open: seq<nat>, i: nat)
    requires i < |lines| && HeadingAt(lines, i) && OnStack(lines, open) && Nested(lines, open)
    requires forall j :: j in open ==> j < i
    ensures Nested(lines, PopTo(lines, open, Level(lines[i])) + [i])
  {
    var popped := PopTo(lines, open, Level(lines[i]));
    PopToKeepsLower(lines, open, Level(lines[i]));
    forall a | 0 <= a < |popped| ensures popped[a] < i && LevelAt(lines, popped[a]) < LevelAt(lines, i) {
      assert popped[a] in popped;
    }
  }

  lemma StillOpenStep(lines: seq<string>, i: nat, j: nat)
    requires i < |lines|
    ensures StillOpen(lines, i + 1, j) <==>
              if HeadingAt(lines, i) then j == i || (StillOpen(lines, i, j) && Level(lines[j]) < Level(lines[i]))
              else StillOpen(lines, i, j)
  {
  }

  // ---- Spans ----

  ghost predicate BlankLines(lines: seq<string>, a: nat, b: nat)
  {
    a <= b <= |lines| && forall j :: a <= j < b ==> AllSpace(lines[j])
  }

  // What a recorded span says: its lines are not all blank, it is big enough for its trigger, it
  // ends outside code blocks unless the document ends, and its title is the breadcrumb of the
  // headings open at its end - or, when a heading cut it off, of those open after that heading.
  ghost predicate SpanOk(cfg: Config, lines: seq<string>, s: Span)
  {
    && s.first < s.end <= |lines|
    && !BlankLines(lines, s.first, s.end)
    && (s.trigger != AtEnd ==> Fences(lines, s.end) % 2 == 0)
    && (s.trigger == AtEnd ==> s.end == |lines|)
    && (s.trigger == AtSize ==> EstimateTokens(JoinLines(lines[s.first..s.end])) >= cfg.target)
    && (s.trigger == AtHeading ==>
          && s.end < |lines| && HeadingAt(lines, s.end)
          && EstimateTokens(JoinLines(lines[s.first..s.end])) >= cfg.target / 2
          && s.title == Breadcrumb(lines, OpenAfter(lines, s.end + 1)))
    && (s.trigger != AtHeading ==> s.title == Breadcrumb(lines, OpenAfter(lines, s.end)))
  }

  predicate InRange(lines: seq<string>, spans: seq<Span>)
  {
    forall k :: 0 <= k < |spans| ==> spans[k].first <= spans[k].end <= |lines|
  }

  // Where the lines collected after the first k spans begin, before blank ones are dropped.
  ghost function ResumesAt(cfg: Config, lines: seq<string>, spans: seq<Span>, k: nat): nat
    requires k <= |spans| && InRange(lines, spans)
  {
    if k == 0 then 0 else OverlapStart(cfg, lines, spans[k - 1].first, spans[k - 1].end)
  }

  // A span ends after the one before it, unless that one was cut by size and this one was not.
  ghost predicate EndsAfter(a: Span, b: Span)
  {
    a.end < b.end || (a.end == b.end && a.trigger == AtSize && b.trigger != AtSize)
  }

  // Each span begins where the one before it resumes, but for blank lines, and ends after it.
  ghost predicate Linked(cfg: Config, lines: seq<string>, spans: seq<Span>)
  {
    && InRange(lines, spans)
    && (forall k {:trigger ResumesAt(cfg, lines, spans, k)} ::
          0 <= k < |spans| ==> BlankLines(lines, ResumesAt(cfg, lines, spans, k), spans[k].first))
    && (forall j, k {:trigger EndsAfter(spans[j], spans[k])} ::
          0 <= j < k < |spans| && k == j + 1 ==> EndsAfter(spans[j], spans[k]))
  }

  ghost predicate Chained(cfg: Config, lines: seq<string>, spans: seq<Span>)
  {
    && Linked(cfg, lines, spans)
    && (forall k {:trigger SpanOk(cfg, lines, spans[k])} :: 0 <= k < |spans| ==> SpanOk(cfg, lines, spans[k]))
  }

  ghost predicate Inv(cfg: Config, lines: seq<string>, spans: seq<Span>, start: nat, n: nat)
    requires n <= |lines|
  {
    && Chained(cfg, lines, spans)
    && BlankLines(lines, ResumesAt(cfg, lines, spans, |spans|), start)
    && start <= n
    && (spans != [] ==> var last := spans[|spans| - 1];
          last.end <= n && (last.end == n ==> last.trigger == AtSize))
  }

  lemma BlankIffStripEmpty(lines: seq<string>, a: nat, b: nat)
    requires a <= b <= |lines|
    ensures Strip(JoinLines(lines[a..b])) == "" <==> BlankLines(lines, a, b)
  {
    StripEmptyIff(JoinLines(lines[a..b]));
    JoinAllSpaceIff(lines[a..b]);
    assert forall i :: 0 <= i < b - a ==> lines[a..b][i] == lines[a + i];
    if forall i :: 0 <= i < b - a ==> AllSpace(lines[a..b][i]) {
      forall j | a <= j < b ensures AllSpace(lines[j]) { assert lines[j] == lines[a..b][j - a]; }
    }
  }

  lemma LinkedSnoc(cfg: Config, lines: seq<string>, spans: seq<Span>, s: Span)
    requires Linked(cfg, lines, spans) && s.first <= s.end <= |lines|
    requires BlankLines(lines, ResumesAt(cfg, lines, spans, |spans|), s.first)
    requires spans != [] ==> EndsAfter(spans[|spans| - 1], s)
    ensures Linked(cfg, lines, spans + [s])
    ensures ResumesAt(cfg, lines, spans + [s], |spans| + 1) == OverlapStart(cfg, lines, s.first, s.end)
  {
    var all := spans + [s];
    assert forall k :: 0 <= k < |spans| ==> all[k] == spans[k];
    forall k | 0 <= k < |all| ensures BlankLines(lines, ResumesAt(cfg, lines, all, k), all[k].first) {
      assert ResumesAt(cfg, lines, all, k) == ResumesAt(cfg, lines, spans, k);
    }
  }

  lemma ChainedSnoc(cfg: Config, lines: seq<string>, spans: seq<Span>, s: Span)
    requires Chained(cfg, lines, spans) && SpanOk(cfg, lines, s)
    requires BlankLines(lines, ResumesAt(cfg, lines, spans, |spans|), s.first)
    requires spans != [] ==> EndsAfter(spans[|spans| - 1], s)
    ensures Chained(cfg, lines, spans + [s])
    ensures ResumesAt(cfg, lines, spans + [s], |spans| + 1) == OverlapStart(cfg, lines, s.first, s.end)
  {
    LinkedSnoc(cfg, lines, spans, s);
    forall k | 0 <= k < |spans + [s]| ensures SpanOk(cfg, lines, (spans + [s])[k]) {
      if k < |spans| { assert SpanOk(cfg, lines, spans[k]); }
    }
  }

  // A flush keeps the chain, whatever triggered it.
  lemma FlushKeepsChain(cfg: Config, lines: seq<string>, p: Progress, end: nat, trigger: Trigger)
    requires p.start <= end <= |lines| && OnStack(lines, p.open)
    requires Chained(cfg, lines, p.spans)
    requires BlankLines(lines, ResumesAt(cfg, lines, p.spans, |p.spans|), p.start)
    requires var s := Span(p.start, end, Breadcrumb(lines, p.open), trigger);
             && (!BlankLines(lines, p.start, end) ==> SpanOk(cfg, lines, s))
             && (p.spans != [] ==> EndsAfter(p.spans[|p.spans| - 1], s))
    ensures var q := Flush(cfg, lines, p, end, trigger);
            && Chained(cfg, lines, q.spans)
            && BlankLines(lines, ResumesAt(cfg, lines, q.spans, |q.spans|), q.start)
            && (q.spans == p.spans || q.spans == p.spans + [Span(p.start, end, Breadcrumb(lines, p.open), trigger)])
  {
    BlankIffStripEmpty(lines, p.start, end);
    if !BlankLines(lines, p.start, end) {
      ChainedSnoc(cfg, lines, p.spans, Span(p.start, end, Breadcrumb(lines, p.open), trigger));
    }
  }

  lemma HeadingFlushKeepsInv(cfg: Config, lines: seq<string>, p: Progress, i: nat)
    requires i < |lines| && HeadingAt(lines, i) && p.open == OpenAfter(lines, i + 1)
    requires Inv(cfg, lines, p.spans, p.start, i) && EstimateTokens(JoinLines(lines[p.start..i])) >= cfg.target / 2
    ensures var q := Flush(cfg, lines, p, i, AtHeading);
            Inv(cfg, lines, q.spans, q.start, i + 1) && (q.spans != [] ==> q.spans[|q.spans| - 1].end <= i)
  {
    hide Flush, JoinLines, EstimateTokens, OpenAfter, Crumb;
    FlushKeepsChain(cfg, lines, p, i, AtHeading);
  }

  lemma HeadingKeepsInv(cfg: Config, lines: seq<string>, p: Progress, i: nat)
    requires i < |lines| && HeadingAt(lines, i) && p.open == OpenAfter(lines, i)
    requires Inv(cfg, lines, p.spans, p.start, i)
    ensures var q := OnHeading(cfg, lines, p, i);
            Inv(cfg, lines, q.spans, q.start, i + 1) && (q.spans != [] ==> q.spans[|q.spans| - 1].end <= i)
  {
    hide Inv, Flush, JoinLines, EstimateTokens, PopTo, OpenAfter;
    OpenAfterLine(lines, i + 1);
    InvLater(cfg, lines, p.spans, p.start, i);
    var pushed := p.(open := PopTo(lines, p.open, Level(lines[i])) + [i]);
    assert pushed.open == OpenAfter(lines, i + 1);
    if p.start < i && EstimateTokens(JoinLines(lines[p.start..i])) >= cfg.target / 2 {
      assert OnHeading(cfg, lines, p, i) == Flush(cfg, lines, pushed, i, AtHeading);
      HeadingFlushKeepsInv(cfg, lines, pushed, i);
    } else {
      assert OnHeading(cfg, lines, p, i) == pushed;
    }
  }

  lemma InvLater(cfg: Config, lines: seq<string>, spans: seq<Span>, start: nat, i: nat)
    requires i < |lines| && Inv(cfg, lines, spans, start, i)
    ensures Inv(cfg, lines, spans, start, i + 1) && start <= i
    ensures spans != [] ==> spans[|spans| - 1].end <= i
  {
  }

  lemma InvAtStart(cfg: Config, lines: seq<string>)
    ensures Inv(cfg, lines, [], 0, 0)
  {
  }

  lemma SizeKeepsInv(cfg: Config, lines: seq<string>, p: Progress, i: nat)
    requires i < |lines| && Inv(cfg, lines, p.spans, p.start, i + 1) && p.start <= i
    requires p.spans != [] ==> p.spans[|p.spans| - 1].end <= i
    requires p.open == OpenAfter(lines, i + 1) && Fences(lines, i + 1) % 2 == 0
    requires EstimateTokens(JoinLines(lines[p.start..i + 1])) >= cfg.target
    ensures var q := Flush(cfg, lines, p, i + 1, AtSize); Inv(cfg, lines, q.spans, q.start, i + 1)
  {
    hide Flush, JoinLines, EstimateTokens, OpenAfter, Crumb;
    FlushKeepsChain(cfg, lines, p, i + 1, AtSize);
  }

  lemma LineKeepsInv(cfg: Config, lines: seq<string>, p: Progress, i: nat, r: Progress)
    requires i < |lines| && Inv(cfg, lines, p.spans, p.start, i)
    requires p.open == OpenAfter(lines, i) && p.fenced == FencedAfter(lines, i)
    requires r == OnLine(cfg, lines, p, i)
    ensures Inv(cfg, lines, r.spans, r.start, i + 1)
  {
    hide Inv, Flush, JoinLines, EstimateTokens, PopTo;
    FencedIsOdd(lines, i);
    FencedIsOdd(lines, i + 1);
    HeadingIsNoFence(lines[i]);
    InvLater(cfg, lines, p.spans, p.start, i);
    var fenced := if IsFence(lines[i]) then !p.fenced else p.fenced;
    var h := if !fenced && IsHeading(lines[i]) then OnHeading(cfg, lines, p, i) else p;
    if !fenced && IsHeading(lines[i]) {
      HeadingKeepsInv(cfg, lines, p, i);
    }
    var q := h.(fenced := fenced);
    assert Inv(cfg, lines, q.spans, q.start, i + 1);
    assert q.open == OpenAfter(lines, i + 1);
    if EstimateTokens(JoinLines(lines[q.start..i + 1])) >= cfg.target && !fenced {
      assert r == Flush(cfg, lines, q, i + 1, AtSize);
      SizeKeepsInv(cfg, lines, q, i);
    } else {
      assert r == q;
    }
  }

  lemma ProcessLine(cfg: Config, lines: seq<string>, n: nat)
    requires 0 < n <= |lines|
    ensures Process(cfg, lines, n) == OnLine(cfg, lines, Process(cfg, lines, n - 1), n - 1)
  {
  }

  lemma {:induction false} ProcessKeepsInv(cfg: Config, lines: seq<string>, n: nat)
    requires n <= |lines|
    ensures Inv(cfg, lines, Process(cfg, lines, n).spans, Process(cfg, lines, n).start, n)
  {
    hide Inv, OnLine, OpenAfter, FencedAfter;
    if n == 0 {
      InvAtStart(cfg, lines);
    } else {
      ProcessLine(cfg, lines, n);
      ProcessTracks(cfg, lines, n - 1);
      ProcessKeepsInv(cfg, lines, n - 1);
      LineKeepsInv(cfg, lines, Process(cfg, lines, n - 1), n - 1, Process(cfg, lines, n));
    }
  }

  lemma LastFlushKeepsChain(cfg: Config, lines: seq<string>, p: Progress)
    requires Inv(cfg, lines, p.spans, p.start, |lines|) && p.start < |lines| && p.open == OpenAfter(lines, |lines|)
    ensures var spans := Flush(cfg, lines, p, |lines|, AtEnd).spans;
            Chained(cfg, lines, spans) && RestBlank(lines, spans)
  {
    FlushKeepsChain(cfg, lines, p, |lines|, AtEnd);
    BlankIffStripEmpty(lines, p.start, |lines|);
  }

  // Nothing but blank lines comes after the last span.
  ghost predicate RestBlank(lines: seq<string>, spans: seq<Span>)
  {
    BlankLines(lines, if spans == [] then 0 else spans[|spans| - 1].end, |lines|)
  }

  // The spans of a whole document are chained, and leave only blank lines at its end.
  lemma AllSpansChained(cfg: Config, lines: seq<string>)
    ensures Chained(cfg, lines, AllSpans(cfg, lines)) && RestBlank(lines, AllSpans(cfg, lines))
  {
    var n := |lines|;
    var p := Process(cfg, lines, n);
    ProcessKeepsInv(cfg, lines, n);
    ProcessTracks(cfg, lines, n);
    if p.start < n {
      LastFlushKeepsChain(cfg, lines, p);
    }
  }

  // ---- Coverage ----

  ghost predicate InSpan(s: Span, j: nat) { s.first <= j < s.end }

  // Every line that is not blank lies in some chunk.
  lemma EveryLineCovered(cfg: Config, lines: seq<string>, spans: seq<Span>, j: nat)
    requires Linked(cfg, lines, spans) && RestBlank(lines, spans)
    requires j < |lines| && !AllSpace(lines[j])
    ensures exists k :: 0 <= k < |spans| && InSpan(spans[k], j)
  {
    CoveredBefore(cfg, lines, spans, |spans|, j);
  }

  lemma {:induction false} CoveredBefore(cfg: Config, lines: seq<string>, spans: seq<Span>, k: nat, j: nat)
    requires Linked(cfg, lines, spans) && k <= |spans| && j < |lines| && !AllSpace(lines[j])
    requires k > 0 ==> j < spans[k - 1].end
    requires k == 0 ==> j < 0
    ensures exists i :: 0 <= i < k && InSpan(spans[i], j)
  {
    var s := spans[k - 1];
    if s.first <= j {
      assert InSpan(s, j);
    } else {
      assert BlankLines(lines, ResumesAt(cfg, lines, spans, k - 1), s.first);
      CoveredBefore(cfg, lines, spans, k - 1, j);
    }
  }

  // The ends of any two spans: the later one ends later, or at the same line if the earlier was
  // cut by size and the later by a heading or the end of the document.
  lemma {:induction false} EndsIncrease(cfg: Config, lines: seq<string>, spans: seq<Span>, a: nat, b: nat)
    requires Linked(cfg, lines, spans) && a < b < |spans|
    ensures EndsAfter(spans[a], spans[b])
    ensures spans[a].first <= spans[b].first
  {
    assert EndsAfter(spans[b - 1], spans[b]);
    assert BlankLines(lines, ResumesAt(cfg, lines, spans, b), spans[b].first);
    if a < b - 1 {
      EndsIncrease(cfg, lines, spans, a, b - 1);
    }
  }

  // ---- Overlap ----

  lemma {:induction false} LineTokensShrink(lines: seq<string>, a: nat, b: nat, end: nat)
    requires a <= b <= end <= |lines|
    ensures LineTokens(lines, b, end) <= LineTokens(lines, a, end)
    decreases b - a
  {
    if a < b { LineTokensShrink(lines, a + 1, b, end); }
  }

  lemma {:induction false} KeepFromIsLongest(cfg: Config, lines: seq<string>, first: nat, end: nat, s: nat)
    requires first <= s <= end <= |lines| && LineTokens(lines, s, end) <= cfg.overlap
    ensures var r := KeepFrom(cfg, lines, first, end, s);
            && LineTokens(lines, r, end) <= cfg.overlap
            && forall c :: first <= c < r ==> LineTokens(lines, c, end) > cfg.overlap
    decreases s
  {
    if s > first {
      if LineTokens(lines, s - 1, end) > cfg.overlap {
        forall c | first <= c < s ensures LineTokens(lines, c, end) > cfg.overlap {
          LineTokensShrink(lines, c, s - 1, end);
        }
      } else {
        KeepFromIsLongest(cfg, lines, first, end, s - 1);
      }
    }
  }

  // The lines kept for overlap are the longest suffix of the chunk's lines whose estimates add up
  // to no more than the overlap; none are kept of a single line or without an overlap.
  lemma OverlapIsLongestSuffix(cfg: Config, lines: seq<string>, first: nat, end: nat)
    requires first <= end <= |lines|
    ensures var r := OverlapStart(cfg, lines, first, end);
            if cfg.overlap > 0 && end - first > 1 then
              && LineTokens(lines, r, end) <= cfg.overlap
              && forall c :: first <= c <= end ==> (c >= r <==> LineTokens(lines, c, end) <= cfg.overlap)
            else r == end
  {
    if cfg.overlap > 0 && end - first > 1 {
      KeepFromIsLongest(cfg, lines, first, end, end);
      var r := OverlapStart(cfg, lines, first, end);
      forall c | r <= c <= end ensures LineTokens(lines, c, end) <= cfg.overlap {
        LineTokensShrink(lines, r, c, end);
      }
    }
  }

  // Without an overlap the chunks are disjoint: each begins at or after the end of the last, so
  // their ends strictly increase.
  lemma DisjointWithoutOverlap(cfg: Config, lines: seq<string>, spans: seq<Span>, b: nat)
    requires Linked(cfg, lines, spans) && cfg.overlap <= 0 && 0 < b < |spans|
    ensures spans[b - 1].end <= spans[b].first
  {
    ResumeWithoutOverlap(cfg, lines, spans, b);
    assert BlankLines(lines, ResumesAt(cfg, lines, spans, b), spans[b].first);
  }

  lemma ResumeWithoutOverlap(cfg: Config, lines: seq<string>, spans: seq<Span>, k: nat)
    requires cfg.overlap <= 0 && 0 < k <= |spans| && InRange(lines, spans)
    ensures ResumesAt(cfg, lines, spans, k) == spans[k - 1].end
  {
  }

  // ---- The chunker object ----

  datatype DocumentChunk = DocumentChunk(id: string, content: string, title: string, parentKey: string, tokens: nat)

  // str(n)
  function Str(n: nat): string
  {
    var digits := Decimal.Print(n);
    seq(|digits|, i requires 0 <= i < |digits| => digits[i] as char)
  }

  function ChunkId(parentKey: string, k: nat): string { parentKey + ":chunk_" + Str(k) }

  function ChunkOf(parentKey: string, lines: seq<string>, s: Span, k: nat): DocumentChunk
    requires s.first <= s.end <= |lines|
  {
    var content := Strip(JoinLines(lines[s.first..s.end]));
    DocumentChunk(ChunkId(parentKey, k), content, s.title, parentKey, EstimateTokens(content))
  }

  // One chunk for each span, numbered from 0.
  ghost function ChunksOf(parentKey: string, lines: seq<string>, spans: seq<Span>): (r: seq<DocumentChunk>)
    requires InRange(lines, spans)
    ensures |r| == |spans|
  {
    seq(|spans|, k requires 0 <= k < |spans| => ChunkOf(parentKey, lines, spans[k], k))
  }

  lemma StrInjective(a: nat, b: nat)
    requires Str(a) == Str(b)
    ensures a == b
  {
    var x, y := Decimal.Print(a), Decimal.Print(b);
    assert |x| == |Str(a)| == |Str(b)| == |y|;
    forall i | 0 <= i < |x| ensures x[i] == y[i] {
      assert x[i] as char == Str(a)[i] == Str(b)[i] == y[i] as char;
    }
    assert x == y;
    Decimal.DigitsOfPrint(a);
    Decimal.DigitsOfPrint(b);
  }

  // No two chunks of a document share an id.
  lemma ChunkIdInjective(parentKey: string, a: nat, b: nat)
    requires ChunkId(parentKey, a) == ChunkId(parentKey, b)
    ensures a == b
  {
    var p := parentKey + ":chunk_";
    assert Str(a) == ChunkId(parentKey, a)[|p|..];
    assert Str(b) == ChunkId(parentKey, b)[|p|..];
    StrInjective(a, b);
  }

  // The first ten ids end in one digit, the first of them in 0; every other ends in the digits of
  // a tenth of its number and one more.
  lemma ChunkIdDigits(parentKey: string, k: nat, d: nat)
    requires d < 10
    ensures ChunkId(parentKey, d) == parentKey + ":chunk_" + [(48 + d) as char]
    ensures k > 0 ==> ChunkId(parentKey, 10 * k + d) == ChunkId(parentKey, k) + [(48 + d) as char]
  {
    assert Str(d) == [(48 + d) as char];
    if k > 0 {
      assert Decimal.Print(10 * k + d) == Decimal.Print(k) + Decimal.Print(d);
      assert Str(10 * k + d) == Str(k) + [(48 + d) as char];
    }
  }

  // Chunk k of a document: its number, the text of its lines without white space around it, the
  // breadcrumb and the estimate of that text.
  lemma ChunkFields(parentKey: string, lines: seq<string>, spans: seq<Span>, k: nat)
    requires InRange(lines, spans) && k < |spans|
    ensures var chunk := ChunksOf(parentKey, lines, spans)[k];
            && chunk.id == ChunkId(parentKey, k) && chunk.parentKey == parentKey && chunk.title == spans[k].title
            && (exists a, b :: Trimmed(JoinLines(lines[spans[k].first..spans[k].end]), a, chunk.content, b))
            && chunk.tokens == EstimateTokens(chunk.content)
  {
    var text := JoinLines(lines[spans[k].first..spans[k].end]);
    StripIff(text, Strip(text));
  }

  function PopStack(stack: seq<Heading>, level: nat): seq<Heading>
  {
    if stack != [] && stack[|stack| - 1].level >= level then PopStack(stack[..|stack| - 1], level) else stack
  }

  lemma {:induction false} PopStackOf(lines: seq<string>, open: seq<nat>, level: nat)
    requires OnStack(lines, open)
    ensures PopStack(StackOf(lines, open), level) == StackOf(lines, PopTo(lines, open, level))
  {
    if open != [] && LevelAt(lines, open[|open| - 1]) >= level {
      assert StackOf(lines, open)[..|open| - 1] == StackOf(lines, open[..|open| - 1]);
      PopStackOf(lines, open[..|open| - 1], level);
    }
  }

  lemma PushStackOf(lines: seq<string>, open: seq<nat>, i: nat)
    requires OnStack(lines, open) && i < |lines| && IsHeading(lines[i])
    ensures StackOf(lines, open + [i]) == StackOf(lines, open) + [Heading(Level(lines[i]), Title(lines[i]))]
  {
  }

  method PopHeadings(stack: seq<Heading>, level: nat) returns (r: seq<Heading>)
    ensures r == PopStack(stack, level)
  {
    r := stack;
    while r != [] && r[|r| - 1].level >= level
      invariant PopStack(stack, level) == PopStack(r, level)
      decreases |r|
    {
      r := r[..|r| - 1];
    }
  }

  lemma SliceSnoc<T>(s: seq<T>, a: nat, i: nat)
    requires a <= i < |s|
    ensures s[a..i + 1] == s[a..i] + [s[i]]
  {
  }

  class MarkdownChunker {
    const targetSize: nat
    const overlap: int

    function Cfg(): Config { Config(targetSize, overlap) }

    constructor (targetChunkSize: int, overlap: int)
      ensures targetSize == if targetChunkSize < 50 then 50 else targetChunkSize
      ensures this.overlap == if overlap < targetSize / 2 then overlap else targetSize / 2
      ensures Cfg().Valid()
    {
      var t := if targetChunkSize < 50 then 50 else targetChunkSize;
      this.targetSize := t;
      this.overlap := if overlap < t / 2 then overlap else t / 2;
    }

    // The chunks of a document: none of an empty one, a single one of a small one, and otherwise
    // one for each span of its lines.
    method ChunkDocument(parentKey: string, markdown: string) returns (chunks: seq<DocumentChunk>)
      ensures var text := Strip(markdown);
              && (text == "" ==> chunks == [])
              && (text != "" && EstimateTokens(text) <= targetSize ==>
                    chunks == [DocumentChunk(ChunkId(parentKey, 0), text, "Root", parentKey, EstimateTokens(text))])
              && (EstimateTokens(text) > targetSize ==>
                    && InRange(SplitLines(text), AllSpans(Cfg(), SplitLines(text)))
                    && chunks == ChunksOf(parentKey, SplitLines(text), AllSpans(Cfg(), SplitLines(text))))
    {
      var text := Strip(markdown);
      if text == "" {
        return [];
      }
      var totalTokens := EstimateTokens(text);
      if totalTokens <= targetSize {
        return [DocumentChunk(ChunkId(parentKey, 0), text, "Root", parentKey, totalTokens)];
      }
      chunks := ChunkLines(parentKey, SplitLines(text));
    }

    // The loop over the lines of a document that is not small.
    method ChunkLines(parentKey: string, lines: seq<string>) returns (chunks: seq<DocumentChunk>)
      ensures InRange(lines, AllSpans(Cfg(), lines))
      ensures chunks == ChunksOf(parentKey, lines, AllSpans(Cfg(), lines))
    {
      chunks := [];
      var headingStack, currentLines, inCodeBlock := [], [], false;
      ghost var p := START;
      for i := 0 to |lines|
        invariant p == Process(Cfg(), lines, i)
        invariant InRange(lines, p.spans) && chunks == ChunksOf(parentKey, lines, p.spans)
        invariant headingStack == StackOf(lines, p.open)
        invariant currentLines == lines[p.start..i] && inCodeBlock == p.fenced
      {
        chunks, headingStack, currentLines, inCodeBlock :=
          ReadLine(parentKey, lines, i, chunks, headingStack, currentLines, inCodeBlock, p);
        p := OnLine(Cfg(), lines, p, i);
      }
      if currentLines != [] {
        chunks, currentLines :=
          FlushCurrentChunk(parentKey, lines, |lines|, chunks, headingStack, currentLines, p, AtEnd);
      }
    }

    // One turn of the loop.
    method ReadLine(parentKey: string, lines: seq<string>, i: nat, chunks0: seq<DocumentChunk>,
                    stack0: seq<Heading>, lines0: seq<string>, inCode0: bool, ghost p: Progress)
      returns (chunks: seq<DocumentChunk>, headingStack: seq<Heading>, currentLines: seq<string>, inCodeBlock: bool)
      requires p.start <= i < |lines| && OnStack(lines, p.open)
      requires InRange(lines, p.spans) && chunks0 == ChunksOf(parentKey, lines, p.spans)
      requires stack0 == StackOf(lines, p.open) && lines0 == lines[p.start..i] && inCode0 == p.fenced
      ensures var q := OnLine(Cfg(), lines, p, i);
              && InRange(lines, q.spans) && chunks == ChunksOf(parentKey, lines, q.spans)
              && headingStack == StackOf(lines, q.open)
              && currentLines == lines[q.start..i + 1] && inCodeBlock == q.fenced
    {
      hide Flush, OnHeading, PopTo, JoinLines, EstimateTokens;
      chunks, headingStack, currentLines, inCodeBlock := chunks0, stack0, lines0, inCode0;
      var line := lines[i];
      if IsFence(line) {
        inCodeBlock := !inCodeBlock;
      }
      ghost var h := p;
      if !inCodeBlock && IsHeading(line) {
        chunks, headingStack, currentLines :=
          ChunkAtHeading(parentKey, lines, i, chunks, headingStack, currentLines, p);
        h := OnHeading(Cfg(), lines, p, i);
      }
      SliceSnoc(lines, h.start, i);
      currentLines := currentLines + [line];
      ghost var q := h.(fenced := inCodeBlock);
      var currentTokens := EstimateTokens(JoinLines(currentLines));
      if currentTokens >= targetSize && !inCodeBlock {
        chunks, currentLines :=
          FlushCurrentChunk(parentKey, lines, i + 1, chunks, headingStack, currentLines, q, AtSize);
      }
    }

    // A heading outside code blocks: update the stack, and cut off what has been collected if it
    // is big enough.
    method ChunkAtHeading(parentKey: string, lines: seq<string>, i: nat, chunks0: seq<DocumentChunk>,
                          stack0: seq<Heading>, lines0: seq<string>, ghost p: Progress)
      returns (chunks: seq<DocumentChunk>, headingStack: seq<Heading>, currentLines: seq<string>)
      requires p.start <= i < |lines| && OnStack(lines, p.open) && IsHeading(lines[i])
      requires InRange(lines, p.spans) && chunks0 == ChunksOf(parentKey, lines, p.spans)
      requires stack0 == StackOf(lines, p.open) && lines0 == lines[p.start..i]
      ensures var q := OnHeading(Cfg(), lines, p, i);
              && InRange(lines, q.spans) && chunks == ChunksOf(parentKey, lines, q.spans)
              && headingStack == StackOf(lines, q.open) && currentLines == lines[q.start..i]
    {
      chunks, currentLines := chunks0, lines0;
      var level, title := Level(lines[i]), Title(lines[i]);
      headingStack := PopHeadings(stack0, level);
      headingStack := headingStack + [Heading(level, title)];
      PopStackOf(lines, p.open, level);
      PushStackOf(lines, PopTo(lines, p.open, level), i);
      ghost var pushed := p.(open := PopTo(lines, p.open, level) + [i]);
      if currentLines != [] {
        var currentTokens := EstimateTokens(JoinLines(currentLines));
        if currentTokens >= targetSize / 2 {
          chunks, currentLines :=
            FlushCurrentChunk(parentKey, lines, i, chunks, headingStack, currentLines, pushed, AtHeading);
        }
      }
    }

    // flush_current_chunk
    method FlushCurrentChunk(parentKey: string, ghost lines: seq<string>, ghost end: nat, chunks0: seq<DocumentChunk>,
                             headingStack: seq<Heading>, lines0: seq<string>, ghost p: Progress, ghost trigger: Trigger)
      returns (chunks: seq<DocumentChunk>, currentLines: seq<string>)
      requires p.start <= end <= |lines| && OnStack(lines, p.open)
      requires InRange(lines, p.spans) && chunks0 == ChunksOf(parentKey, lines, p.spans)
      requires headingStack == StackOf(lines, p.open) && lines0 == lines[p.start..end]
      ensures var q := Flush(Cfg(), lines, p, end, trigger);
              && InRange(lines, q.spans) && chunks == ChunksOf(parentKey, lines, q.spans)
              && currentLines == lines[q.start..end]
    {
      var content := Strip(JoinLines(lines0));
      if content == "" {
        return chunks0, [];
      }
      var tokens := EstimateTokens(content);
      var title := Crumb(headingStack);
      chunks := chunks0 + [DocumentChunk(ChunkId(parentKey, |chunks0|), content, title, parentKey, tokens)];
      assert chunks == ChunksOf(parentKey, lines, Flush(Cfg(), lines, p, end, trigger).spans);
      currentLines := KeepOverlap(lines0, lines, p.start, end);
    }

    // The lines kept for the next chunk, from the last one back.
    method KeepOverlap(lines0: seq<string>, ghost lines: seq<string>, ghost first: nat, ghost end: nat)
      returns (kept: seq<string>)
      requires first <= end <= |lines| && lines0 == lines[first..end]
      ensures kept == lines[OverlapStart(Cfg(), lines, first, end)..end]
    {
      kept := [];
      if overlap > 0 && |lines0| > 1 {
        var accumTokens, i := 0, |lines0|;
        while i > 0
          invariant 0 <= i <= |lines0| && kept == lines[first + i..end]
          invariant accumTokens == LineTokens(lines, first + i, end)
          invariant KeepFrom(Cfg(), lines, first, end, end) == KeepFrom(Cfg(), lines, first, end, first + i)
        {
          var lineTokens := EstimateTokens(lines0[i - 1]);
          assert lines0[i - 1] == lines[first + i - 1];
          if accumTokens + lineTokens > overlap { break; }
          kept := [lines0[i - 1]] + kept;
          accumTokens := accumTokens + lineTokens;
          i := i - 1;
        }
      }
    }
  }
}
