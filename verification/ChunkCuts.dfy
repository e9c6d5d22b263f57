// When the chunker cuts: it never goes on past a place where its tests tell it to flush.
module ChunkCuts {
  import opened Markdown
  import opened Chunker

  // Some of these spans ends before line i; one that a heading at line i cut off.
  predicate EndsAt(spans: seq<Span>, i: nat)
  {
    exists j :: 0 <= j < |spans| && spans[j].end == i
  }

  predicate CutAt(spans: seq<Span>, i: nat)
  {
    exists j :: 0 <= j < |spans| && spans[j].end == i && spans[j].trigger == AtHeading
  }

  function Tokens(lines: seq<string>, a: nat, i: nat): nat
    requires a <= i <= |lines|
  {
    EstimateTokens(JoinLines(lines[a..i]))
  }

  // Lines [a, i) were no reason to cut before line i: outside code blocks they are too few tokens
  // for a chunk, and before a heading too few for half of one.
  predicate NoCut(cfg: Config, lines: seq<string>, spans: seq<Span>, a: nat, i: nat)
    requires a <= i < |lines|
  {
    && (Fences(lines, i) % 2 == 0 && !EndsAt(spans, i) ==> Tokens(lines, a, i) < cfg.target)
    && (HeadingAt(lines, i) && !CutAt(spans, i) ==> Tokens(lines, a, i) < cfg.target / 2)
  }

  // The same for every line between a and b.
  ghost predicate Prompt(cfg: Config, lines: seq<string>, spans: seq<Span>, a: nat, b: nat)
    requires b <= |lines|
  {
    forall i {:trigger NoCut(cfg, lines, spans, a, i)} :: a < i < b ==> NoCut(cfg, lines, spans, a, i)
  }

  ghost predicate PromptSpan(cfg: Config, lines: seq<string>, spans: seq<Span>, k: nat)
    requires k < |spans|
  {
    spans[k].end <= |lines| && Prompt(cfg, lines, spans[..k], spans[k].first, spans[k].end)
  }

  ghost predicate AllPrompt(cfg: Config, lines: seq<string>, spans: seq<Span>)
  {
    forall k {:trigger PromptSpan(cfg, lines, spans, k)} :: 0 <= k < |spans| ==> PromptSpan(cfg, lines, spans, k)
  }

  // ---- Fewer lines are fewer tokens ----

  lemma {:induction false} JoinShrinks(lines: seq<string>, a: nat, b: nat, i: nat)
    requires a <= b <= i <= |lines|
    ensures |JoinLines(lines[b..i])| <= |JoinLines(lines[a..i])|
    decreases b - a
  {
    if a < b {
      var all := lines[a..i];
      assert all[1..] == lines[a + 1..i];
      JoinShrinks(lines, a + 1, b, i);
    }
  }

  lemma TokensShrink(lines: seq<string>, a: nat, b: nat, i: nat)
    requires a <= b <= i <= |lines|
    ensures Tokens(lines, b, i) <= Tokens(lines, a, i)
  {
    JoinShrinks(lines, a, b, i);
    FewerTokens(JoinLines(lines[b..i]), JoinLines(lines[a..i]));
  }

  lemma FewerTokens(s: string, t: string)
    requires |s| <= |t|
    ensures EstimateTokens(s) <= EstimateTokens(t)
  {
  }

  // ---- What the spans recorded so far excuse ----

  lemma MoreSpans(spans: seq<Span>, s: Span, i: nat)
    ensures EndsAt(spans + [s], i) <==> EndsAt(spans, i) || s.end == i
    ensures CutAt(spans + [s], i) <==> CutAt(spans, i) || (s.end == i && s.trigger == AtHeading)
  {
    var all := spans + [s];
    assert all[|spans|] == s;
    assert forall j :: 0 <= j < |spans| ==> all[j] == spans[j];
  }

  // Dropping lines from the front, with one more span recorded.
  lemma PromptLater(cfg: Config, lines: seq<string>, spans: seq<Span>, s: Span, a: nat, b: nat, n: nat)
    requires a <= b <= n <= |lines| && Prompt(cfg, lines, spans, a, n)
    ensures Prompt(cfg, lines, spans + [s], b, n)
  {
    hide EndsAt, CutAt, Tokens, HeadingAt, Fences;
    forall i | b < i < n ensures NoCut(cfg, lines, spans + [s], b, i) {
      assert NoCut(cfg, lines, spans, a, i);
      TokensShrink(lines, a, b, i);
      MoreSpans(spans, s, i);
    }
  }

  lemma PromptOneMore(cfg: Config, lines: seq<string>, spans: seq<Span>, a: nat, n: nat)
    requires a <= n < |lines| && Prompt(cfg, lines, spans, a, n) && (a < n ==> NoCut(cfg, lines, spans, a, n))
    ensures Prompt(cfg, lines, spans, a, n + 1)
  {
  }

  lemma AllPromptSnoc(cfg: Config, lines: seq<string>, spans: seq<Span>, s: Span)
    requires AllPrompt(cfg, lines, spans) && s.end <= |lines| && Prompt(cfg, lines, spans, s.first, s.end)
    ensures AllPrompt(cfg, lines, spans + [s])
  {
    var all := spans + [s];
    forall k | 0 <= k < |all| ensures PromptSpan(cfg, lines, all, k) {
      if k < |spans| {
        assert PromptSpan(cfg, lines, spans, k);
        assert all[..k] == spans[..k];
      } else {
        assert all[..k] == spans;
      }
    }
  }

  // ---- The loop ----

  // After n lines, the size of what is collected has been looked at.
  ghost predicate Read(cfg: Config, lines: seq<string>, p: Progress, n: nat)
    requires n <= |lines|
  {
    && AllPrompt(cfg, lines, p.spans) && p.start <= n && Prompt(cfg, lines, p.spans, p.start, n)
    && (p.start < n && Fences(lines, n) % 2 == 0 && !EndsAt(p.spans, n) ==> Tokens(lines, p.start, n) < cfg.target)
  }

  // Between the heading part of line i and its size part.
  ghost predicate Looked(cfg: Config, lines: seq<string>, p: Progress, i: nat)
    requires i < |lines|
  {
    AllPrompt(cfg, lines, p.spans) && p.start <= i && Prompt(cfg, lines, p.spans, p.start, i + 1)
  }

  lemma FlushPrompt(cfg: Config, lines: seq<string>, p: Progress, end: nat, trigger: Trigger)
    requires p.start <= end <= |lines| && OnStack(lines, p.open)
    requires AllPrompt(cfg, lines, p.spans) && Prompt(cfg, lines, p.spans, p.start, end)
    ensures var q := Flush(cfg, lines, p, end, trigger);
            && AllPrompt(cfg, lines, q.spans) && Prompt(cfg, lines, q.spans, q.start, end)
            && (q.start == end || (EndsAt(q.spans, end) && (trigger == AtHeading ==> CutAt(q.spans, end))))
  {
    hide AllPrompt, Prompt, EndsAt, CutAt, JoinLines, Strip, Breadcrumb;
    var q := Flush(cfg, lines, p, end, trigger);
    if q.spans == p.spans {
      NoLines(cfg, lines, p.spans, end);
    } else {
      var s := Span(p.start, end, Breadcrumb(lines, p.open), trigger);
      AllPromptSnoc(cfg, lines, p.spans, s);
      PromptLater(cfg, lines, p.spans, s, p.start, q.start, end);
      MoreSpans(p.spans, s, end);
    }
  }

  lemma NoLines(cfg: Config, lines: seq<string>, spans: seq<Span>, n: nat)
    requires n <= |lines|
    ensures Prompt(cfg, lines, spans, n, n)
  {
  }

  lemma HeadingLooked(cfg: Config, lines: seq<string>, p: Progress, i: nat)
    requires i < |lines| && OnStack(lines, p.open) && HeadingAt(lines, i) && Read(cfg, lines, p, i)
    ensures Looked(cfg, lines, OnHeading(cfg, lines, p, i), i)
  {
    hide AllPrompt, Prompt, EndsAt, CutAt, Flush, PopTo, JoinLines, EstimateTokens, Fences;
    var pushed := p.(open := PopTo(lines, p.open, Level(lines[i])) + [i]);
    assert OnStack(lines, pushed.open) by { assert HeadingLine(lines, i); }
    var q := OnHeading(cfg, lines, p, i);
    if p.start < i && EstimateTokens(JoinLines(lines[p.start..i])) >= cfg.target / 2 {
      assert q == Flush(cfg, lines, pushed, i, AtHeading);
      FlushPrompt(cfg, lines, pushed, i, AtHeading);
    } else {
      assert q == pushed;
    }
    PromptOneMore(cfg, lines, q.spans, q.start, i);
  }

  lemma NoHeadingLooked(cfg: Config, lines: seq<string>, p: Progress, i: nat)
    requires i < |lines| && !HeadingAt(lines, i) && Read(cfg, lines, p, i)
    ensures Looked(cfg, lines, p, i)
  {
    hide AllPrompt, Prompt, EndsAt, CutAt, Tokens;
    PromptOneMore(cfg, lines, p.spans, p.start, i);
  }

  lemma SizeRead(cfg: Config, lines: seq<string>, p: Progress, i: nat)
    requires i < |lines| && OnStack(lines, p.open) && Looked(cfg, lines, p, i)
    requires p.fenced <==> Fences(lines, i + 1) % 2 == 1
    ensures var cut := EstimateTokens(JoinLines(lines[p.start..i + 1])) >= cfg.target && !p.fenced;
            Read(cfg, lines, if cut then Flush(cfg, lines, p, i + 1, AtSize) else p, i + 1)
  {
    hide AllPrompt, Prompt, EndsAt, CutAt, Flush, JoinLines, EstimateTokens, Fences;
    if EstimateTokens(JoinLines(lines[p.start..i + 1])) >= cfg.target && !p.fenced {
      FlushPrompt(cfg, lines, p, i + 1, AtSize);
    }
  }

  lemma LineRead(cfg: Config, lines: seq<string>, p: Progress, i: nat)
    requires i < |lines| && OnStack(lines, p.open) && p.fenced == FencedAfter(lines, i) && Read(cfg, lines, p, i)
    ensures Read(cfg, lines, OnLine(cfg, lines, p, i), i + 1)
  {
    hide Read, Looked, Flush, OnHeading, JoinLines, EstimateTokens, PopTo;
    FencedIsOdd(lines, i);
    FencedIsOdd(lines, i + 1);
    HeadingIsNoFence(lines[i]);
    var fenced := if IsFence(lines[i]) then !p.fenced else p.fenced;
    var heading := !fenced && IsHeading(lines[i]);
    assert p.start <= i by { assert Read(cfg, lines, p, i); StartWithin(cfg, lines, p, i); }
    var h := if heading then OnHeading(cfg, lines, p, i) else p;
    if heading { HeadingLooked(cfg, lines, p, i); } else { NoHeadingLooked(cfg, lines, p, i); }
    var q := h.(fenced := fenced);
    LookedFence(cfg, lines, h, q, i);
    SizeRead(cfg, lines, q, i);
    if EstimateTokens(JoinLines(lines[q.start..i + 1])) >= cfg.target && !fenced {
      assert OnLine(cfg, lines, p, i) == Flush(cfg, lines, q, i + 1, AtSize);
    } else {
      assert OnLine(cfg, lines, p, i) == q;
    }
  }

  lemma StartWithin(cfg: Config, lines: seq<string>, p: Progress, n: nat)
    requires n <= |lines| && Read(cfg, lines, p, n)
    ensures p.start <= n
  {
  }

  lemma LookedFence(cfg: Config, lines: seq<string>, p: Progress, q: Progress, i: nat)
    requires i < |lines| && Looked(cfg, lines, p, i) && q.spans == p.spans && q.start == p.start
    ensures Looked(cfg, lines, q, i) && q.start <= i
  {
    hide AllPrompt, Prompt;
  }

  lemma {:induction false} ProcessRead(cfg: Config, lines: seq<string>, n: nat)
    requires n <= |lines|
    ensures Read(cfg, lines, Process(cfg, lines, n), n)
  {
    hide Read, OnLine, FencedAfter;
    if n == 0 {
      ReadAtStart(cfg, lines);
    } else {
      ProcessLine(cfg, lines, n);
      ProcessTracks(cfg, lines, n - 1);
      ProcessRead(cfg, lines, n - 1);
      LineRead(cfg, lines, Process(cfg, lines, n - 1), n - 1);
    }
  }

  lemma ReadAtStart(cfg: Config, lines: seq<string>)
    ensures Read(cfg, lines, START, 0)
  {
  }

  // For every document, every chunk of it and every line inside the chunk: what the chunk holds
  // before that line is less than the target, unless the line is inside a code block or an earlier
  // chunk ends there; and if the line is a heading outside code blocks it is less than half the
  // target, unless that heading cut off an earlier chunk.
  lemma CutsArePrompt(cfg: Config, lines: seq<string>, k: nat, i: nat)
    requires k < |AllSpans(cfg, lines)|
    requires AllSpans(cfg, lines)[k].first < i < AllSpans(cfg, lines)[k].end
    ensures i < |lines|
    ensures var spans := AllSpans(cfg, lines);
            var tokens := EstimateTokens(JoinLines(lines[spans[k].first..i]));
            && (Fences(lines, i) % 2 == 0 && (forall j :: 0 <= j < k ==> spans[j].end != i) ==> tokens < cfg.target)
            && (HeadingAt(lines, i) && (forall j :: 0 <= j < k ==> spans[j].end != i || spans[j].trigger != AtHeading)
                ==> tokens < cfg.target / 2)
  {
    hide Process, Read, Flush, AllPrompt, Prompt, JoinLines, EstimateTokens;
    var p := Process(cfg, lines, |lines|);
    ProcessRead(cfg, lines, |lines|);
    PromptAtEnd(cfg, lines, p);
    var spans := AllSpans(cfg, lines);
    PromptAt(cfg, lines, spans, k, i);
  }

  lemma PromptAtEnd(cfg: Config, lines: seq<string>, p: Progress)
    requires OnStack(lines, p.open) && Read(cfg, lines, p, |lines|)
    ensures AllPrompt(cfg, lines, p.spans)
    ensures p.start < |lines| ==> AllPrompt(cfg, lines, Flush(cfg, lines, p, |lines|, AtEnd).spans)
  {
    hide AllPrompt, Prompt, Flush, EndsAt, Tokens;
    if p.start < |lines| { FlushPrompt(cfg, lines, p, |lines|, AtEnd); }
  }

  lemma PromptAt(cfg: Config, lines: seq<string>, spans: seq<Span>, k: nat, i: nat)
    requires AllPrompt(cfg, lines, spans) && k < |spans| && spans[k].first < i < spans[k].end
    ensures i < |lines| && NoCut(cfg, lines, spans[..k], spans[k].first, i)
    ensures EndsAt(spans[..k], i) <==> exists j :: 0 <= j < k && spans[j].end == i
    ensures CutAt(spans[..k], i) <==> exists j :: 0 <= j < k && spans[j].end == i && spans[j].trigger == AtHeading
  {
    hide NoCut;
    assert PromptSpan(cfg, lines, spans, k);
    assert forall j :: 0 <= j < k ==> spans[..k][j] == spans[j];
  }

  // Without an overlap no earlier chunk ends inside a chunk, and no cut is missed at all.
  lemma CutsArePromptWithoutOverlap(cfg: Config, lines: seq<string>, k: nat, i: nat)
    requires cfg.overlap <= 0 && k < |AllSpans(cfg, lines)|
    requires AllSpans(cfg, lines)[k].first < i < AllSpans(cfg, lines)[k].end
    ensures i < |lines|
    ensures var tokens := EstimateTokens(JoinLines(lines[AllSpans(cfg, lines)[k].first..i]));
            && (Fences(lines, i) % 2 == 0 ==> tokens < cfg.target)
            && (HeadingAt(lines, i) ==> tokens < cfg.target / 2)
  {
    hide AllSpans, JoinLines, EstimateTokens, SpanOk;
    var spans := AllSpans(cfg, lines);
    CutsArePrompt(cfg, lines, k, i);
    AllSpansChained(cfg, lines);
    forall j | 0 <= j < k ensures spans[j].end != i {
      DisjointWithoutOverlap(cfg, lines, spans, k);
      if j < k - 1 { EndsIncrease(cfg, lines, spans, j, k - 1); }
    }
  }

  // With one, a heading is not tested again at the same place.  Two lines of 51 letters are cut
  // off at the heading and kept whole, because their estimates add up to less than their join;
  // the next chunk goes on past that heading with half its target before it.
  lemma HeadingNotTestedTwice(y: string, z: string)
    requires |y| == 51 && forall i :: 0 <= i < |y| ==> y[i] == 'a'
    requires |z| == 100 && forall i :: 0 <= i < |z| ==> z[i] == 'a'
    ensures var cfg, lines := Config(50, 25), [y, y, "# h", z];
            && cfg.Valid() && HeadingAt(lines, 2)
            && Process(cfg, lines, 4).spans == [Span(0, 2, "h", AtHeading), Span(0, 4, "h", AtSize)]
            && EstimateTokens(JoinLines(lines[0..2])) == cfg.target / 2
  {
    var cfg, lines := Config(50, 25), [y, y, "# h", z];
    assert !IsFence(y) && !IsHeading(y) && !IsFence(z) && !IsHeading(z);
    JoinedParts(y, z);
    HeadingOne();
    assert Process(cfg, lines, 1) == START by { assert lines[0..1] == [y]; }
    assert Process(cfg, lines, 2) == START by { assert lines[0..2] == [y, y]; }
    AtTheHeading(cfg, lines, y, z);
    var p := Progress([Span(0, 2, "h", AtHeading)], [2], 0, false);
    assert Process(cfg, lines, 3) == p;
    PastTheHeading(cfg, lines, y, z, p);
  }

  lemma JoinedParts(y: string, z: string)
    requires |y| == 51 && |z| == 100
    ensures |JoinLines([y])| == 51 && |JoinLines([y, y])| == 103
    ensures |JoinLines([y, y, "# h"])| == 107 && |JoinLines([y, y, "# h", z])| == 208
  {
    var h := "# h";
    assert [h, z][1..] == [z] && [y, h, z][1..] == [h, z] && [y, y, h, z][1..] == [y, h, z];
    assert [y, h][1..] == [h] && [y, y, h][1..] == [y, h] && [y, y][1..] == [y];
    assert |JoinLines([h, z])| == 104 && |JoinLines([y, h, z])| == 156;
    assert |JoinLines([y, h])| == 55;
  }

  lemma HeadingOne()
    ensures var h := "# h"; IsHeading(h) && Level(h) == 1 && Title(h) == "h" && !IsFence(h)
  {
    var h := "# h";
    assert CountHashes(h[1..]) == 0;
    var s: string := [' ', 'h'];
    assert h[1..] == s && s[1..] == ['h'];
    assert StripLeft(['h']) == ['h'] && StripRight(['h']) == ['h'];
    assert StripLeft(s) == ['h'];
  }

  lemma AtTheHeading(cfg: Config, lines: seq<string>, y: string, z: string)
    requires cfg == Config(50, 25) && |y| == 51 && y[0] == 'a' && |z| == 100 && lines == [y, y, "# h", z]
    ensures HeadingAt(lines, 2)
    ensures OnLine(cfg, lines, START, 2) == Progress([Span(0, 2, "h", AtHeading)], [2], 0, false)
  {
    hide JoinLines, Strip, StripLeft, StripRight, CountHashes;
    HeadingOne();
    JoinedParts(y, z);
    var fence := "```";
    assert fence[0] != y[0] && !IsFence(y);
    assert Fences(lines, 0) == 0 && Fences(lines, 1) == 0 && Fences(lines, 2) == 0;
    assert lines[0..2] == [y, y] && lines[0..3] == [y, y, "# h"];
    NotBlank(lines, 0, 2, y);
    var pushed := START.(open := [2]);
    assert HeadingLine(lines, 2);
    assert StackOf(lines, [2]) == [Heading(1, "h")];
    assert LineTokens(lines, 1, 2) == 12 && LineTokens(lines, 0, 2) == 24;
    OverlapIsLongestSuffix(cfg, lines, 0, 2);
    var q := Progress([Span(0, 2, "h", AtHeading)], [2], 0, false);
    assert OverlapStart(cfg, lines, 0, 2) == 0;
    assert Flush(cfg, lines, pushed, 2, AtHeading) == q;
    assert OnHeading(cfg, lines, START, 2) == q;
  }

  lemma PastTheHeading(cfg: Config, lines: seq<string>, y: string, z: string, p: Progress)
    requires cfg == Config(50, 25) && |y| == 51 && y[0] == 'a' && |z| == 100 && lines == [y, y, "# h", z]
    requires !IsFence(z) && !IsHeading(z) && p == Progress([Span(0, 2, "h", AtHeading)], [2], 0, false)
    requires OnStack(lines, p.open)
    ensures OnLine(cfg, lines, p, 3).spans == [Span(0, 2, "h", AtHeading), Span(0, 4, "h", AtSize)]
  {
    hide JoinLines, Strip, StripLeft, StripRight, CountHashes, IsHeading;
    HeadingOne();
    JoinedParts(y, z);
    assert lines[0..4] == [y, y, "# h", z];
    NotBlank(lines, 0, 4, y);
    assert HeadingLine(lines, 2);
    assert StackOf(lines, [2]) == [Heading(1, "h")];
    assert OnLine(cfg, lines, p, 3) == Flush(cfg, lines, p, 4, AtSize);
  }

  lemma NotBlank(lines: seq<string>, a: nat, b: nat, x: string)
    requires a < b <= |lines| && lines[a] == x && x != "" && x[0] == 'a'
    ensures Strip(JoinLines(lines[a..b])) != ""
  {
    BlankIffStripEmpty(lines, a, b);
    assert !AllSpace(lines[a]);
  }

  // Nor is the size: an empty line and 25 lines of seven letters fill a chunk, and all of them are
  // kept, because they are 25 tokens one by one; the next chunk goes on with the target before it.
  lemma SizeNotTestedTwice(x: string, lines: seq<string>)
    requires |x| == 7 && x[0] == 'a'
    requires lines == [""] + seq(26, _ => x)
    ensures var cfg := Config(50, 25);
            && cfg.Valid() && Fences(lines, 26) == 0
            && Process(cfg, lines, 27).spans == [Span(0, 26, "General", AtSize), Span(0, 27, "General", AtSize)]
            && EstimateTokens(JoinLines(lines[0..26])) == cfg.target
  {
    hide Process, OnLine, Flush, JoinLines, LineTokens, Strip;
    var cfg := Config(50, 25);
    FewLines(cfg, lines, x, 25);
    PlainLine(x);
    JoinedSevens(lines, x, 26);
    JoinedSevens(lines, x, 27);
    NoFences(lines, x, 26);
    var p := Progress([Span(0, 26, "General", AtSize)], [], 0, false);
    assert OnLine(cfg, lines, START, 25) == p by {
      SizeFlush(cfg, lines, START, 25, x);
      OverlapIsLongestSuffix(cfg, lines, 0, 26);
      SevenTokens(lines, x, 0, 26);
    }
    ProcessLine(cfg, lines, 26);
    ProcessLine(cfg, lines, 27);
    SizeFlush(cfg, lines, p, 26, x);
  }

  lemma PlainLine(x: string)
    requires |x| == 7 && x[0] == 'a'
    ensures !IsFence(x) && !IsHeading(x) && EstimateTokens(x) == 1
    ensures !IsFence("") && !IsHeading("") && EstimateTokens("") == 0
  {
  }

  // The flush of lines that are no headings and no fences.
  lemma SizeFlush(cfg: Config, lines: seq<string>, p: Progress, i: nat, x: string)
    requires 0 < i < |lines| && lines[1] == x && x != "" && x[0] == 'a'
    requires !IsFence(lines[i]) && !IsHeading(lines[i])
    requires p.open == [] && p.start == 0 && !p.fenced
    requires EstimateTokens(JoinLines(lines[0..i + 1])) >= cfg.target
    ensures OnLine(cfg, lines, p, i) ==
            Progress(p.spans + [Span(0, i + 1, "General", AtSize)], [], OverlapStart(cfg, lines, 0, i + 1), false)
  {
    hide JoinLines, Strip, EstimateTokens, IsHeading, OverlapStart;
    BlankIffStripEmpty(lines, 0, i + 1);
    assert !AllSpace(lines[1]);
    assert StackOf(lines, []) == [];
  }

  lemma {:induction false} FewLines(cfg: Config, lines: seq<string>, x: string, n: nat)
    requires cfg == Config(50, 25) && |x| == 7 && x[0] == 'a' && lines == [""] + seq(26, _ => x) && n <= 25
    ensures Process(cfg, lines, n) == START
  {
    hide JoinLines, Flush;
    if n > 0 {
      FewLines(cfg, lines, x, n - 1);
      PlainLine(x);
      JoinedSevens(lines, x, n);
    }
  }

  lemma {:induction false} NoFences(lines: seq<string>, x: string, n: nat)
    requires |x| == 7 && x[0] == 'a' && lines == [""] + seq(26, _ => x) && n <= 27
    ensures Fences(lines, n) == 0
  {
    if n > 0 {
      NoFences(lines, x, n - 1);
      PlainLine(x);
    }
  }

  lemma {:induction false} SevenTokens(lines: seq<string>, x: string, a: nat, end: nat)
    requires |x| == 7 && x[0] == 'a' && lines == [""] + seq(26, _ => x) && a <= end <= 27
    ensures LineTokens(lines, a, end) == if a == 0 && end > 0 then end - 1 else end - a
    decreases end - a
  {
    if a < end {
      SevenTokens(lines, x, a + 1, end);
      PlainLine(x);
    }
  }

  lemma {:induction false} Sevens(xs: seq<string>)
    requires xs != [] && forall i :: 0 <= i < |xs| ==> |xs[i]| == 7
    ensures |JoinLines(xs)| == 8 * |xs| - 1
  {
    if |xs| > 1 { Sevens(xs[1..]); }
  }

  lemma JoinedSevens(lines: seq<string>, x: string, n: nat)
    requires |x| == 7 && lines == [""] + seq(26, _ => x) && 0 < n <= 27
    ensures EstimateTokens(JoinLines(lines[0..n])) == 2 * (n - 1)
  {
    var head := lines[0..n];
    if n > 1 { Sevens(head[1..]); }
  }
}
