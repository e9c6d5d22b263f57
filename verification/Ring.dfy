// The bump-pointer ring of src/kachedb/dma.py as a function of the slots written so far.
//
// A run is the list of byte strings handed to the ring, oldest first.  The whole state of the
// ring (buffer, write head) and the offset of every slot are functions of the pool size and the
// run, so statements about a run are statements about every reachable state.
module Ring {
  import opened Bytes

  datatype State = State(buf: Bytes, head: nat)

  type Run = seq<Bytes>

  // Python's  b[i:j] = v  on a bytearray: bounds are clipped to the length, and the
  // array grows or shrinks when v does not have the length of the slice it replaces.
  function SliceAssign(b: Bytes, i: nat, j: nat, v: Bytes): Bytes
  {
    var lo := Min(i, |b|);
    var hi := Max(lo, Min(j, |b|));
    b[..lo] + v + b[hi..]
  }

  // The slot bytes laid over the buffer at an offset inside it.
  function Overlay(b: Bytes, offset: nat, v: Bytes): (r: Bytes)
    requires offset <= |b|
    ensures |r| == Max(|b|, offset + |v|)
    ensures r[offset..offset + |v|] == v
    ensures forall p :: 0 <= p < |b| && !(offset <= p < offset + |v|) ==> r[p] == b[p]
  {
    b[..offset] + v + (if offset + |v| <= |b| then b[offset + |v|..] else [])
  }

  predicate Wraps(pool: nat, head: nat, size: nat) { head + size > pool }

  function Place(pool: nat, head: nat, size: nat): nat
  {
    if Wraps(pool, head, size) then 0 else head
  }

  // The ring after a run.
  function After(pool: nat, run: Run): (s: State)
    ensures s.head <= |s.buf| && pool <= |s.buf|
  {
    if run == [] then State(seq(pool, _ => 0), 0)
    else
      var s := After(pool, run[..|run| - 1]);
      var slot := run[|run| - 1];
      var offset := Place(pool, s.head, |slot|);
      State(Overlay(s.buf, offset, slot), offset + |slot|)
  }

  // Where slot i of the run was placed.
  function Offset(pool: nat, run: Run, i: nat): nat
    requires i < |run|
  {
    Place(pool, After(pool, run[..i]).head, |run[i]|)
  }

  // Slot i was the first of a new lap.
  predicate StartsLap(pool: nat, run: Run, i: nat)
    requires i < |run|
  {
    Wraps(pool, After(pool, run[..i]).head, |run[i]|)
  }

  predicate Overlaps(pool: nat, run: Run, i: nat, j: nat)
    requires i < |run| && j < |run|
  {
    Offset(pool, run, i) < Offset(pool, run, j) + |run[j]| &&
    Offset(pool, run, j) < Offset(pool, run, i) + |run[i]|
  }

  // No later slot was laid over slot i.
  ghost predicate Live(pool: nat, run: Run, i: nat)
    requires i < |run|
  {
    forall j :: i < j < |run| ==> !Overlaps(pool, run, i, j)
  }

  // Some slot after i started a new lap.
  ghost predicate Lapped(pool: nat, run: Run, i: nat)
    requires i < |run|
  {
    exists j :: i < j < |run| && StartsLap(pool, run, j)
  }

  function Total(slots: Run): nat
  {
    if slots == [] then 0 else Total(slots[..|slots| - 1]) + |slots[|slots| - 1]|
  }

  // The slots written after slot i, in bytes.
  function LaterBytes(run: Run, i: nat): nat
    requires i < |run|
  {
    Total(run[i + 1..])
  }

  // ---- A longer run leaves the earlier slots where they were ----

  lemma OffsetStable(pool: nat, run: Run, more: Run, i: nat)
    requires i < |run|
    ensures Offset(pool, run + more, i) == Offset(pool, run, i)
    ensures StartsLap(pool, run + more, i) == StartsLap(pool, run, i)
    ensures (run + more)[i] == run[i]
  {
    assert (run + more)[..i] == run[..i];
  }

  lemma AfterSnoc(pool: nat, run: Run, slot: Bytes)
    ensures var s := After(pool, run);
            var offset := Place(pool, s.head, |slot|);
            After(pool, run + [slot]) == State(Overlay(s.buf, offset, slot), offset + |slot|)
    ensures Offset(pool, run + [slot], |run|) == Place(pool, After(pool, run).head, |slot|)
    ensures StartsLap(pool, run + [slot], |run|) == Wraps(pool, After(pool, run).head, |slot|)
  {
    assert (run + [slot])[..|run|] == run;
  }

  // Liveness of slot i after one more slot.
  lemma LiveSnoc(pool: nat, run: Run, slot: Bytes, i: nat)
    requires i < |run|
    ensures Live(pool, run + [slot], i) <==>
              Live(pool, run, i) && !Overlaps(pool, run + [slot], i, |run|)
    ensures Lapped(pool, run + [slot], i) <==>
              Lapped(pool, run, i) || StartsLap(pool, run + [slot], |run|)
  {
    var r := run + [slot];
    forall j | 0 <= j < |run|
      ensures Offset(pool, r, j) == Offset(pool, run, j)
      ensures StartsLap(pool, r, j) == StartsLap(pool, run, j)
      ensures r[j] == run[j]
    {
      OffsetStable(pool, run, [slot], j);
    }
    if Live(pool, run, i) && !Overlaps(pool, r, i, |run|) {
      forall j | i < j < |r| ensures !Overlaps(pool, r, i, j) {
        if j < |run| { assert !Overlaps(pool, run, i, j); }
      }
    }
    if Live(pool, r, i) {
      forall j | i < j < |run| ensures !Overlaps(pool, run, i, j) {
        assert !Overlaps(pool, r, i, j);
      }
    }
    if Lapped(pool, run, i) {
      var j :| i < j < |run| && StartsLap(pool, run, j);
      assert StartsLap(pool, r, j);
    }
    if Lapped(pool, r, i) {
      var j :| i < j < |r| && StartsLap(pool, r, j);
      assert j == |run| || StartsLap(pool, run, j);
    }
  }

  // ---- Contents ----

  lemma OverlayInside(b: Bytes, offset: nat, v: Bytes, p: nat)
    requires offset <= |b| && offset <= p < offset + |v|
    ensures p < |Overlay(b, offset, v)| && Overlay(b, offset, v)[p] == v[p - offset]
  {
  }

  // Slot k was laid over byte p of the buffer.
  predicate Covers(pool: nat, run: Run, k: nat, p: nat)
    requires k < |run|
  {
    Offset(pool, run, k) <= p < Offset(pool, run, k) + |run[k]|
  }

  // Every byte of the buffer that some slot covers is the byte of the latest slot covering it.
  lemma {:induction false} LatestSlotWins(pool: nat, run: Run, j: nat, p: nat)
    requires j < |run|
    requires Covers(pool, run, j, p)
    requires forall k :: j < k < |run| ==> !Covers(pool, run, k, p)
    ensures p < |After(pool, run).buf|
    ensures After(pool, run).buf[p] == run[j][p - Offset(pool, run, j)]
  {
    var n := |run| - 1;
    var before := run[..n];
    assert run == before + [run[n]];
    AfterSnoc(pool, before, run[n]);
    if j == n {
      OverlayInside(After(pool, before).buf, Offset(pool, run, j), run[j], p);
    } else {
      OffsetStable(pool, before, [run[n]], j);
      forall k | j < k < |before| ensures !Covers(pool, before, k, p) {
        OffsetStable(pool, before, [run[n]], k);
        assert !Covers(pool, run, k, p);
      }
      assert !Covers(pool, run, n, p);
      LatestSlotWins(pool, before, j, p);
    }
  }

  // A live slot reads back exactly as written.
  lemma LiveSlotIntact(pool: nat, run: Run, i: nat)
    requires i < |run| && Live(pool, run, i)
    ensures Offset(pool, run, i) + |run[i]| <= |After(pool, run).buf|
    ensures After(pool, run).buf[Offset(pool, run, i)..Offset(pool, run, i) + |run[i]|] == run[i]
  {
    hide Offset, After;
    var o, b := Offset(pool, run, i), After(pool, run).buf;
    forall p | o <= p < o + |run[i]| ensures p < |b| && b[p] == run[i][p - o] {
      forall k | i < k < |run| ensures !Covers(pool, run, k, p) {
        assert !Overlaps(pool, run, i, k);
      }
      LatestSlotWins(pool, run, i, p);
    }
    SlotEndsInBuffer(pool, run, i);
  }

  lemma {:induction false} SlotEndsInBuffer(pool: nat, run: Run, i: nat)
    requires i < |run|
    ensures Offset(pool, run, i) + |run[i]| <= |After(pool, run).buf|
  {
    var n := |run| - 1;
    var before := run[..n];
    assert run == before + [run[n]];
    AfterSnoc(pool, before, run[n]);
    if i < n {
      OffsetStable(pool, before, [run[n]], i);
      SlotEndsInBuffer(pool, before, i);
    }
  }

  // The buffer keeps the configured length exactly when every slot fits in the pool.
  lemma {:induction false} LengthKeptIffSlotsFit(pool: nat, run: Run)
    ensures |After(pool, run).buf| == pool <==> forall i :: 0 <= i < |run| ==> |run[i]| <= pool
    ensures |After(pool, run).buf| == pool ==> After(pool, run).head <= pool
  {
    if run != [] {
      var n := |run| - 1;
      LengthKeptIffSlotsFit(pool, run[..n]);
      assert forall i :: 0 <= i < n ==> run[i] == run[..n][i];
      if forall i :: 0 <= i < n ==> |run[i]| <= pool {
        if |run[n]| <= pool {
          assert |After(pool, run).buf| == pool;
        } else {
          assert |After(pool, run).buf| > pool;
        }
      } else {
        assert |After(pool, run[..n]).buf| > pool;
        assert |After(pool, run).buf| > pool;
        var i :| 0 <= i < n && |run[i]| > pool;
      }
    }
  }

  // ---- Laps ----

  // Slots of one lap tile it: the first starts at 0, each next one starts where its
  // predecessor ends, and the write head is the end of the last.
  lemma LapTiles(pool: nat, run: Run, i: nat)
    requires i < |run|
    ensures StartsLap(pool, run, i) || i == 0 ==> Offset(pool, run, i) == 0
    ensures i > 0 && !StartsLap(pool, run, i) ==>
              Offset(pool, run, i) == Offset(pool, run, i - 1) + |run[i - 1]| &&
              Offset(pool, run, i) + |run[i]| <= pool
    ensures After(pool, run).head == Offset(pool, run, |run| - 1) + |run[|run| - 1]|
  {
    HeadIsLastEnd(pool, run);
    if i > 0 {
      HeadIsLastEnd(pool, run[..i]);
      assert run[..i][..i - 1] == run[..i - 1];
    }
  }

  lemma HeadIsLastEnd(pool: nat, run: Run)
    requires run != []
    ensures After(pool, run).head == Offset(pool, run, |run| - 1) + |run[|run| - 1]|
  {
    AfterSnoc(pool, run[..|run| - 1], run[|run| - 1]);
    assert run == run[..|run| - 1] + [run[|run| - 1]];
  }

  // The furthest byte reached by slots of laps begun after slot i (0 when there is none).
  ghost function HighWater(pool: nat, run: Run, i: nat): nat
    requires i < |run|
  {
    if |run| == i + 1 then 0
    else
      var h := HighWater(pool, run[..|run| - 1], i);
      if Lapped(pool, run, i) then Max(h, After(pool, run).head) else h
  }

  // A slot is live exactly when no later lap has reached its offset.
  lemma {:induction false} LiveIffAboveHighWater(pool: nat, run: Run, i: nat)
    requires i < |run|
    requires forall k :: 0 <= k < |run| ==> run[k] != []
    ensures Live(pool, run, i) <==> HighWater(pool, run, i) <= Offset(pool, run, i)
    ensures Lapped(pool, run, i) ==> After(pool, run).head <= HighWater(pool, run, i)
    ensures !Lapped(pool, run, i) ==>
              HighWater(pool, run, i) == 0 &&
              Offset(pool, run, i) + |run[i]| <= After(pool, run).head
  {
    var n := |run| - 1;
    var before, slot := run[..n], run[n];
    assert run == before + [slot];
    AfterSnoc(pool, before, slot);
    if i < n {
      LiveIffAboveHighWater(pool, before, i);
      LiveSnoc(pool, before, slot, i);
      OffsetStable(pool, before, [slot], i);
    }
  }

  // How many slots after i started a new lap.
  function LapsSince(pool: nat, run: Run, i: nat): nat
    requires i < |run|
    decreases |run|
  {
    if |run| == i + 1 then 0
    else LapsSince(pool, run[..|run| - 1], i) + (if StartsLap(pool, run, |run| - 1) then 1 else 0)
  }

  lemma {:induction false} LapsSinceMeansLapped(pool: nat, run: Run, i: nat)
    requires i < |run|
    ensures Lapped(pool, run, i) <==> LapsSince(pool, run, i) > 0
  {
    if i + 1 < |run| {
      var n := |run| - 1;
      assert run == run[..n] + [run[n]];
      LapsSinceMeansLapped(pool, run[..n], i);
      LiveSnoc(pool, run[..n], run[n], i);
    }
  }

  // The lap invariant: a slot of the current lap is intact, and a slot of the previous lap is
  // intact exactly when its offset is not below the write head.
  lemma {:induction false} LapInvariant(pool: nat, run: Run, i: nat)
    requires i < |run|
    requires forall k :: 0 <= k < |run| ==> run[k] != []
    ensures LapsSince(pool, run, i) == 0 ==> Live(pool, run, i)
    ensures LapsSince(pool, run, i) == 1 ==>
              (Live(pool, run, i) <==> After(pool, run).head <= Offset(pool, run, i))
  {
    LiveIffAboveHighWater(pool, run, i);
    LapsSinceMeansLapped(pool, run, i);
    if LapsSince(pool, run, i) == 1 {
      FirstLapHighWater(pool, run, i);
    }
  }

  lemma {:induction false} FirstLapHighWater(pool: nat, run: Run, i: nat)
    requires i < |run| && LapsSince(pool, run, i) == 1
    ensures HighWater(pool, run, i) == After(pool, run).head
  {
    var n := |run| - 1;
    var before, slot := run[..n], run[n];
    assert run == before + [slot];
    AfterSnoc(pool, before, slot);
    LiveSnoc(pool, before, slot, i);
    LapsSinceMeansLapped(pool, run, i);
    LapsSinceMeansLapped(pool, before, i);
    if StartsLap(pool, run, n) {
      NoLapNoHighWater(pool, before, i);
    } else {
      FirstLapHighWater(pool, before, i);
    }
  }

  lemma {:induction false} NoLapNoHighWater(pool: nat, run: Run, i: nat)
    requires i < |run| && !Lapped(pool, run, i)
    ensures HighWater(pool, run, i) == 0
  {
    if |run| > i + 1 {
      var n := |run| - 1;
      assert run == run[..n] + [run[n]];
      LiveSnoc(pool, run[..n], run[n], i);
      NoLapNoHighWater(pool, run[..n], i);
    }
  }

  // ---- Retention ----

  // While the bytes written after slot i stay within the bound, the ring has not come round to
  // it: either it is still on the same lap, or it is one lap ahead by a known distance.
  lemma {:induction false} RetentionInvariant(pool: nat, run: Run, i: nat, m: nat)
    requires i < |run|
    requires forall j :: i < j < |run| ==> |run[j]| <= m
    requires LaterBytes(run, i) + |run[i]| + m <= pool + 1
    ensures Live(pool, run, i)
    ensures !Lapped(pool, run, i) ==>
              After(pool, run).head == Offset(pool, run, i) + |run[i]| + LaterBytes(run, i)
    ensures Lapped(pool, run, i) ==>
              After(pool, run).head + pool + 1 <=
                LaterBytes(run, i) + m + Offset(pool, run, i) + |run[i]|
  {
    var n := |run| - 1;
    var before, slot := run[..n], run[n];
    assert run == before + [slot];
    AfterSnoc(pool, before, slot);
    if i < n {
      assert run[i + 1..][..n - i - 1] == before[i + 1..];
      assert LaterBytes(run, i) == LaterBytes(before, i) + |slot|;
      RetentionInvariant(pool, before, i, m);
      LiveSnoc(pool, before, slot, i);
      OffsetStable(pool, before, [slot], i);
      PlacedInPool(pool, before, i);
    }
  }

  lemma PlacedInPool(pool: nat, run: Run, i: nat)
    requires i < |run|
    ensures Offset(pool, run, i) == 0 || Offset(pool, run, i) + |run[i]| <= pool
  {
  }

  // The retention bound: if later slots are at most m bytes each, slot i reads back exactly
  // while they total at most pool + 1 - m - (its own size), whatever their sizes and however
  // the ring wrapped before it.
  lemma Retention(pool: nat, run: Run, i: nat, m: nat)
    requires i < |run|
    requires forall j :: i < j < |run| ==> |run[j]| <= m
    requires LaterBytes(run, i) + |run[i]| + m <= pool + 1
    ensures Live(pool, run, i)
    ensures Offset(pool, run, i) + |run[i]| <= |After(pool, run).buf|
    ensures After(pool, run).buf[Offset(pool, run, i)..Offset(pool, run, i) + |run[i]|] == run[i]
  {
    RetentionInvariant(pool, run, i, m);
    LiveSlotIntact(pool, run, i);
  }

  // With one bound for every slot: pool - 2 * m later bytes are always safe.
  lemma RetentionUniform(pool: nat, run: Run, i: nat, m: nat)
    requires i < |run|
    requires forall j :: i <= j < |run| ==> |run[j]| <= m
    requires LaterBytes(run, i) + 2 * m <= pool
    ensures Live(pool, run, i)
    ensures Offset(pool, run, i) + |run[i]| <= |After(pool, run).buf|
    ensures After(pool, run).buf[Offset(pool, run, i)..Offset(pool, run, i) + |run[i]|] == run[i]
  {
    Retention(pool, run, i, m);
  }

  // Slot i, of n bytes, is lost although the later slots, none above m bytes, total one byte more
  // than the bound allows.
  ghost predicate MissesByOne(pool: nat, run: Run, i: nat, n: nat, m: nat)
  {
    && i < |run| && |run[i]| == n && (forall j :: i < j < |run| ==> |run[j]| <= m)
    && LaterBytes(run, i) + n + m == pool + 2 && !Live(pool, run, i)
  }

  // The bound cannot be raised by a single byte, for any pool: some run misses it by one and has
  // lost the slot exactly when a later slot of m bytes fits in what the bound leaves.  When none
  // does, the later slots are smaller than m and the slot survives.
  lemma RetentionTight(pool: nat, n: nat, m: nat)
    requires n > 0 && m > 0
    ensures (exists run, i: nat :: MissesByOne(pool, run, i, n, m)) <==> n + 2 * m <= pool + 2
  {
    if n + 2 * m <= pool + 2 {
      var run := TightRun(pool, n, m);
      assert MissesByOne(pool, run, 1, n, m);
    } else {
      forall run, i: nat | MissesByOne(pool, run, i, n, m) ensures false {
        var later := run[i + 1..];
        forall j | i < j < |run| ensures |run[j]| <= Total(later) {
          assert run[j] == later[j - i - 1];
          PartOfTotal(later, j - i - 1);
        }
        Retention(pool, run, i, Total(later));
      }
    }
  }

  lemma {:induction false} PartOfTotal(slots: Run, k: nat)
    requires k < |slots|
    ensures |slots[k]| <= Total(slots)
  {
    var n := |slots| - 1;
    if k < n { PartOfTotal(slots[..n], k); }
  }

  // A byte string of n zeros, and slots of at most m of them totalling n.
  function Zeros(n: nat): Bytes { seq(n, _ => 0) }

  function Fillers(n: nat, m: nat): (r: Run)
    requires m > 0
    ensures forall j :: 0 <= j < |r| ==> |r[j]| <= m
  {
    if n == 0 then [] else Fillers(n - Min(n, m), m) + [Zeros(Min(n, m))]
  }

  lemma {:induction false} FillersTotal(n: nat, m: nat)
    requires m > 0
    ensures Total(Fillers(n, m)) == n
  {
    if n > 0 {
      var f := Fillers(n - Min(n, m), m);
      FillersTotal(n - Min(n, m), m);
      TotalSnoc(f, Zeros(Min(n, m)));
    }
  }

  lemma TotalSnoc(slots: Run, slot: Bytes)
    ensures Total(slots + [slot]) == Total(slots) + |slot|
  {
    assert (slots + [slot])[..|slots|] == slots;
  }

  // Fillers that do not wrap move the head by their total.
  lemma {:induction false} FillersMoveHead(pool: nat, run: Run, n: nat, m: nat)
    requires m > 0 && After(pool, run).head + n <= pool
    ensures After(pool, run + Fillers(n, m)).head == After(pool, run).head + n
  {
    hide After;
    if n == 0 {
      assert run + [] == run;
    } else {
      var k := Min(n, m);
      FillersMoveHead(pool, run, n - k, m);
      assert run + Fillers(n, m) == (run + Fillers(n - k, m)) + [Zeros(k)];
      HeadSnoc(pool, run + Fillers(n - k, m), Zeros(k));
    }
  }

  // A slot behind m - 1 bytes, then fillers, then a slot of m bytes that just does not fit any
  // more and comes round to reach one byte into the first.
  lemma TightRun(pool: nat, n: nat, m: nat) returns (run: Run)
    requires n > 0 && m > 0 && n + 2 * m <= pool + 2
    ensures MissesByOne(pool, run, 1, n, m)
  {
    hide After, Offset, Overlaps, Total;
    var rest := pool + 2 - n - 2 * m;
    var start := [Zeros(m - 1)] + [Zeros(n)];
    var later := Fillers(rest, m) + [Zeros(m)];
    run := start + later;
    HeadAfterFillers(pool, n, m, rest);
    WrapsOnto(pool, [Zeros(m - 1)], Zeros(n), Fillers(rest, m), Zeros(m));
    assert run == [Zeros(m - 1)] + [Zeros(n)] + Fillers(rest, m) + [Zeros(m)];
    FillersTotal(rest, m);
    TotalSnoc(Fillers(rest, m), Zeros(m));
    assert run[2..] == later;
  }

  lemma HeadAfterFillers(pool: nat, n: nat, m: nat, rest: nat)
    requires m > 0 && m - 1 + n + rest <= pool
    ensures var r1 := [Zeros(m - 1)];
            && After(pool, r1).head == m - 1
            && After(pool, r1 + [Zeros(n)] + Fillers(rest, m)).head == m - 1 + n + rest
  {
    hide After;
    var r1 := [Zeros(m - 1)];
    NoSlots(pool);
    HeadSnoc(pool, [], Zeros(m - 1));
    assert [] + r1 == r1;
    HeadSnoc(pool, r1, Zeros(n));
    FillersMoveHead(pool, r1 + [Zeros(n)], rest, m);
  }

  // A slot that wraps and is longer than what lies before an earlier one reaches into it.
  lemma WrapsOnto(pool: nat, before: Run, slot: Bytes, between: Run, last: Bytes)
    requires slot != [] && After(pool, before).head + |slot| <= pool
    requires After(pool, before + [slot] + between).head + |last| > pool
    requires |last| > After(pool, before).head
    ensures !Live(pool, before + [slot] + between + [last], |before|)
  {
    hide After;
    var r := before + [slot] + between;
    var run := r + [last];
    assert run[..|before|] == before && run[..|r|] == r;
    assert run[|before|] == slot && run[|r|] == last;
    assert Overlaps(pool, run, |before|, |r|);
  }

  lemma NoSlots(pool: nat)
    ensures After(pool, []).head == 0
  {
  }

  lemma HeadSnoc(pool: nat, run: Run, slot: Bytes)
    ensures After(pool, run + [slot]).head == Place(pool, After(pool, run).head, |slot|) + |slot|
  {
    AfterSnoc(pool, run, slot);
  }
}
