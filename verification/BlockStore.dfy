// The ring and the prefix index together: what a sequence of offered blocks leaves behind.
//
// A block is offered with its key and its slots (one per layer).  A block whose key is already
// indexed is skipped; any other has its slots written to the ring and is indexed.
module BlockStore {
  import opened Bytes
  import opened Hashing
  import opened PrefixCache
  import R = Ring

  // sender and block say which send the block belongs to and its position there.
  datatype Item = Item(key: Hash, sender: nat, block: nat, slots: seq<Bytes>)

  // The offered item an entry stands for, and the place in the run of its first slot.
  datatype Origin = Origin(item: nat, firstSlot: nat)

  datatype Store = Store(run: R.Run, index: map<Hash, Entry>, origin: map<Hash, Origin>)

  ghost function SlotOffsets(pool: nat, run: R.Run, first: nat, n: nat): (r: seq<nat>)
    requires first + n <= |run|
    ensures |r| == n
  {
    seq<nat>(n, l requires 0 <= l < n => R.Offset(pool, run, first + l))
  }

  ghost function EntryFor(pool: nat, blockSize: nat, run: R.Run, first: nat, item: Item): Entry
    requires first + |item.slots| <= |run|
  {
    Entry(item.block, blockSize, SlotOffsets(pool, run, first, |item.slots|), |item.slots|)
  }

  ghost function Offer(pool: nat, blockSize: nat, st: Store, item: Item, position: nat): Store
  {
    if item.key in st.index then st
    else
      var run := st.run + item.slots;
      Store(run,
            st.index[item.key := EntryFor(pool, blockSize, run, |st.run|, item)],
            st.origin[item.key := Origin(position, |st.run|)])
  }

  ghost function AfterItems(pool: nat, blockSize: nat, items: seq<Item>): Store
  {
    if items == [] then Store([], map[], map[])
    else
      var n := |items| - 1;
      Offer(pool, blockSize, AfterItems(pool, blockSize, items[..n]), items[n], n)
  }

  // Item i is the first offered under key h.
  ghost predicate FirstOffered(items: seq<Item>, h: Hash, i: nat)
  {
    i < |items| && items[i].key == h && forall j :: 0 <= j < i ==> items[j].key != h
  }

  // The entry of key h stands for the first item offered under it: the slots in the run are that
  // item's slots, and the recorded offsets are theirs.
  ghost predicate Traced(pool: nat, blockSize: nat, items: seq<Item>, st: Store, h: Hash)
  {
    && h in st.index && h in st.origin
    && var o := st.origin[h];
       && FirstOffered(items, h, o.item)
       && o.firstSlot + |items[o.item].slots| <= |st.run|
       && st.run[o.firstSlot..o.firstSlot + |items[o.item].slots|] == items[o.item].slots
       && st.index[h] == EntryFor(pool, blockSize, st.run, o.firstSlot, items[o.item])
  }

  lemma OffsetsStable(pool: nat, run: R.Run, more: R.Run, first: nat, n: nat)
    requires first + n <= |run|
    ensures SlotOffsets(pool, run + more, first, n) == SlotOffsets(pool, run, first, n)
    ensures (run + more)[first..first + n] == run[first..first + n]
  {
    forall i | first <= i < first + n
      ensures R.Offset(pool, run + more, i) == R.Offset(pool, run, i)
    {
      R.OffsetStable(pool, run, more, i);
    }
    var x, y := SlotOffsets(pool, run + more, first, n), SlotOffsets(pool, run, first, n);
    assert forall l :: 0 <= l < n ==> x[l] == y[l];
  }

  // One more slot adds its own offset.
  lemma OffsetsSnoc(pool: nat, run: R.Run, slot: Bytes, first: nat, n: nat)
    requires first + n == |run|
    ensures SlotOffsets(pool, run + [slot], first, n + 1) ==
            SlotOffsets(pool, run, first, n) + [R.Offset(pool, run + [slot], |run|)]
  {
    OffsetsStable(pool, run, [slot], first, n);
    var x, y := SlotOffsets(pool, run + [slot], first, n + 1), SlotOffsets(pool, run + [slot], first, n);
    assert x == y + [R.Offset(pool, run + [slot], |run|)];
  }

  lemma OneMoreOffset(pool: nat, start: R.Run, slots: seq<Bytes>, l: nat)
    requires l < |slots|
    ensures start + slots[..l + 1] == (start + slots[..l]) + [slots[l]]
    ensures SlotOffsets(pool, start + slots[..l + 1], |start|, l + 1) ==
            SlotOffsets(pool, start + slots[..l], |start|, l) +
            [R.Offset(pool, start + slots[..l + 1], |start| + l)]
  {
    AppendOneMore(start, slots, l);
    OffsetsSnoc(pool, start + slots[..l], slots[l], |start|, l);
  }

  // Offering one more item.
  lemma AfterItemsSnoc(pool: nat, blockSize: nat, items: seq<Item>, item: Item)
    ensures AfterItems(pool, blockSize, items + [item]) ==
            Offer(pool, blockSize, AfterItems(pool, blockSize, items), item, |items|)
  {
    assert (items + [item])[..|items|] == items;
  }

  // Writing more slots and offering more items leave an entry's trace as it is.
  lemma TracedStable(pool: nat, blockSize: nat, items: seq<Item>, more: seq<Item>, st: Store, st': Store, h: Hash)
    requires Traced(pool, blockSize, items, st, h)
    requires st.run <= st'.run && h in st'.index && h in st'.origin
    requires st'.index[h] == st.index[h] && st'.origin[h] == st.origin[h]
    ensures Traced(pool, blockSize, items + more, st', h)
  {
    var o := st.origin[h];
    var added := st'.run[|st.run|..];
    assert st'.run == st.run + added;
    assert (items + more)[o.item] == items[o.item];
    OffsetsStable(pool, st.run, added, o.firstSlot, |items[o.item].slots|);
  }

  // After any items: every offered key is indexed, nothing else is, and every entry stands for
  // the first item offered under its key.
  lemma {:induction false} AfterItemsTraced(pool: nat, blockSize: nat, items: seq<Item>)
    ensures var st := AfterItems(pool, blockSize, items);
            && (forall i :: 0 <= i < |items| ==> items[i].key in st.index)
            && (forall h :: h in st.index ==> Traced(pool, blockSize, items, st, h))
  {
    if items != [] {
      var n := |items| - 1;
      var before, item := items[..n], items[n];
      assert items == before + [item];
      AfterItemsTraced(pool, blockSize, before);
      var st := AfterItems(pool, blockSize, before);
      var st' := AfterItems(pool, blockSize, items);
      assert st' == Offer(pool, blockSize, st, item, n);
      forall h | h in st'.index ensures Traced(pool, blockSize, items, st', h) {
        if h in st.index {
          TracedStable(pool, blockSize, before, [item], st, st', h);
        } else {
          forall j | 0 <= j < n ensures items[j].key != h { assert before[j].key in st.index; }
          NewEntryTraced(pool, blockSize, items, st);
        }
      }
    }
  }

  lemma OfferedIsIndexed(pool: nat, blockSize: nat, items: seq<Item>, i: nat)
    requires i < |items|
    ensures items[i].key in AfterItems(pool, blockSize, items).index
  {
    AfterItemsTraced(pool, blockSize, items);
  }

  lemma NewEntryTraced(pool: nat, blockSize: nat, items: seq<Item>, st: Store)
    requires items != []
    requires FirstOffered(items, items[|items| - 1].key, |items| - 1)
    requires items[|items| - 1].key !in st.index
    ensures var n := |items| - 1;
            Traced(pool, blockSize, items, Offer(pool, blockSize, st, items[n], n), items[n].key)
  {
    var item := items[|items| - 1];
    assert (st.run + item.slots)[|st.run|..|st.run| + |item.slots|] == item.slots;
  }

  // The run only grows.
  lemma {:induction false} RunGrows(pool: nat, blockSize: nat, items: seq<Item>, more: seq<Item>)
    ensures AfterItems(pool, blockSize, items).run <= AfterItems(pool, blockSize, items + more).run
  {
    if more == [] {
      assert items + more == items;
    } else {
      var n := |more| - 1;
      assert (items + more)[..|items| + n] == items + more[..n];
      RunGrows(pool, blockSize, items, more[..n]);
    }
  }
}
