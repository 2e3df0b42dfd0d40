/** The used ring of a split virtqueue and its publication, one entry at a time
    and in batches (update_used_ring and update_used_ring_batch in
    tools/virtio/virtio.c). Ring positions are index & (num - 1); indices are
    16 bits wide. */
module VirtQueues {
  import opened Words

  datatype Elem = Elem(id: u16, len: nat)

  datatype Used = Used(ring: seq<Elem>, idx: u16)

  /** Queue sizes are powers of two up to 2^15. */
  predicate ValidSize(num: nat) {
    exists k :: 0 <= k <= 15 && num == Pow2(k)
  }

  /** The ring position of an index. */
  function Slot(x: nat, num: nat): (r: nat)
    requires num > 0
    ensures r < num
  {
    x % num
  }

  /** The code masks the index with num - 1, which is the same for every queue size. */
  lemma {:induction false} SlotIsMask(x: nat, num: nat)
    requires ValidSize(num)
    ensures num > 0 && Slot(x, num) == And(x, num - 1)
  {
    var k :| 0 <= k <= 15 && num == Pow2(k);
    MaskIsMod(x, k);
  }

  lemma {:induction false} TwoTo16()
    ensures Pow2(16) == TWO16
  {
    assert Pow2(8) == 0x100;
    assert Pow2(12) == 0x1000;
  }

  lemma {:induction false} WrapMod(x: nat, k: nat)
    requires k <= 16
    ensures Wrap16(x) % Pow2(k) == x % Pow2(k)
  {
    TwoTo16();
    var j := 16 - k;
    ModMod(x, k, j);
    assert k + j == 16;
  }

  /** The position of an index does not depend on where the index wrapped. */
  lemma {:induction false} SlotWrap(x: nat, num: nat)
    requires ValidSize(num)
    ensures num > 0 && Slot(Wrap16(x), num) == Slot(x, num)
  {
    var k :| 0 <= k <= 15 && num == Pow2(k);
    WrapMod(x, k);
  }

  lemma {:induction false} SlotsDistinct(i: nat, j: nat, num: nat)
    requires i < j < i + num
    ensures Slot(i, num) != Slot(j, num)
  {
    ModDistinct(i, j, num);
  }

  predicate ValidUsed(u: Used, num: nat) { |u.ring| == num > 0 }

  // ------------------------------------------------------------------ single and batched publication

  function Put(u: Used, num: nat, e: Elem): (r: Used)
    requires ValidUsed(u, num)
    ensures ValidUsed(r, num)
  {
    Used(u.ring[Slot(u.idx, num) := e], Wrap16(u.idx + 1))
  }

  function PutAll(u: Used, num: nat, es: seq<Elem>): (r: Used)
    requires ValidUsed(u, num)
    ensures ValidUsed(r, num)
  {
    if es == [] then u else Put(PutAll(u, num, es[..|es| - 1]), num, es[|es| - 1])
  }

  /** The ring after the batch loop; positions are computed from the unwrapped sum. */
  function BatchRing(ring: seq<Elem>, num: nat, idx: u16, es: seq<Elem>): (r: seq<Elem>)
    requires |ring| == num > 0
    ensures |r| == num
  {
    if es == [] then ring
    else
      var n := |es| - 1;
      BatchRing(ring, num, idx, es[..n])[Slot(idx + n, num) := es[n]]
  }

  function Batch(u: Used, num: nat, es: seq<Elem>): (r: Used)
    requires ValidUsed(u, num)
    ensures ValidUsed(r, num)
  {
    Used(BatchRing(u.ring, num, u.idx, es), Wrap16(u.idx + |es|))
  }

  lemma {:induction false} WrapNext(x: nat)
    ensures Wrap16(Wrap16(x) + 1) == Wrap16(x + 1)
  {}

  /** Publishing at an index that wrapped is publishing at the unwrapped position. */
  lemma {:induction false} PutUnwrapped(u: Used, num: nat, pos: nat, e: Elem)
    requires ValidUsed(u, num) && ValidSize(num) && u.idx == Wrap16(pos)
    ensures Put(u, num, e) == Used(u.ring[Slot(pos, num) := e], Wrap16(pos + 1))
  {
    SlotWrap(pos, num);
    WrapNext(pos);
  }

  /** Batched publication is the same as publishing one by one, from any index, across any
      wrap-around, for any list. */
  lemma {:induction false} BatchRefinesSingle(u: Used, num: nat, es: seq<Elem>)
    requires ValidUsed(u, num) && ValidSize(num)
    ensures Batch(u, num, es) == PutAll(u, num, es)
    decreases es
  {
    if es == [] {
      WrapSame(u.idx);
    } else {
      var n := |es| - 1;
      BatchRefinesSingle(u, num, es[..n]);
      PutUnwrapped(PutAll(u, num, es[..n]), num, u.idx + n, es[n]);
    }
  }

  /** The position of the `j`-th entry after index `idx`. */
  function At(idx: u16, j: nat, num: nat): (r: nat)
    requires num > 0
    ensures r < num
  {
    Slot(idx + j, num)
  }

  lemma {:induction false} AtDistinct(idx: u16, i: nat, j: nat, num: nat)
    requires i < j < i + num
    ensures At(idx, i, num) != At(idx, j, num)
  {
    SlotsDistinct(idx + i, idx + j, num);
  }

  /** What the ring holds afterwards: the published entries at their positions, and every
      other position as before. */
  lemma {:induction false} BatchRingHolds(ring: seq<Elem>, num: nat, idx: u16, es: seq<Elem>)
    requires |ring| == num > 0 && |es| <= num
    ensures forall j :: 0 <= j < |es| ==> BatchRing(ring, num, idx, es)[At(idx, j, num)] == es[j]
    ensures forall k :: 0 <= k < num && (forall j :: 0 <= j < |es| ==> At(idx, j, num) != k) ==>
              BatchRing(ring, num, idx, es)[k] == ring[k]
  {
    if es != [] {
      var n := |es| - 1;
      BatchRingHolds(ring, num, idx, es[..n]);
      forall j | 0 <= j < n ensures At(idx, j, num) != At(idx, n, num) {
        AtDistinct(idx, j, n, num);
      }
    }
  }

  // ------------------------------------------------------------------ order of the stores

  /** A store to the used ring, as the driver may observe it. */
  datatype Store = StoreId(slot: nat, id: u16) | StoreLen(slot: nat, len: nat) | StoreIdx(idx: u16)

  function Apply(u: Used, num: nat, w: Store): (r: Used)
    requires ValidUsed(u, num)
    ensures ValidUsed(r, num)
  {
    match w
    case StoreId(slot, id) => if slot < num then u.(ring := u.ring[slot := u.ring[slot].(id := id)]) else u
    case StoreLen(slot, len) => if slot < num then u.(ring := u.ring[slot := u.ring[slot].(len := len)]) else u
    case StoreIdx(idx) => u.(idx := idx)
  }

  function Replay(u: Used, num: nat, log: seq<Store>): (r: Used)
    requires ValidUsed(u, num)
    ensures ValidUsed(r, num)
  {
    if log == [] then u else Apply(Replay(u, num, log[..|log| - 1]), num, log[|log| - 1])
  }

  /** The stores of the batch loop, in order. */
  function EntryStores(num: nat, idx: u16, es: seq<Elem>): (r: seq<Store>)
    requires num > 0
  {
    if es == [] then []
    else
      var n := |es| - 1;
      EntryStores(num, idx, es[..n]) + [StoreId(Slot(idx + n, num), es[n].id), StoreLen(Slot(idx + n, num), es[n].len)]
  }

  function BatchStores(num: nat, idx: u16, es: seq<Elem>): (r: seq<Store>)
    requires num > 0
  {
    if es == [] then [] else EntryStores(num, idx, es) + [StoreIdx(Wrap16(idx + |es|))]
  }

  /** How many entries an index exposes to a driver that has seen those up to `start`. */
  function Exposed(start: u16, idx: u16): nat { Wrap16(idx - start) }

  /** All entries the index exposes since `start` have been written. */
  predicate ExposesOnlyWritten(start: u16, now: Used, num: nat, es: seq<Elem>)
    requires ValidUsed(now, num)
  {
    var exposed := Exposed(start, now.idx);
    && exposed <= |es|
    && forall j :: 0 <= j < exposed ==> now.ring[At(start, j, num)] == es[j]
  }

  lemma {:induction false} ReplayAppend(u: Used, num: nat, log: seq<Store>, w: Store)
    requires ValidUsed(u, num)
    ensures Replay(u, num, log + [w]) == Apply(Replay(u, num, log), num, w)
  {
    assert (log + [w])[..|log|] == log;
  }

  lemma {:induction false} EntriesReplay(u: Used, num: nat, es: seq<Elem>)
    requires ValidUsed(u, num)
    ensures Replay(u, num, EntryStores(num, u.idx, es)) == Used(BatchRing(u.ring, num, u.idx, es), u.idx)
  {
    if es != [] {
      var n := |es| - 1;
      var head := EntryStores(num, u.idx, es[..n]);
      var slot := Slot(u.idx + n, num);
      EntriesReplay(u, num, es[..n]);
      ReplayAppend(u, num, head, StoreId(slot, es[n].id));
      ReplayAppend(u, num, head + [StoreId(slot, es[n].id)], StoreLen(slot, es[n].len));
      assert EntryStores(num, u.idx, es) == (head + [StoreId(slot, es[n].id)]) + [StoreLen(slot, es[n].len)];
    }
  }

  lemma {:induction false} NoIndexStore(num: nat, idx: u16, es: seq<Elem>)
    requires num > 0
    ensures forall w :: w in EntryStores(num, idx, es) ==> !w.StoreIdx?
  {
    if es != [] { NoIndexStore(num, idx, es[..|es| - 1]); }
  }

  lemma {:induction false} IndexStays(u: Used, num: nat, log: seq<Store>)
    requires ValidUsed(u, num) && forall w :: w in log ==> !w.StoreIdx?
    ensures Replay(u, num, log).idx == u.idx
  {
    if log != [] { IndexStays(u, num, log[..|log| - 1]); }
  }

  /** Before the last store of a batch the index has not moved. */
  lemma {:induction false} IndexHeldBack(u: Used, num: nat, es: seq<Elem>, k: nat)
    requires ValidUsed(u, num) && k < |BatchStores(num, u.idx, es)|
    ensures Replay(u, num, BatchStores(num, u.idx, es)[..k]).idx == u.idx
  {
    var stores := BatchStores(num, u.idx, es);
    var entries := EntryStores(num, u.idx, es);
    NoIndexStore(num, u.idx, es);
    assert stores[..k] == entries[..k];
    IndexStays(u, num, entries[..k]);
  }

  lemma {:induction false} ReplayIndex(u: Used, num: nat, log: seq<Store>, idx: u16)
    requires ValidUsed(u, num)
    ensures Replay(u, num, log + [StoreIdx(idx)]) == Replay(u, num, log).(idx := idx)
  {
    ReplayAppend(u, num, log, StoreIdx(idx));
  }

  lemma {:induction false} NothingToReplay(u: Used, num: nat)
    requires ValidUsed(u, num)
    ensures Replay(u, num, BatchStores(num, u.idx, [])) == Batch(u, num, [])
  {
    WrapSame(u.idx);
  }

  lemma {:induction false} BatchReplay(u: Used, num: nat, es: seq<Elem>)
    requires ValidUsed(u, num) && es != []
    ensures Replay(u, num, BatchStores(num, u.idx, es)) == Batch(u, num, es)
  {
    var entries := EntryStores(num, u.idx, es);
    var idx := Wrap16(u.idx + |es|);
    assert BatchStores(num, u.idx, es) == entries + [StoreIdx(idx)];
    ReplayIndex(u, num, entries, idx);
    EntriesReplay(u, num, es);
  }

  lemma {:induction false} WrapSame(x: u16)
    ensures Wrap16(x) == x
  {}

  lemma {:induction false} BatchExposes(u: Used, num: nat, es: seq<Elem>)
    requires ValidUsed(u, num) && |es| <= num <= 0x8000
    ensures ExposesOnlyWritten(u.idx, Batch(u, num, es), num, es)
  {
    BatchRingHolds(u.ring, num, u.idx, es);
    ExposedAll(u.idx, |es|);
  }

  /** Whenever the driver looks, between any two stores of a batch, the index covers only
      entries that are completely written. */
  lemma {:induction false} IndexComesLast(u: Used, num: nat, es: seq<Elem>, k: nat)
    requires ValidUsed(u, num) && |es| <= num <= 0x8000 && k <= |BatchStores(num, u.idx, es)|
    ensures ExposesOnlyWritten(u.idx, Replay(u, num, BatchStores(num, u.idx, es)[..k]), num, es)
  {
    var stores := BatchStores(num, u.idx, es);
    if k < |stores| {
      IndexHeldBack(u, num, es, k);
      ExposedNone(u.idx);
    } else {
      assert stores[..k] == stores;
      if es == [] { NothingToReplay(u, num); } else { BatchReplay(u, num, es); }
      BatchExposes(u, num, es);
    }
  }

  lemma {:induction false} SizeBound(num: nat)
    requires ValidSize(num)
    ensures 0 < num <= 0x8000
  {
    var k :| 0 <= k <= 15 && num == Pow2(k);
    Pow2Mono(k, 15);
    TwoTo16();
    assert Pow2(16) == 2 * Pow2(15);
  }

  lemma {:induction false} Pow2Mono(a: nat, b: nat)
    requires a <= b
    ensures Pow2(a) <= Pow2(b)
    decreases b
  {
    if a < b { Pow2Mono(a, b - 1); }
  }

  lemma {:induction false} ExposedAll(start: u16, n: nat)
    requires n < TWO16
    ensures Exposed(start, Wrap16(start + n)) == n
  {
    WrapDiff(start + n, start);
  }

  lemma {:induction false} ExposedNone(start: u16)
    ensures Exposed(start, start) == 0
  {}

  // ------------------------------------------------------------------ the code

  function Pairs(ids: seq<u16>, lens: seq<nat>): (r: seq<Elem>)
    requires |ids| == |lens|
    ensures |r| == |ids|
  {
    seq(|ids|, i requires 0 <= i < |ids| => Elem(ids[i], lens[i]))
  }

  /** last_avail_idx after process_descriptor_chain_buf returned `ret`. */
  function AfterWalk(last: u16, ret: int): u16 { if ret >= 0 then Wrap16(last + 1) else last }

  /** The three stores of one entry publish it. */
  lemma {:induction false} StoresOfOne(u: Used, num: nat, e: Elem)
    requires ValidUsed(u, num)
    ensures var slot := Slot(u.idx, num);
            && BatchStores(num, u.idx, [e]) == [StoreId(slot, e.id), StoreLen(slot, e.len), StoreIdx(Wrap16(u.idx + 1))]
            && Apply(Apply(Apply(u, num, StoreId(slot, e.id)), num, StoreLen(slot, e.len)), num,
                     StoreIdx(Wrap16(u.idx + 1))) == Put(u, num, e)
  {
    assert [e][..0] == [];
    assert EntryStores(num, u.idx, []) == [];
  }

  /** The stores of a batch publish it. */
  lemma {:induction false} StoresOfBatch(u: Used, num: nat, es: seq<Elem>)
    requires ValidUsed(u, num) && ValidSize(num) && es != []
    ensures BatchStores(num, u.idx, es) == EntryStores(num, u.idx, es) + [StoreIdx(Wrap16(u.idx + |es|))]
    ensures Apply(Replay(u, num, EntryStores(num, u.idx, es)), num, StoreIdx(Wrap16(u.idx + |es|)))
            == PutAll(u, num, es)
    ensures Replay(u, num, BatchStores(num, u.idx, es)) == PutAll(u, num, es)
  {
    BatchRefinesSingle(u, num, es);
    BatchReplay(u, num, es);
    ReplayIndex(u, num, EntryStores(num, u.idx, es), Wrap16(u.idx + |es|));
  }

  lemma {:induction false} ReplayThree(u: Used, num: nat, a: Store, b: Store, c: Store)
    requires ValidUsed(u, num)
    ensures Replay(u, num, [a, b, c]) == Apply(Apply(Apply(u, num, a), num, b), num, c)
  {
    ReplayAppend(u, num, [], a);
    ReplayAppend(u, num, [a], b);
    ReplayAppend(u, num, [a, b], c);
    assert [] + [a] == [a] && [a] + [b] == [a, b] && [a, b] + [c] == [a, b, c];
  }

  lemma {:induction false} LogSuffix(log: seq<Store>, stores: seq<Store>)
    ensures (log + stores)[|log|..] == stores
  {}

  /** A split virtqueue. The driver writes the available ring; the device keeps
      `last_avail_idx` and writes the used ring, one store at a time. */
  class VirtQueue {
    const num: nat
    const avail: array<u16>
    var availIdx: u16
    var lastAvail: u16
    const used: array<Elem>
    var usedIdx: u16
    ghost var log: seq<Store>  // stores to the used ring, in program order

    ghost predicate Valid() {
      ValidSize(num) && used.Length == avail.Length == num > 0
    }

    function UsedState(): Used
      reads this`usedIdx, used
    {
      Used(used[..], usedIdx)
    }

    /** vq_is_empty. */
    predicate Empty()
      reads this`lastAvail, this`availIdx
    {
      lastAvail == availIdx
    }

    constructor (size: nat)
      requires ValidSize(size)
      ensures Valid() && num == size && availIdx == 0 && lastAvail == 0 && usedIdx == 0 && log == []
      ensures fresh(used) && fresh(avail)
    {
      SizeBound(size);
      num, availIdx, lastAvail, usedIdx, log := size, 0, 0, 0, [];
      avail := new u16[size](_ => 0);
      used := new Elem[size](_ => Elem(0, 0));
    }

    method PutId(slot: nat, id: u16)
      requires Valid() && slot < num
      modifies this`log, used
      ensures UsedState() == Apply(old(UsedState()), num, StoreId(slot, id))
      ensures log == old(log) + [StoreId(slot, id)]
    {
      used[slot] := used[slot].(id := id);
      log := log + [StoreId(slot, id)];
    }

    method PutLen(slot: nat, len: nat)
      requires Valid() && slot < num
      modifies this`log, used
      ensures UsedState() == Apply(old(UsedState()), num, StoreLen(slot, len))
      ensures log == old(log) + [StoreLen(slot, len)]
    {
      used[slot] := used[slot].(len := len);
      log := log + [StoreLen(slot, len)];
    }

    method PutIdx(idx: u16)
      requires Valid()
      modifies this`log, this`usedIdx
      ensures UsedState() == Apply(old(UsedState()), num, StoreIdx(idx))
      ensures log == old(log) + [StoreIdx(idx)]
    {
      usedIdx := idx;
      log := log + [StoreIdx(idx)];
    }

    /** update_used_ring. */
    method UpdateUsedRing(id: u16, len: nat)
      requires Valid()
      modifies this`usedIdx, this`log, used
      ensures UsedState() == Put(old(UsedState()), num, Elem(id, len))
      ensures log == old(log) + BatchStores(num, old(usedIdx), [Elem(id, len)])
      ensures Replay(old(UsedState()), num, log[|old(log)|..]) == UsedState()
    {
      ghost var u := UsedState();
      var idx: int := usedIdx;
      var slot := Slot(idx, num);
      StoresOfOne(u, num, Elem(id, len));
      ReplayThree(u, num, StoreId(slot, id), StoreLen(slot, len), StoreIdx(Wrap16(idx + 1)));
      PutId(slot, id);
      PutLen(slot, len);
      PutIdx(Wrap16(idx + 1));
      assert log[|old(log)|..] == BatchStores(num, old(usedIdx), [Elem(id, len)]);
    }

    /** The two stores of entry `i` of a batch. */
    method WriteEntry(i: nat, id: u16, len: nat)
      requires Valid()
      modifies this`log, used
      ensures var slot := Slot(usedIdx + i, num);
              && UsedState() == Apply(Apply(old(UsedState()), num, StoreId(slot, id)), num, StoreLen(slot, len))
              && log == old(log) + [StoreId(slot, id), StoreLen(slot, len)]
    {
      var slot := Slot(usedIdx + i, num);
      PutId(slot, id);
      PutLen(slot, len);
    }

    /** The loop of the batch: all entries, no index. */
    method WriteEntries(ids: array<u16>, lens: array<nat>, count: nat)
      requires Valid() && count <= ids.Length && count <= lens.Length
      requires used as object != ids && used as object != lens
      modifies this`log, used
      ensures UsedState()
              == Replay(old(UsedState()), num, EntryStores(num, usedIdx, Pairs(ids[..count], lens[..count])))
      ensures log == old(log) + EntryStores(num, usedIdx, Pairs(ids[..count], lens[..count]))
      ensures ids[..count] == old(ids[..count]) && lens[..count] == old(lens[..count])
    {
      ghost var u := UsedState();
      ghost var es := Pairs(ids[..count], lens[..count]);
      var i := 0;
      assert es[..0] == [] && log == old(log) + [];
      while i < count
        invariant 0 <= i <= count
        invariant ids[..count] == old(ids[..count]) && lens[..count] == old(lens[..count])
        invariant Stored(u, num, es, i, UsedState(), old(log), log)
      {
        StoredNext(u, num, es, i, UsedState(), old(log), log);
        assert es[i] == Elem(ids[..count][i], lens[..count][i]);
        WriteEntry(i, ids[i], lens[i]);
        i := i + 1;
      }
      assert es[..count] == es;
    }

    /** update_used_ring_batch. */
    method UpdateUsedRingBatch(ids: array<u16>, lens: array<nat>, count: nat)
      requires Valid() && count <= ids.Length && count <= lens.Length
      requires used as object != ids && used as object != lens
      modifies this`usedIdx, this`log, used
      ensures UsedState() == PutAll(old(UsedState()), num, Pairs(old(ids[..count]), old(lens[..count])))
      ensures log == old(log) + BatchStores(num, old(usedIdx), Pairs(old(ids[..count]), old(lens[..count])))
      ensures Replay(old(UsedState()), num, log[|old(log)|..]) == UsedState()
    {
      ghost var u := UsedState();
      ghost var es := Pairs(ids[..count], lens[..count]);
      LogSuffix(log, BatchStores(num, usedIdx, es));
      if count == 0 {
        assert es == [] && log + [] == log;
        return;
      }
      StoresOfBatch(u, num, es);
      WriteEntries(ids, lens, count);
      ghost var entries := EntryStores(num, u.idx, es);
      assert log == old(log) + entries;
      PutIdx(Wrap16(usedIdx + count));
      assert log == old(log) + BatchStores(num, u.idx, es);
    }
  }

  /** The first `i` entries of a batch are stored and logged, and the index has not moved. */
  ghost predicate Stored(u: Used, num: nat, es: seq<Elem>, i: nat, now: Used, log0: seq<Store>, log: seq<Store>) {
    && ValidUsed(u, num) && ValidUsed(now, num) && now.idx == u.idx && i <= |es|
    && now == Replay(u, num, EntryStores(num, u.idx, es[..i])) && log == log0 + EntryStores(num, u.idx, es[..i])
  }

  lemma {:induction false} StoredNext(u: Used, num: nat, es: seq<Elem>, i: nat, now: Used, log0: seq<Store>,
                                      log: seq<Store>)
    requires Stored(u, num, es, i, now, log0, log) && i < |es|
    ensures var slot := Slot(u.idx + i, num);
            Stored(u, num, es, i + 1, Apply(Apply(now, num, StoreId(slot, es[i].id)), num, StoreLen(slot, es[i].len)),
                   log0, log + [StoreId(slot, es[i].id), StoreLen(slot, es[i].len)])
  {
    EntryStoresNext(u, num, u.idx, es, i);
  }

  lemma {:induction false} EntryStoresNext(u: Used, num: nat, idx: u16, es: seq<Elem>, i: nat)
    requires ValidUsed(u, num) && i < |es|
    ensures var slot := Slot(idx + i, num);
            var before, after := EntryStores(num, idx, es[..i]), EntryStores(num, idx, es[..i + 1]);
            && after == before + [StoreId(slot, es[i].id), StoreLen(slot, es[i].len)]
            && Replay(u, num, after) == Apply(Apply(Replay(u, num, before), num, StoreId(slot, es[i].id)), num,
                                              StoreLen(slot, es[i].len))
  {
    var slot := Slot(idx + i, num);
    var before, after := EntryStores(num, idx, es[..i]), EntryStores(num, idx, es[..i + 1]);
    assert es[..i + 1][..i] == es[..i];
    ReplayAppend(u, num, before, StoreId(slot, es[i].id));
    ReplayAppend(u, num, before + [StoreId(slot, es[i].id)], StoreLen(slot, es[i].len));
    assert after == (before + [StoreId(slot, es[i].id)]) + [StoreLen(slot, es[i].len)];
  }
}
