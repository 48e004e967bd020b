/** The expert cache of src/model_graph.c: slices of stacked expert tensors, the least recently used slot
    given up when the cache is full. Slot memory is reached by handles that are never reused; a handle
    is good for as long as some slot holds it. */
module ExpertCache {
  import opened Division

  /** blk.N.ffn_gate_exps, ffn_up_exps and ffn_down_exps are kinds 0, 1 and 2. */
  datatype TensorName = TensorName(layer: nat, kind: nat)

  /** Experts is the third dimension, 1 for a flat tensor; a block of blockSize weights takes blockBytes. */
  datatype Tensor = Tensor(bytes: seq<nat>, experts: nat, blockSize: nat, blockBytes: nat)

  type Source = map<TensorName, Tensor>

  datatype Key = Key(layer: nat, expert: nat, kind: nat)

  datatype Slot = Slot(key: Key, handle: nat, data: seq<nat>, outDim: nat, inDim: nat, lastUse: nat)

  datatype Status = Ok | Invalid | Missing | Format

  /** expert_stride. */
  function Stride(t: Tensor, outDim: nat, inDim: nat): nat {
    if t.blockSize == 0 then 0 else inDim * outDim / t.blockSize * t.blockBytes
  }

  function Offset(expert: nat, stride: nat): nat {
    expert * stride
  }

  /** The checks of acquire_expert, in order. */
  function Check(source: Source, k: Key, outDim: nat, inDim: nat): Status {
    if k.kind > 2 then Invalid
    else if TensorName(k.layer, k.kind) !in source then Missing
    else
      var t := source[TensorName(k.layer, k.kind)];
      var stride := Stride(t, outDim, inDim);
      if k.expert >= t.experts || stride == 0 || Offset(k.expert + 1, stride) > |t.bytes| then Format else Ok
  }

  lemma OffsetStep(expert: nat, stride: nat)
    ensures Offset(expert + 1, stride) == Offset(expert, stride) + stride
  {
  }

  /** The slice [e * stride, (e + 1) * stride) of the named tensor. */
  function Slice(source: Source, k: Key, outDim: nat, inDim: nat): seq<nat>
    requires Check(source, k, outDim, inDim) == Ok
  {
    var t := source[TensorName(k.layer, k.kind)];
    var stride := Stride(t, outDim, inDim);
    OffsetStep(k.expert, stride);
    t.bytes[Offset(k.expert, stride)..Offset(k.expert + 1, stride)]
  }

  /** The bytes of a stacked tensor: one expert's after the other's. */
  function Stacked(experts: seq<seq<nat>>): seq<nat> {
    if experts == [] then [] else experts[0] + Stacked(experts[1..])
  }

  lemma {:induction false} ExpertInStack(experts: seq<seq<nat>>, stride: nat, e: nat)
    requires forall i :: 0 <= i < |experts| ==> |experts[i]| == stride
    requires e < |experts|
    ensures Offset(e + 1, stride) <= |Stacked(experts)|
    ensures Stacked(experts)[Offset(e, stride)..Offset(e + 1, stride)] == experts[e]
  {
    OffsetStep(e, stride);
    if e > 0 {
      var head, rest, at := experts[0], Stacked(experts[1..]), Offset(e - 1, stride);
      OffsetStep(e - 1, stride);
      ExpertInStack(experts[1..], stride, e - 1);
      assert (head + rest)[at + stride..at + stride + stride] == rest[at..at + stride];
    }
  }

  /** Of a tensor that stacks its experts' matrices, each of as many whole blocks as outDim * inDim weights fill, the
      slice of expert e is that expert's matrix; of an expert that there is not, there is no slice. */
  lemma SliceIsExpert(source: Source, k: Key, outDim: nat, inDim: nat, experts: seq<seq<nat>>, blocks: nat)
    requires k.kind <= 2 && TensorName(k.layer, k.kind) in source
    requires var t := source[TensorName(k.layer, k.kind)];
             t.bytes == Stacked(experts) && t.experts == |experts| && t.blockBytes > 0 && t.blockSize > 0 &&
             0 < blocks * t.blockSize <= outDim * inDim < blocks * t.blockSize + t.blockSize &&
             forall e :: 0 <= e < |experts| ==> |experts[e]| == blocks * t.blockBytes
    ensures Check(source, k, outDim, inDim) == if k.expert < |experts| then Ok else Format
    ensures k.expert < |experts| ==> Slice(source, k, outDim, inDim) == experts[k.expert]
  {
    var t := source[TensorName(k.layer, k.kind)];
    DivUnique(inDim * outDim, t.blockSize, blocks, inDim * outDim - blocks * t.blockSize);
    assert Stride(t, outDim, inDim) == blocks * t.blockBytes > 0;
    if k.expert < |experts| {
      ExpertInStack(experts, blocks * t.blockBytes, k.expert);
    }
  }

  /** Without a layout of whole blocks, or with matrices smaller than one, no slice is there. */
  lemma NoSlice(source: Source, k: Key, outDim: nat, inDim: nat)
    requires k.kind <= 2 && TensorName(k.layer, k.kind) in source
    requires var t := source[TensorName(k.layer, k.kind)];
             t.blockBytes == 0 || outDim * inDim < t.blockSize || t.blockSize == 0
    ensures Check(source, k, outDim, inDim) == Format
  {
    var t := source[TensorName(k.layer, k.kind)];
    if t.blockSize > 0 && outDim * inDim < t.blockSize {
      DivUnique(inDim * outDim, t.blockSize, 0, inDim * outDim);
    }
  }

  /** Every slot holds the slice its key and dimensions name. */
  ghost predicate Faithful(source: Source, slots: seq<Slot>) {
    forall i :: 0 <= i < |slots| ==>
      Check(source, slots[i].key, slots[i].outDim, slots[i].inDim) == Ok &&
      slots[i].data == Slice(source, slots[i].key, slots[i].outDim, slots[i].inDim)
  }

  /** Stamps and handles are those given out so far, each held by the slot the books name. */
  ghost predicate Stamped(slots: seq<Slot>, clock: nat, nextHandle: nat, byStamp: map<nat, nat>,
                          byHandle: map<nat, nat>)
  {
    forall i :: 0 <= i < |slots| ==>
      slots[i].lastUse <= clock && slots[i].lastUse in byStamp && byStamp[slots[i].lastUse] == i &&
      slots[i].handle < nextHandle && slots[i].handle in byHandle && byHandle[slots[i].handle] == i
  }

  /** No two live slots share a stamp or a handle. */
  lemma StampsDistinct(slots: seq<Slot>, clock: nat, nextHandle: nat, byStamp: map<nat, nat>, byHandle: map<nat, nat>)
    requires Stamped(slots, clock, nextHandle, byStamp, byHandle)
    ensures forall i, j :: 0 <= i < j < |slots| ==>
              slots[i].lastUse != slots[j].lastUse && slots[i].handle != slots[j].handle
  {
  }

  /** How many slots were used after stamp u. */
  function Newer(slots: seq<Slot>, u: nat): nat {
    if slots == [] then 0 else (if slots[0].lastUse > u then 1 else 0) + Newer(slots[1..], u)
  }

  lemma {:induction false} NewerUpdate(slots: seq<Slot>, i: nat, s: Slot, u: nat)
    requires i < |slots|
    ensures Newer(slots[i := s], u) + (if slots[i].lastUse > u then 1 else 0) ==
            Newer(slots, u) + (if s.lastUse > u then 1 else 0)
  {
    if i == 0 {
      assert slots[i := s][1..] == slots[1..];
    } else {
      assert slots[i := s][1..] == slots[1..][i - 1 := s];
      NewerUpdate(slots[1..], i - 1, s, u);
    }
  }

  lemma {:induction false} NewerAppend(slots: seq<Slot>, s: Slot, u: nat)
    ensures Newer(slots + [s], u) == Newer(slots, u) + (if s.lastUse > u then 1 else 0)
  {
    if slots != [] {
      assert (slots + [s])[1..] == slots[1..] + [s];
      NewerAppend(slots[1..], s, u);
    }
  }

  /** If all slots but one are newer than u, none of them is missing from the count. */
  lemma {:induction false} AllNewer(slots: seq<Slot>, u: nat, i: nat)
    requires i < |slots| && forall j :: 0 <= j < |slots| && j != i ==> slots[j].lastUse > u
    ensures Newer(slots, u) + 1 >= |slots|
  {
    if i == 0 {
      AllNewerThan(slots[1..], u);
    } else {
      AllNewer(slots[1..], u, i - 1);
    }
  }

  lemma {:induction false} AllNewerThan(slots: seq<Slot>, u: nat)
    requires forall j :: 0 <= j < |slots| ==> slots[j].lastUse > u
    ensures Newer(slots, u) == |slots|
  {
    if slots != [] {
      AllNewerThan(slots[1..], u);
    }
  }

  /** Handle h is live, and at most n slots have been used since its own. */
  ghost predicate Backed(slots: seq<Slot>, h: nat, data: seq<nat>, n: nat) {
    exists i :: 0 <= i < |slots| && BackedAt(slots, i, h, data, n)
  }

  ghost predicate BackedAt(slots: seq<Slot>, i: nat, h: nat, data: seq<nat>, n: nat)
    requires i < |slots|
  {
    slots[i].handle == h && slots[i].data == data && Newer(slots, slots[i].lastUse) <= n
  }

  /** The slot cache_insert takes when full: the one with the smallest stamp. */
  ghost predicate Oldest(slots: seq<Slot>, v: nat) {
    v < |slots| && forall i :: 0 <= i < |slots| ==> slots[v].lastUse <= slots[i].lastUse
  }

  // ----- what one acquire does to the slots -----

  function Touched(slots: seq<Slot>, i: nat, stamp: nat): seq<Slot>
    requires i < |slots|
  {
    slots[i := slots[i].(lastUse := stamp)]
  }

  /** A hit keeps every other handle live and counts as one newer use. */
  lemma TouchKeeps(slots: seq<Slot>, i: nat, stamp: nat, h: nat, data: seq<nat>, n: nat)
    requires i < |slots| && Backed(slots, h, data, n) && forall j :: 0 <= j < |slots| ==> slots[j].lastUse < stamp
    ensures Backed(Touched(slots, i, stamp), h, data, n + 1)
  {
    var k :| 0 <= k < |slots| && BackedAt(slots, k, h, data, n);
    var slots' := Touched(slots, i, stamp);
    NewerUpdate(slots, i, slots'[i], slots'[k].lastUse);
    if k == i {
      NothingNewer(slots', stamp);
    }
    assert BackedAt(slots', k, h, data, n + 1);
  }

  lemma TouchSurvives(slots: seq<Slot>, i: nat, stamp: nat, cap: nat)
    requires i < |slots| && forall j :: 0 <= j < |slots| ==> slots[j].lastUse < stamp
    ensures Survives(slots, Touched(slots, i, stamp), cap)
  {
    forall h: nat, data: seq<nat>, n: nat | Backed(slots, h, data, n)
      ensures Backed(Touched(slots, i, stamp), h, data, n + 1)
    {
      TouchKeeps(slots, i, stamp, h, data, n);
    }
  }

  lemma {:induction false} NothingNewer(slots: seq<Slot>, u: nat)
    requires forall j :: 0 <= j < |slots| ==> slots[j].lastUse <= u
    ensures Newer(slots, u) == 0
  {
    if slots != [] {
      NothingNewer(slots[1..], u);
    }
  }

  lemma AddKeeps(slots: seq<Slot>, s: Slot, h: nat, data: seq<nat>, n: nat)
    requires Backed(slots, h, data, n)
    ensures Backed(slots + [s], h, data, n + 1)
  {
    var k :| 0 <= k < |slots| && BackedAt(slots, k, h, data, n);
    NewerAppend(slots, s, slots[k].lastUse);
    assert BackedAt(slots + [s], k, h, data, n + 1);
  }

  /** An eviction spares every slot with room behind it. */
  lemma EvictKeeps(slots: seq<Slot>, v: nat, s: Slot, h: nat, data: seq<nat>, n: nat)
    requires Oldest(slots, v) && Backed(slots, h, data, n) && n + 2 <= |slots|
    requires forall i, j :: 0 <= i < j < |slots| ==> slots[i].lastUse != slots[j].lastUse
    ensures Backed(slots[v := s], h, data, n + 1)
  {
    var k :| 0 <= k < |slots| && BackedAt(slots, k, h, data, n);
    if k == v {
      AllNewer(slots, slots[k].lastUse, k);
      assert false;
    }
    NewerUpdate(slots, v, s, slots[k].lastUse);
    assert BackedAt(slots[v := s], k, h, data, n + 1);
  }

  lemma JustBacked(slots: seq<Slot>, i: nat)
    requires i < |slots| && forall j :: 0 <= j < |slots| ==> slots[j].lastUse <= slots[i].lastUse
    ensures Backed(slots, slots[i].handle, slots[i].data, 0)
  {
    NothingNewer(slots, slots[i].lastUse);
    assert BackedAt(slots, i, slots[i].handle, slots[i].data, 0);
  }

  /** The old cache's live handles, each one use older. */
  ghost predicate Survives(before: seq<Slot>, after: seq<Slot>, cap: nat) {
    forall h: nat, data: seq<nat>, n: nat ::
      n + 2 <= cap && Backed(before, h, data, n) ==> Backed(after, h, data, n + 1)
  }

  lemma AddSurvives(slots: seq<Slot>, s: Slot, cap: nat)
    ensures Survives(slots, slots + [s], cap)
  {
    forall h: nat, data: seq<nat>, n: nat | Backed(slots, h, data, n) ensures Backed(slots + [s], h, data, n + 1) {
      AddKeeps(slots, s, h, data, n);
    }
  }

  lemma EvictSurvives(slots: seq<Slot>, v: nat, s: Slot, cap: nat)
    requires Oldest(slots, v) && cap <= |slots|
    requires forall i, j :: 0 <= i < j < |slots| ==> slots[i].lastUse != slots[j].lastUse
    ensures Survives(slots, slots[v := s], cap)
  {
    forall h: nat, data: seq<nat>, n: nat | n + 2 <= cap && Backed(slots, h, data, n)
      ensures Backed(slots[v := s], h, data, n + 1)
    {
      EvictKeeps(slots, v, s, h, data, n);
    }
  }

  /** A new slice goes behind the others while there is room, and then takes the place of the least recently used. */
  ghost predicate Placed(before: seq<Slot>, after: seq<Slot>, cap: nat, idx: nat, value: Slot) {
    if |before| < cap then idx == |before| && after == before + [value]
    else Oldest(before, idx) && after == before[idx := value]
  }

  lemma PlacedFaithful(source: Source, before: seq<Slot>, after: seq<Slot>, cap: nat, idx: nat, value: Slot)
    requires Faithful(source, before) && Placed(before, after, cap, idx, value)
    requires Check(source, value.key, value.outDim, value.inDim) == Ok
    requires value.data == Slice(source, value.key, value.outDim, value.inDim)
    ensures Faithful(source, after)
  {
  }

  lemma PlacedStamped(before: seq<Slot>, after: seq<Slot>, cap: nat, idx: nat, value: Slot, clock: nat, h: nat,
                      byStamp: map<nat, nat>, byHandle: map<nat, nat>)
    requires Stamped(before, clock, h, byStamp, byHandle) && Placed(before, after, cap, idx, value)
    requires value.lastUse == clock + 1 && value.handle == h
    ensures Stamped(after, clock + 1, h + 1, byStamp[clock + 1 := idx], byHandle[h := idx])
  {
  }

  lemma PlacedSurvives(before: seq<Slot>, after: seq<Slot>, cap: nat, idx: nat, value: Slot, clock: nat, h: nat,
                       byStamp: map<nat, nat>, byHandle: map<nat, nat>)
    requires Stamped(before, clock, h, byStamp, byHandle) && Placed(before, after, cap, idx, value)
    requires value.lastUse == clock + 1 && value.handle == h
    ensures Survives(before, after, cap) && Backed(after, h, value.data, 0)
  {
    if |before| < cap {
      AddSurvives(before, value, cap);
    } else {
      StampsDistinct(before, clock, h, byStamp, byHandle);
      EvictSurvives(before, idx, value, cap);
    }
    assert after[idx] == value;
    JustBacked(after, idx);
  }

  /** Slot i is the first with the key, and holds the slice for these dimensions. */
  ghost predicate Serves(slots: seq<Slot>, i: nat, k: Key, outDim: nat, inDim: nat) {
    i < |slots| && slots[i].key == k && slots[i].outDim == outDim && slots[i].inDim == inDim &&
    forall j :: 0 <= j < i ==> slots[j].key != k
  }

  ghost predicate NoneServes(slots: seq<Slot>, k: Key, outDim: nat, inDim: nat) {
    forall i: nat :: i < |slots| ==> !Serves(slots, i, k, outDim, inDim)
  }

  /** When the first slot with the key is for other dimensions, or there is none, no slot serves. */
  lemma FirstDiffers(slots: seq<Slot>, k: Key, outDim: nat, inDim: nat, found: bool, i: nat)
    requires found ==> i < |slots| && slots[i].key == k && forall j :: 0 <= j < i ==> slots[j].key != k
    requires !found ==> forall j :: 0 <= j < |slots| ==> slots[j].key != k
    requires !(found && slots[i].outDim == outDim && slots[i].inDim == inDim)
    ensures NoneServes(slots, k, outDim, inDim)
  {
    forall n: nat | n < |slots| ensures !Serves(slots, n, k, outDim, inDim) {
      assert found ==> n < i || n == i || i < n;
    }
  }

  class Cache {
    const source: Source
    const cap: nat
    var slots: seq<Slot>
    var clock: nat
    var hits: nat
    var misses: nat
    var evictions: nat
    var nextHandle: nat
    ghost var byStamp: map<nat, nat>
    ghost var byHandle: map<nat, nat>

    ghost predicate Valid()
      reads this
    {
      cap >= 4 && |slots| <= cap && Faithful(source, slots) && Stamped(slots, clock, nextHandle, byStamp, byHandle)
    }

    /** cache_init: at least four slots. */
    constructor (source: Source, cap: nat)
      ensures Valid() && slots == [] && this.source == source && this.cap == if cap < 4 then 4 else cap
      ensures clock == hits == misses == evictions == 0
    {
      this.source, this.cap := source, if cap < 4 then 4 else cap;
      slots, clock, hits, misses, evictions, nextHandle := [], 0, 0, 0, 0, 0;
      byStamp, byHandle := map[], map[];
    }

    /** cache_find: the first slot with this key. */
    method Find(k: Key) returns (found: bool, i: nat)
      ensures found ==> i < |slots| && slots[i].key == k && forall j :: 0 <= j < i ==> slots[j].key != k
      ensures !found ==> forall j :: 0 <= j < |slots| ==> slots[j].key != k
    {
      found, i := false, 0;
      while i < |slots|
        invariant i <= |slots| && forall j :: 0 <= j < i ==> slots[j].key != k
      {
        if slots[i].key == k {
          return true, i;
        }
        i := i + 1;
      }
    }

    /** The victim scan of cache_insert. */
    method Victim() returns (v: nat)
      requires |slots| > 0
      ensures Oldest(slots, v)
    {
      v := 0;
      for i := 1 to |slots|
        invariant v < |slots| && forall j :: 0 <= j < i ==> slots[v].lastUse <= slots[j].lastUse
      {
        if slots[i].lastUse < slots[v].lastUse {
          v := i;
        }
      }
    }

    /** acquire_expert on a hit. */
    method Hit(i: nat)
      requires Valid() && i < |slots|
      modifies this`slots, this`clock, this`hits, this`byStamp
      ensures slots == Touched(old(slots), i, clock) && clock == old(clock) + 1 && hits == old(hits) + 1
      ensures Valid() && Survives(old(slots), slots, cap)
      ensures Backed(slots, old(slots[i]).handle, old(slots[i]).data, 0)
    {
      ghost var before := slots;
      clock := clock + 1;
      slots := Touched(slots, i, clock);
      hits := hits + 1;
      byStamp := byStamp[clock := i];
      TouchSurvives(before, i, clock, cap);
      JustBacked(slots, i);
    }

    /** The slot that takes a new slice. */
    method Place(value: Slot) returns (idx: nat)
      requires cap > 0
      modifies this`slots, this`evictions
      ensures Placed(old(slots), slots, cap, idx, value)
      ensures evictions == old(evictions) + (if |old(slots)| < cap then 0 else 1)
    {
      if |slots| < cap {
        idx := |slots|;
        slots := slots + [value];
        return;
      }
      idx := Victim();
      slots := slots[idx := value];
      evictions := evictions + 1;
    }

    /** cache_insert. */
    method Insert(k: Key, data: seq<nat>, outDim: nat, inDim: nat) returns (h: nat, idx: nat)
      requires Valid() && Check(source, k, outDim, inDim) == Ok && data == Slice(source, k, outDim, inDim)
      modifies this`slots, this`clock, this`evictions, this`nextHandle, this`byStamp, this`byHandle
      ensures Placed(old(slots), slots, cap, idx, Slot(k, h, data, outDim, inDim, clock))
      ensures h == old(nextHandle) && clock == old(clock) + 1
      ensures evictions == old(evictions) + (if |old(slots)| < cap then 0 else 1)
      ensures Valid() && Survives(old(slots), slots, cap) && Backed(slots, h, data, 0)
    {
      ghost var before := slots;
      h := nextHandle;
      var value := Slot(k, h, data, outDim, inDim, clock + 1);
      idx := Place(value);
      PlacedFaithful(source, before, slots, cap, idx, value);
      PlacedStamped(before, slots, cap, idx, value, clock, h, byStamp, byHandle);
      PlacedSurvives(before, slots, cap, idx, value, clock, h, byStamp, byHandle);
      clock, nextHandle := clock + 1, nextHandle + 1;
      byStamp, byHandle := byStamp[clock := idx], byHandle[h := idx];
    }

    /** acquire_expert: the slice of the named tensor, through the cache. Every handle given out before with
        at most cap - 2 later uses stays live. */
    method Acquire(k: Key, outDim: nat, inDim: nat) returns (st: Status, h: nat, data: seq<nat>, ghost idx: nat)
      requires Valid()
      modifies this
      ensures Valid() && Survives(old(slots), slots, cap)
      ensures st == Check(source, k, outDim, inDim)
      ensures st == Invalid <==> k.kind > 2
      ensures st == Missing <==> k.kind <= 2 && TensorName(k.layer, k.kind) !in source
      ensures st == Ok ==> data == Slice(source, k, outDim, inDim) && Backed(slots, h, data, 0)
      ensures st == Ok && Serves(old(slots), idx, k, outDim, inDim) ==>
                slots == Touched(old(slots), idx, clock) && h == old(slots)[idx].handle && clock == old(clock) + 1 &&
                hits == old(hits) + 1 && misses == old(misses) && evictions == old(evictions)
      ensures st == Ok && !Serves(old(slots), idx, k, outDim, inDim) ==>
                NoneServes(old(slots), k, outDim, inDim) && clock == old(clock) + 1 &&
                Placed(old(slots), slots, cap, idx, Slot(k, h, data, outDim, inDim, clock)) &&
                hits == old(hits) && misses == old(misses) + 1 &&
                evictions == old(evictions) + (if |old(slots)| < cap then 0 else 1)
      ensures st != Ok ==> slots == old(slots) && clock == old(clock) && hits == old(hits) && misses == old(misses)
    {
      var found, i := Find(k);
      if found && slots[i].outDim == outDim && slots[i].inDim == inDim {
        h, data, st, idx := slots[i].handle, slots[i].data, Ok, i;
        Hit(i);
        return;
      }
      FirstDiffers(slots, k, outDim, inDim, found, i);
      st := Check(source, k, outDim, inDim);
      if st != Ok {
        NothingHappens(slots, cap);
        return st, 0, [], 0;
      }
      data := Slice(source, k, outDim, inDim);
      misses := misses + 1;
      var at;
      h, at := Insert(k, data, outDim, inDim);
      idx := at;
    }

    /** The use made of it: after gate and up are acquired, fetching down leaves both in place, and so would
        one acquire more. */
    method GateUpDown(layer: nat, expert: nat, ff: nat, d: nat) returns (st: Status, gate: nat, up: nat, down: nat)
      requires Valid()
      modifies this
      ensures Valid()
      ensures var gateSt := Check(source, Key(layer, expert, 0), ff, d);
              var upSt := Check(source, Key(layer, expert, 1), ff, d);
              st == if gateSt != Ok then gateSt else if upSt != Ok then upSt
                    else Check(source, Key(layer, expert, 2), d, ff)
      ensures st == Ok ==>
                Backed(slots, gate, Slice(source, Key(layer, expert, 0), ff, d), 2) &&
                Backed(slots, up, Slice(source, Key(layer, expert, 1), ff, d), 1) &&
                Backed(slots, down, Slice(source, Key(layer, expert, 2), d, ff), 0)
    {
      gate, up, down := 0, 0, 0;
      var data;
      ghost var idx;
      st, gate, data, idx := Acquire(Key(layer, expert, 0), ff, d);
      if st != Ok {
        return;
      }
      st, up, data, idx := Acquire(Key(layer, expert, 1), ff, d);
      if st != Ok {
        return;
      }
      st, down, data, idx := Acquire(Key(layer, expert, 2), d, ff);
    }
  }

  lemma NothingHappens(slots: seq<Slot>, cap: nat)
    ensures Survives(slots, slots, cap)
  {
    forall h: nat, data: seq<nat>, n: nat | Backed(slots, h, data, n) ensures Backed(slots, h, data, n + 1) {
      var k :| 0 <= k < |slots| && BackedAt(slots, k, h, data, n);
      assert BackedAt(slots, k, h, data, n + 1);
    }
  }

  /** With four slots or more, a slice stays backed through any three further acquires. */
  lemma ThreeMoreAcquires(s0: seq<Slot>, s1: seq<Slot>, s2: seq<Slot>, s3: seq<Slot>, cap: nat, h: nat, data: seq<nat>)
    requires cap >= 4 && Backed(s0, h, data, 0) && Survives(s0, s1, cap) && Survives(s1, s2, cap) &&
             Survives(s2, s3, cap)
    ensures Backed(s1, h, data, 1) && Backed(s2, h, data, 2) && Backed(s3, h, data, 3)
  {
  }
}
