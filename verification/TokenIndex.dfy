/** The hash index of src/tokenizer.c over the vocabulary and over the merge rules. It holds for any
    hash function; equal keys may occur more than once. */
module TokenIndex {
  import opened Probing

  /** The first place a key occurs in a list, or the list's length. */
  function First<K(==)>(keys: seq<K>, k: K): (f: nat)
    ensures f <= |keys| && (f < |keys| ==> keys[f] == k)
  {
    if keys == [] then 0 else if keys[0] == k then 0 else First(keys[1..], k) + 1
  }

  /** Nothing before it is the key. */
  lemma {:induction false} FirstIsFirst<K>(keys: seq<K>, k: K, i: nat)
    requires i < First(keys, k)
    ensures keys[i] != k
  {
    if i > 0 {
      FirstIsFirst(keys[1..], k, i - 1);
    }
  }

  lemma {:induction false} FirstMisses<K>(keys: seq<K>, k: K)
    ensures First(keys, k) == |keys| <==> k !in keys
  {
    if keys != [] && keys[0] != k {
      FirstMisses(keys[1..], k);
      assert keys == [keys[0]] + keys[1..];
    }
  }

  lemma FirstIs<K>(keys: seq<K>, k: K, f: nat)
    requires f < |keys| && keys[f] == k && forall i :: 0 <= i < f ==> keys[i] != k
    ensures First(keys, k) == f
  {
    if f < First(keys, k) {
      FirstIsFirst(keys, k, f);
    } else {
      FirstMisses(keys, k);
    }
  }

  ghost predicate TotalHash<K(!new)>(hash: imap<K, nat>) {
    forall k :: k in hash
  }

  function Marks(slot: seq<nat>): (full: seq<bool>)
    ensures |full| == |slot| && forall p :: 0 <= p < |slot| ==> full[p] == (slot[p] != 0)
  {
    seq(|slot|, p requires 0 <= p < |slot| => slot[p] != 0)
  }

  /** The cells a probe for key i passes before its own: all full, equal keys among them earlier. */
  ghost predicate PathOk<K(!new)>(slot: seq<nat>, keys: seq<K>, hash: imap<K, nat>, at: seq<nat>, i: nat)
    requires |slot| > 0 && i < |keys| && i < |at| && TotalHash(hash)
  {
    at[i] < |slot| && slot[at[i]] == i + 1 &&
    var h := Home(hash[keys[i]], |slot|);
    forall d :: 0 <= d < Off(at[i], h, |slot|) ==>
      var s := slot[Pos(h, d, |slot|)]; 0 < s <= |keys| && (keys[s - 1] == keys[i] ==> s - 1 < i)
  }

  /** The index holds keys, each at the cell at says. */
  ghost predicate IndexOk<K(!new)>(slot: seq<nat>, keys: seq<K>, hash: imap<K, nat>, at: seq<nat>) {
    |slot| > 0 && |at| == |keys| && TotalHash(hash) && Filled(Marks(slot)) == |keys| &&
    (forall i :: 0 <= i < |keys| ==> PathOk(slot, keys, hash, at, i)) &&
    forall p :: 0 <= p < |slot| && slot[p] != 0 ==> slot[p] <= |keys| && at[slot[p] - 1] == p
  }

  /** A probe for key k that has passed d cells without a match. */
  ghost predicate Passed<K(!new)>(slot: seq<nat>, keys: seq<K>, hash: imap<K, nat>, k: K, d: nat)
    requires |slot| > 0 && TotalHash(hash)
  {
    d <= |slot| && forall e :: 0 <= e < d ==>
      var s := slot[Pos(Home(hash[k], |slot|), e, |slot|)]; 0 < s <= |keys| && keys[s - 1] != k
  }

  /** The first match of a probe is the first occurrence in the list. */
  lemma FirstMatch<K(!new)>(slot: seq<nat>, keys: seq<K>, hash: imap<K, nat>, at: seq<nat>, k: K, d: nat)
    requires IndexOk(slot, keys, hash, at) && d < |slot| && Passed(slot, keys, hash, k, d)
    requires slot[Pos(Home(hash[k], |slot|), d, |slot|)] != 0
    requires keys[slot[Pos(Home(hash[k], |slot|), d, |slot|)] - 1] == k
    ensures First(keys, k) == slot[Pos(Home(hash[k], |slot|), d, |slot|)] - 1
  {
    var h := Home(hash[k], |slot|);
    var j := slot[Pos(h, d, |slot|)] - 1;
    var f := First(keys, k);
    FirstMisses(keys, k);
    if j < f {
      FirstIsFirst(keys, k, j);
    }
    assert PathOk(slot, keys, hash, at, f);
    var df := Off(at[f], h, |slot|);
    if df < d {
      assert false;
    }
  }

  /** An empty cell ends the probe of a key that is not in the list. */
  lemma NoMatch<K(!new)>(slot: seq<nat>, keys: seq<K>, hash: imap<K, nat>, at: seq<nat>, k: K, d: nat)
    requires IndexOk(slot, keys, hash, at) && d < |slot| && Passed(slot, keys, hash, k, d)
    requires slot[Pos(Home(hash[k], |slot|), d, |slot|)] == 0
    ensures k !in keys
  {
    var h := Home(hash[k], |slot|);
    if k in keys {
      var i :| 0 <= i < |keys| && keys[i] == k;
      assert PathOk(slot, keys, hash, at, i);
      var di := Off(at[i], h, |slot|);
      assert false;
    }
  }

  /** A probe that has passed d full cells. */
  ghost predicate Walked(slot: seq<nat>, h: nat, d: nat) {
    h < |slot| && d <= |slot| && forall e :: 0 <= e < d ==> slot[Pos(h, e, |slot|)] != 0
  }

  /** While the table has room, a probe meets an empty cell before it comes round. */
  lemma WalkEnds(slot: seq<nat>, h: nat, d: nat)
    requires Walked(slot, h, d) && Filled(Marks(slot)) < |slot|
    ensures d < |slot|
  {
    assert Run(Marks(slot), h, d);
    RunEnds(Marks(slot), h, d);
  }

  /** Storing the next key in the first empty cell of its probe keeps the index. */
  lemma Store<K(!new)>(slot: seq<nat>, keys: seq<K>, hash: imap<K, nat>, at: seq<nat>, k: K, d: nat, p: nat)
    requires IndexOk(slot, keys, hash, at) && Walked(slot, Home(hash[k], |slot|), d) && d < |slot|
    requires p == Pos(Home(hash[k], |slot|), d, |slot|) && slot[p] == 0
    ensures IndexOk(slot[p := |keys| + 1], keys + [k], hash, at + [p])
  {
    var slot', keys', at' := slot[p := |keys| + 1], keys + [k], at + [p];
    FillOne(Marks(slot), p);
    assert Marks(slot') == Marks(slot)[p := true];
    forall i | 0 <= i < |keys'| ensures PathOk(slot', keys', hash, at', i) {
      if i < |keys| {
        assert PathOk(slot, keys, hash, at, i);
      } else {
        OffOfPos(Home(hash[k], |slot|), d, |slot|);
      }
    }
  }

  /** The matches among the first d cells of a probe: best is the earliest of them in the list. */
  ghost predicate BestOf<K(!new)>(slot: seq<nat>, keys: seq<K>, hash: imap<K, nat>, k: K, d: nat, found: bool,
                                  best: nat)
    requires |slot| > 0 && TotalHash(hash)
  {
    Walked(slot, Home(hash[k], |slot|), d) && (found ==> best < |keys| && keys[best] == k) &&
    forall e :: 0 <= e < d ==>
      var s := slot[Pos(Home(hash[k], |slot|), e, |slot|)];
      0 < s <= |keys| && (keys[s - 1] == k ==> found && best <= s - 1)
  }

  /** A whole cluster scanned: the earliest match is the first occurrence in the list. */
  lemma BestIsFirst<K(!new)>(slot: seq<nat>, keys: seq<K>, hash: imap<K, nat>, at: seq<nat>, k: K, d: nat,
                             found: bool, best: nat)
    requires IndexOk(slot, keys, hash, at) && d < |slot| && BestOf(slot, keys, hash, k, d, found, best)
    requires slot[Pos(Home(hash[k], |slot|), d, |slot|)] == 0
    ensures if found then First(keys, k) == best else k !in keys
  {
    var f := First(keys, k);
    FirstMisses(keys, k);
    if f < |keys| {
      assert PathOk(slot, keys, hash, at, f);
      assert Off(at[f], Home(hash[k], |slot|), |slot|) < d;
      if best < f {
        FirstIsFirst(keys, k, best);
      }
    }
  }

  /** A fresh table. */
  lemma EmptyIndex<K(!new)>(cap: nat, hash: imap<K, nat>, slot: seq<nat>)
    requires cap > 0 && TotalHash(hash) && |slot| == cap && forall p :: 0 <= p < cap ==> slot[p] == 0
    ensures IndexOk(slot, [], hash, [])
  {
    NoneFilled(Marks(slot));
  }

  class Index<K(==, !new)> {
    var slot: array<nat>
    ghost var at: seq<nat>

    ghost predicate Holds(keys: seq<K>, hash: imap<K, nat>)
      reads this, slot
    {
      IndexOk(slot[..], keys, hash, at)
    }

    /** vg_index_build for n keys: a power-of-two capacity of at least 16 and twice n, all cells empty. */
    constructor (n: nat, ghost hash: imap<K, nat>)
      requires TotalHash(hash)
      ensures Holds([], hash) && fresh(slot) && slot.Length >= 16 && slot.Length >= 2 * n && PowerOfTwo(slot.Length)
      ensures slot.Length > 16 ==> slot.Length < 4 * n
    {
      var cap := 16;
      while cap < n * 2
        invariant cap >= 16 && PowerOfTwo(cap) && (cap > 16 ==> cap < 4 * n)
      {
        cap := cap * 2;
      }
      slot := new nat[cap](_ => 0);
      at := [];
      new;
      EmptyIndex(cap, hash, slot[..]);
    }

    /** vg_index_insert of the next key of the list. */
    method Insert(ghost keys: seq<K>, hash: imap<K, nat>, k: K, value: nat)
      requires Holds(keys, hash) && |keys| < slot.Length && value == |keys|
      modifies this`at, slot
      ensures Holds(keys + [k], hash)
    {
      var cap := slot.Length;
      var p := Home(hash[k], cap);
      ghost var d := 0;
      while slot[p] != 0
        invariant p < cap && d < cap && p == Pos(Home(hash[k], cap), d, cap)
        invariant Walked(slot[..], Home(hash[k], cap), d)
        invariant slot[..] == old(slot[..]) && at == old(at)
        decreases cap - d
      {
        WalkEnds(slot[..], Home(hash[k], cap), d + 1);
        NextIsPos(Home(hash[k], cap), d, cap);
        p := Next(p, cap);
        d := d + 1;
      }
      Store(slot[..], keys, hash, at, k, d, p);
      slot[p] := value + 1;
      at := at + [p];
    }

    /** find_token_n: the first entry of the list with this key, if any. */
    method Find(keys: seq<K>, hash: imap<K, nat>, k: K) returns (found: bool, value: nat)
      requires Holds(keys, hash) && |keys| < slot.Length
      ensures found <==> k in keys
      ensures found ==> value == First(keys, k)
    {
      var cap := slot.Length;
      var p := Home(hash[k], cap);
      ghost var d := 0;
      while slot[p] != 0
        invariant p < cap && d < cap && p == Pos(Home(hash[k], cap), d, cap)
        invariant Passed(slot[..], keys, hash, k, d) && Walked(slot[..], Home(hash[k], cap), d)
        decreases cap - d
      {
        if keys[slot[p] - 1] == k {
          FirstMatch(slot[..], keys, hash, at, k, d);
          return true, slot[p] - 1;
        }
        WalkEnds(slot[..], Home(hash[k], cap), d + 1);
        NextIsPos(Home(hash[k], cap), d, cap);
        p := Next(p, cap);
        d := d + 1;
      }
      NoMatch(slot[..], keys, hash, at, k, d);
      found, value := false, 0;
    }

    /** find_merge: the lowest-ranked rule for the pair, over the whole cluster; a rule's rank is its place. */
    method FindBest(keys: seq<K>, hash: imap<K, nat>, k: K) returns (found: bool, best: nat)
      requires Holds(keys, hash) && |keys| < slot.Length
      ensures found <==> k in keys
      ensures found ==> best == First(keys, k)
    {
      var cap := slot.Length;
      var p := Home(hash[k], cap);
      ghost var d := 0;
      found, best := false, 0;
      while slot[p] != 0
        invariant p < cap && d < cap && p == Pos(Home(hash[k], cap), d, cap)
        invariant BestOf(slot[..], keys, hash, k, d, found, best)
        decreases cap - d
      {
        var i := slot[p] - 1;
        if keys[i] == k && (!found || i < best) {
          found, best := true, i;
        }
        WalkEnds(slot[..], Home(hash[k], cap), d + 1);
        NextIsPos(Home(hash[k], cap), d, cap);
        p := Next(p, cap);
        d := d + 1;
      }
      BestIsFirst(slot[..], keys, hash, at, k, d, found, best);
      FirstMisses(keys, k);
    }
  }

  /** The load loop: every key of the list inserted in order. */
  method BuildIndex<K(!new)>(keys: seq<K>, hash: imap<K, nat>) returns (ix: Index<K>)
    requires TotalHash(hash)
    ensures fresh(ix) && ix.Holds(keys, hash) && |keys| < ix.slot.Length
  {
    ix := new Index(|keys|, hash);
    for i := 0 to |keys|
      invariant fresh(ix) && fresh(ix.slot) && ix.Holds(keys[..i], hash) && ix.slot.Length >= 16 &&
                ix.slot.Length >= 2 * |keys|
    {
      ix.Insert(keys[..i], hash, keys[i], i);
      assert keys[..i] + [keys[i]] == keys[..i + 1];
    }
    assert keys[..|keys|] == keys;
  }

  ghost predicate PowerOfTwo(n: nat) {
    n == 1 || (n > 1 && n % 2 == 0 && PowerOfTwo(n / 2))
  }
}
