/** The growing open-addressing table of src/gguf.c over tensor names and metadata keys, for any hash
    function; a key already present is not inserted again. */
module GgufTable {
  import opened Probing
  import opened TokenIndex

  datatype Cell<K> = Empty | Full(key: K, index: nat)

  function Occupied<K>(cells: seq<Cell<K>>): (full: seq<bool>)
    ensures |full| == |cells| && forall p :: 0 <= p < |cells| ==> full[p] == cells[p].Full?
  {
    seq(|cells|, p requires 0 <= p < |cells| => cells[p].Full?)
  }

  /** Key k sits where the map says, with only full cells before it on its probe. */
  ghost predicate KeyOk<K(!new)>(cells: seq<Cell<K>>, hash: imap<K, nat>, place: map<K, nat>, model: map<K, nat>, k: K)
    requires |cells| > 0 && TotalHash(hash) && k in model
  {
    k in place && place[k] < |cells| && cells[place[k]] == Full(k, model[k]) &&
    Run(Occupied(cells), Home(hash[k], |cells|), Off(place[k], Home(hash[k], |cells|), |cells|))
  }

  /** The cells hold exactly the map from key to index. */
  ghost predicate TableOk<K(!new)>(cells: seq<Cell<K>>, hash: imap<K, nat>, place: map<K, nat>, model: map<K, nat>) {
    |cells| > 0 && TotalHash(hash) &&
    (forall k :: k in model ==> KeyOk(cells, hash, place, model, k)) &&
    forall p :: 0 <= p < |cells| && cells[p].Full? ==>
      cells[p].key in model && cells[p].key in place && place[cells[p].key] == p
  }

  /** At most three quarters of the cells are taken. */
  ghost predicate Loaded<K>(cells: seq<Cell<K>>) {
    4 * Filled(Occupied(cells)) <= 3 * |cells|
  }

  /** The cell where a probe for k ends: k's own, or the first empty one if k is absent. */
  ghost predicate Ends<K(!new)>(cells: seq<Cell<K>>, hash: imap<K, nat>, place: map<K, nat>, model: map<K, nat>, k: K,
                                p: nat)
    requires |cells| > 0 && TotalHash(hash)
  {
    p < |cells| && Run(Occupied(cells), Home(hash[k], |cells|), Off(p, Home(hash[k], |cells|), |cells|)) &&
    if k in model then cells[p] == Full(k, model[k]) else cells[p] == Empty
  }

  /** The probe has passed d full cells with other keys. */
  ghost predicate Past<K(!new)>(cells: seq<Cell<K>>, hash: imap<K, nat>, k: K, d: nat)
    requires |cells| > 0 && TotalHash(hash)
  {
    d <= |cells| && Run(Occupied(cells), Home(hash[k], |cells|), d) &&
    forall e :: 0 <= e < d ==> cells[Pos(Home(hash[k], |cells|), e, |cells|)] != Empty &&
                               cells[Pos(Home(hash[k], |cells|), e, |cells|)].key != k
  }

  lemma StopsRight<K(!new)>(cells: seq<Cell<K>>, hash: imap<K, nat>, place: map<K, nat>, model: map<K, nat>, k: K,
                            d: nat, p: nat)
    requires TableOk(cells, hash, place, model) && d < |cells| && Past(cells, hash, k, d)
    requires p == Pos(Home(hash[k], |cells|), d, |cells|) && (cells[p] == Empty || cells[p].key == k)
    ensures Ends(cells, hash, place, model, k, p)
  {
    var h := Home(hash[k], |cells|);
    OffOfPos(h, d, |cells|);
    if k in model {
      assert KeyOk(cells, hash, place, model, k);
      var dk := Off(place[k], h, |cells|);
      assert dk < d || dk == d || d < dk;
    }
  }

  /** Filling the empty cell where a probe ended adds the key to the map. */
  lemma AddKey<K(!new)>(cells: seq<Cell<K>>, hash: imap<K, nat>, place: map<K, nat>, model: map<K, nat>, k: K, p: nat,
                        index: nat)
    requires TableOk(cells, hash, place, model) && k !in model && Ends(cells, hash, place, model, k, p)
    ensures TableOk(cells[p := Full(k, index)], hash, place[k := p], model[k := index])
    ensures Filled(Occupied(cells[p := Full(k, index)])) == Filled(Occupied(cells)) + 1
  {
    var cells' := cells[p := Full(k, index)];
    assert Occupied(cells') == Occupied(cells)[p := true];
    FillOne(Occupied(cells), p);
    var model', place' := model[k := index], place[k := p];
    forall j | j in model' ensures KeyOk(cells', hash, place', model', j) {
      if j != k {
        assert KeyOk(cells, hash, place, model, j);
        RunGrows(Occupied(cells), Home(hash[j], |cells|), Off(place[j], Home(hash[j], |cells|), |cells|), p);
      } else {
        RunGrows(Occupied(cells), Home(hash[k], |cells|), Off(p, Home(hash[k], |cells|), |cells|), p);
      }
    }
  }

  lemma EmptyTable<K(!new)>(cells: seq<Cell<K>>, hash: imap<K, nat>)
    requires |cells| > 0 && TotalHash(hash) && forall p :: 0 <= p < |cells| ==> cells[p] == Empty
    ensures TableOk(cells, hash, map[], map[]) && Filled(Occupied(cells)) == 0
  {
    NoneFilled(Occupied(cells));
  }

  /** The part of the map whose keys sit in the first i cells. */
  ghost function Upto<K(!new)>(place: map<K, nat>, model: map<K, nat>, i: nat): map<K, nat> {
    map k | k in model && k in place && place[k] < i :: model[k]
  }

  lemma PastOne<K(!new)>(cells: seq<Cell<K>>, hash: imap<K, nat>, k: K, d: nat, d': nat, p: nat)
    requires |cells| > 0 && TotalHash(hash) && Past(cells, hash, k, d) && d < |cells| && d' == d + 1
    requires p == Pos(Home(hash[k], |cells|), d, |cells|) && cells[p] != Empty && cells[p].key != k
    ensures Past(cells, hash, k, d')
  {
  }

  /** hash_find: the cell where the probe for k ends; a table with room always has one. */
  method HashFind<K(==, !new)>(table: array<Cell<K>>, hash: imap<K, nat>, k: K, ghost place: map<K, nat>,
                               ghost model: map<K, nat>) returns (p: nat)
    requires TableOk(table[..], hash, place, model) && Filled(Occupied(table[..])) < table.Length
    ensures Ends(table[..], hash, place, model, k, p)
  {
    p := Home(hash[k], table.Length);
    for probes := 0 to table.Length
      invariant p < table.Length && Past(table[..], hash, k, probes)
      invariant probes < table.Length ==> p == Pos(Home(hash[k], table.Length), probes, table.Length)
    {
      if table[p] == Empty || table[p].key == k {
        StopsRight(table[..], hash, place, model, k, probes, p);
        return;
      }
      PastOne(table[..], hash, k, probes, probes + 1, p);
      if probes + 1 < table.Length {
        NextIsPos(Home(hash[k], table.Length), probes, table.Length);
      }
      p := Next(p, table.Length);
    }
    RunEnds(Occupied(table[..]), Home(hash[k], table.Length), table.Length);
    assert false;
  }

  /** Moving one old cell into the new table. */
  lemma MoveOne<K(!new)>(cells: seq<Cell<K>>, hash: imap<K, nat>, place: map<K, nat>, model: map<K, nat>, i: nat)
    requires TableOk(cells, hash, place, model) && i < |cells|
    ensures cells[i] == Empty ==> Upto(place, model, i + 1) == Upto(place, model, i)
    ensures cells[i].Full? ==> cells[i].key !in Upto(place, model, i) &&
                               Upto(place, model, i + 1) == Upto(place, model, i)[cells[i].key := cells[i].index]
  {
    if cells[i].Full? {
      var k := cells[i].key;
      assert KeyOk(cells, hash, place, model, k);
      forall j | j in Upto(place, model, i + 1) && j !in Upto(place, model, i) ensures j == k {
        assert KeyOk(cells, hash, place, model, j);
      }
    } else {
      forall j | j in Upto(place, model, i + 1) ensures j in Upto(place, model, i) {
        assert KeyOk(cells, hash, place, model, j);
      }
    }
  }

  lemma AllMoved<K(!new)>(cells: seq<Cell<K>>, hash: imap<K, nat>, place: map<K, nat>, model: map<K, nat>)
    requires TableOk(cells, hash, place, model)
    ensures Upto(place, model, |cells|) == model && Upto(place, model, 0) == map[]
  {
    forall k | k in model ensures k in Upto(place, model, |cells|) {
      assert KeyOk(cells, hash, place, model, k);
    }
  }

  /** Storing an absent key where its probe ends. */
  method Put<K(==, !new)>(table: array<Cell<K>>, hash: imap<K, nat>, ghost place: map<K, nat>,
                          ghost model: map<K, nat>, k: K, index: nat) returns (ghost place': map<K, nat>)
    requires TableOk(table[..], hash, place, model) && Filled(Occupied(table[..])) < table.Length && k !in model
    modifies table
    ensures TableOk(table[..], hash, place', model[k := index])
    ensures Filled(Occupied(table[..])) == old(Filled(Occupied(table[..]))) + 1
  {
    var p := HashFind(table, hash, k, place, model);
    AddKey(table[..], hash, place, model, k, p, index);
    ghost var cells := table[..];
    table[p] := Full(k, index);
    assert table[..] == cells[p := Full(k, index)];
    place' := place[k := p];
  }

  /** The new table holds the given part of the map, from at most i cells. */
  ghost predicate Moved<K(!new)>(cells: seq<Cell<K>>, hash: imap<K, nat>, place: map<K, nat>, part: map<K, nat>, i: nat)
  {
    TableOk(cells, hash, place, part) && Filled(Occupied(cells)) <= i
  }

  /** One turn of the rehash. */
  method MoveCell<K(==, !new)>(table: array<Cell<K>>, nt: array<Cell<K>>, hash: imap<K, nat>, ghost place: map<K, nat>,
                               ghost model: map<K, nat>, i: nat, ghost was: map<K, nat>)
    returns (ghost place': map<K, nat>)
    requires TableOk(table[..], hash, place, model) && i < table.Length && nt != table && nt.Length == 2 * table.Length
    requires Moved(nt[..], hash, was, Upto(place, model, i), i)
    modifies nt
    ensures Moved(nt[..], hash, place', Upto(place, model, i + 1), i + 1)
  {
    MoveOne(table[..], hash, place, model, i);
    place' := was;
    if table[i].Full? {
      place' := Put(nt, hash, was, Upto(place, model, i), table[i].key, table[i].index);
    }
  }

  /** The rehash of the growth step: every full cell moved to a table twice the size. */
  method Rehash<K(==, !new)>(table: array<Cell<K>>, hash: imap<K, nat>, ghost place: map<K, nat>,
                             ghost model: map<K, nat>)
    returns (nt: array<Cell<K>>, ghost place': map<K, nat>)
    requires TableOk(table[..], hash, place, model)
    ensures fresh(nt) && nt.Length == 2 * table.Length && TableOk(nt[..], hash, place', model)
    ensures Filled(Occupied(nt[..])) <= table.Length
  {
    nt := new Cell<K>[2 * table.Length](_ => Empty);
    place' := map[];
    EmptyTable(nt[..], hash);
    AllMoved(table[..], hash, place, model);
    for i := 0 to table.Length
      invariant fresh(nt) && nt.Length == 2 * table.Length && table[..] == old(table[..])
      invariant Moved(nt[..], hash, place', Upto(place, model, i), i)
    {
      place' := MoveCell(table, nt, hash, place, model, i, place');
    }
  }

  /** How many cells are taken. */
  method CountFull<K(==, !new)>(table: array<Cell<K>>) returns (count: nat)
    ensures count == Filled(Occupied(table[..]))
  {
    count := 0;
    ghost var full := Occupied(table[..]);
    for i := 0 to table.Length
      invariant count + Filled(full[i..]) == Filled(full)
    {
      assert full[i..][1..] == full[i + 1..];
      if table[i].Full? {
        count := count + 1;
      }
    }
  }

  class Table<K(==, !new)> {
    const hash: imap<K, nat>
    var cells: array<Cell<K>>
    ghost var place: map<K, nat>
    ghost var model: map<K, nat>

    ghost predicate Valid()
      reads this, cells
    {
      cells.Length >= 64 && TableOk(cells[..], hash, place, model) && Loaded(cells[..])
    }

    /** The table parse_index makes for n keys. */
    constructor (n: nat, hash: imap<K, nat>)
      requires TotalHash(hash)
      ensures Valid() && fresh(cells) && model == map[] && this.hash == hash
      ensures cells.Length == if n > 64 then n else 64
    {
      this.hash := hash;
      cells := new Cell<K>[if n > 64 then n else 64](_ => Empty);
      place, model := map[], map[];
      new;
      EmptyTable(cells[..], hash);
    }

    /** The growth step of hash_insert. */
    method Grow()
      requires Valid()
      modifies this`cells, this`place
      ensures Valid() && Filled(Occupied(cells[..])) < cells.Length * 3 / 4
      ensures cells == old(cells) || fresh(cells)
    {
      var threshold := cells.Length * 3 / 4;
      var count := CountFull(cells);
      if count >= threshold {
        cells, place := Rehash(cells, hash, place, model);
      }
    }

    /** hash_insert: a key already present keeps its first index. */
    method Insert(k: K, index: nat) returns (inserted: bool)
      requires Valid()
      modifies this`cells, this`place, this`model, cells
      ensures Valid() && inserted == (k !in old(model))
      ensures model == if inserted then old(model)[k := index] else old(model)
      ensures cells == old(cells) || fresh(cells)
    {
      Grow();
      var p := HashFind(cells, hash, k, place, model);
      if cells[p].Full? {
        return false;
      }
      AddKey(cells[..], hash, place, model, k, p, index);
      ghost var was := cells[..];
      cells[p] := Full(k, index);
      assert cells[..] == was[p := Full(k, index)];
      place, model := place[k := p], model[k := index];
      inserted := true;
    }

    /** The lookup of vg_gguf_find_tensor and vg_gguf_meta through the table. */
    method Find(k: K) returns (found: bool, index: nat)
      requires Valid()
      ensures found == (k in model) && (found ==> index == model[k])
    {
      var p := HashFind(cells, hash, k, place, model);
      if cells[p].Full? {
        return true, cells[p].index;
      }
      found, index := false, 0;
    }
  }

  /** The map after inserting a list of keys: every key at its first place. */
  ghost function FirstPlaces<K(!new)>(keys: seq<K>): map<K, nat> {
    map k | k in keys :: First(keys, k)
  }

  lemma FirstPlacesGrow<K(!new)>(keys: seq<K>, k: K)
    ensures FirstPlaces(keys + [k]) == if k in keys then FirstPlaces(keys) else FirstPlaces(keys)[k := |keys|]
  {
    var all := keys + [k];
    forall j | j in all ensures First(all, j) == if j in keys then First(keys, j) else |keys| {
      if j in keys {
        FirstMisses(keys, j);
        forall i | 0 <= i < First(keys, j) ensures all[i] != j {
          FirstIsFirst(keys, j, i);
        }
        FirstIs(all, j, First(keys, j));
      } else {
        FirstIs(all, j, |keys|);
      }
    }
    assert all[|keys|] == k;
    forall j | j in keys ensures j in all {
      var i :| 0 <= i < |keys| && keys[i] == j;
      assert all[i] == j;
    }
  }

  /** One turn of the loops at the end of parse_index: the table holds one key more of the list. */
  method LoadOne<K(==, !new)>(t: Table<K>, keys: seq<K>, i: nat)
    requires i < |keys| && t.Valid() && t.model == FirstPlaces(keys[..i])
    modifies t, t.cells
    ensures t.Valid() && t.model == FirstPlaces(keys[..i + 1]) && (t.cells == old(t.cells) || fresh(t.cells))
  {
    FirstPlacesGrow(keys[..i], keys[i]);
    assert keys[..i] + [keys[i]] == keys[..i + 1];
    var inserted := t.Insert(keys[i], i);
  }

  /** Those loops. */
  method LoadTable<K(==, !new)>(keys: seq<K>, hash: imap<K, nat>) returns (t: Table<K>)
    requires TotalHash(hash)
    ensures fresh(t) && fresh(t.cells) && t.Valid() && t.model == FirstPlaces(keys)
  {
    t := new Table(|keys|, hash);
    for i := 0 to |keys|
      invariant fresh(t) && fresh(t.cells) && t.Valid() && t.model == FirstPlaces(keys[..i])
    {
      LoadOne(t, keys, i);
    }
    assert keys[..|keys|] == keys;
  }

  /** vg_gguf_find_tensor: through the table if there is one, else by a linear scan. Both say the same. */
  method FindTensor<K(==, !new)>(names: seq<K>, t: Table?<K>, name: K) returns (found: bool, index: nat)
    requires t != null ==> t.Valid() && t.model == FirstPlaces(names)
    ensures found == (name in names) && (found ==> index == First(names, name))
  {
    if t != null {
      found, index := t.Find(name);
      if found {
        return;
      }
    }
    for i := 0 to |names|
      invariant name !in names[..i]
    {
      if names[i] == name {
        FirstIs(names, name, i);
        return true, i;
      }
    }
    found, index := false, 0;
  }
}
