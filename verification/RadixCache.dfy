/** The radix prefix cache of src/kv_cache.c: a compressed trie grown in place, whose entries are
    snapshots forked from client sequences. It refines a plain map from token string to entry. */
module RadixCache {
  import opened KvStore
  import opened RadixTree

  // ----- what the lookup walk needs -----

  /** Below n, only strings that run through the edge to c start with the token after n's string. */
  lemma NoKeyInside(nodes: Nodes, sh: Shape, n: NodeId, c: NodeId, s: seq<Tok>)
    requires TreeOk(nodes, sh) && n in nodes && c in nodes[n].child && c in nodes && c in sh.key && sh.key[n] < s
    requires First(nodes, c) == s[|sh.key[n]|] && !(sh.key[c] <= s)
    ensures s !in sh.at
  {
    if s in sh.at {
      assert Named(nodes, sh, s);
      var d := Descend(nodes, sh, n, sh.at[s]);
      NextToken(nodes, sh, n, d, s);
      SameFirst(nodes, sh, n, c, d);
      assert false;
    }
  }

  lemma SameFirst(nodes: Nodes, sh: Shape, n: NodeId, c: NodeId, d: NodeId)
    requires TreeOk(nodes, sh) && n in nodes && c in nodes[n].child && d in nodes[n].child
    requires First(nodes, c) == First(nodes, d)
    ensures c == d
  {
    assert EdgeOk(nodes, sh, n, c) && EdgeOk(nodes, sh, n, d);
  }

  lemma {:induction false} LongestSkips(model: Model, q: seq<Tok>, a: nat, b: nat)
    requires a <= b <= |q| && forall i :: a < i <= b ==> !Usable(model, q[..i])
    ensures Longest(model, q, b) == Longest(model, q, a)
  {
    if a < b {
      LongestSkips(model, q, a, b - 1);
    }
  }

  /** The state of the walk after pos tokens of q. */
  ghost predicate Walking(nodes: Nodes, sh: Shape, q: seq<Tok>, n: NodeId, pos: nat) {
    TreeOk(nodes, sh) && n in nodes && pos <= |q| && sh.key[n] == q[..pos]
  }

  /** The walk stops at n: nothing longer than q[..pos] is stored along q. */
  lemma WalkStops(nodes: Nodes, sh: Shape, q: seq<Tok>, n: NodeId, pos: nat, i: nat)
    requires Walking(nodes, sh, q, n, pos) && pos < i <= |q|
    requires forall c :: c in nodes[n].child ==> First(nodes, c) != q[pos]
    ensures q[..i] !in sh.at
  {
    NoEdgeNoKey(nodes, sh, n, q[..i]);
  }

  lemma WalkInside(nodes: Nodes, sh: Shape, q: seq<Tok>, n: NodeId, pos: nat, c: NodeId, k: nat, i: nat)
    requires Walking(nodes, sh, q, n, pos) && pos < i <= |q| && Edge(nodes, q, n, pos, c, k)
    requires k < |nodes[c].tokens| || i < pos + k
    ensures q[..i] !in sh.at
  {
    assert EdgeOk(nodes, sh, n, c);
    NotThrough(q, pos, nodes[c].tokens, i, k);
    NoKeyInside(nodes, sh, n, c, q[..i]);
  }

  lemma NotThrough(q: seq<Tok>, pos: nat, t: seq<Tok>, i: nat, k: nat)
    requires pos < i <= |q| && Agree(q[pos..], t, k) && (k < |t| || i < pos + k)
    ensures !(q[..pos] + t <= q[..i])
  {
    if pos + |t| <= i && k < |t| {
      assert (q[..pos] + t)[pos + k] == t[k] != q[pos..][k] == q[..i][pos + k];
    }
  }

  /** c is the edge out of n that continues q, and agrees with q for exactly k tokens. */
  ghost predicate Edge(nodes: Nodes, q: seq<Tok>, n: NodeId, pos: nat, c: NodeId, k: nat)
    requires pos < |q|
  {
    n in nodes && c in nodes[n].child && c in nodes && First(nodes, c) == q[pos] && Agree(q[pos..], nodes[c].tokens, k)
  }

  /** k is the length of the longest common prefix. */
  ghost predicate Agree(a: seq<Tok>, b: seq<Tok>, k: nat) {
    k <= |a| && k <= |b| && a[..k] == b[..k] && (k < |a| && k < |b| ==> a[k] != b[k])
  }

  /** A whole edge is taken. */
  lemma WalkOn(nodes: Nodes, sh: Shape, q: seq<Tok>, n: NodeId, pos: nat, c: NodeId, k: nat)
    requires Walking(nodes, sh, q, n, pos) && pos < |q| && Edge(nodes, q, n, pos, c, k) && k == |nodes[c].tokens|
    ensures k > 0 && Walking(nodes, sh, q, c, pos + k)
  {
    assert EdgeOk(nodes, sh, n, c);
    assert q[..pos + k] == q[..pos] + q[pos..][..k];
  }

  lemma LongestHere(nodes: Nodes, sh: Shape, q: seq<Tok>, n: NodeId, pos: nat, c: NodeId, k: nat)
    requires Walking(nodes, sh, q, n, pos) && pos < |q| && Edge(nodes, q, n, pos, c, k) && k == |nodes[c].tokens| > 0
    requires Walking(nodes, sh, q, c, pos + k)
    ensures var m := ModelOf(nodes, sh);
            Longest(m, q, pos + k) ==
            if nodes[c].snapshot.Some? && !nodes[c].tainted then pos + k else Longest(m, q, pos)
  {
    var m := ModelOf(nodes, sh);
    forall i | pos < i <= pos + k - 1 ensures !Usable(m, q[..i]) {
      WalkInside(nodes, sh, q, n, pos, c, k, i);
    }
    LongestSkips(m, q, pos, pos + k - 1);
    assert EntryAt(nodes, sh, q[..pos + k]) ==
           if nodes[c].snapshot.Some?
             then Some(Entry(nodes[c].fp, nodes[c].tainted, nodes[c].snapshot.value)) else None by {
      assert NodeOk(nodes, sh, c);
    }
  }

  /** Where the walk stops, the best match so far is the best of all. */
  lemma LongestAtStop(nodes: Nodes, sh: Shape, q: seq<Tok>, n: NodeId, pos: nat, found: bool, c: NodeId, k: nat)
    requires Walking(nodes, sh, q, n, pos) && pos < |q|
    requires if found then Edge(nodes, q, n, pos, c, k) && k < |nodes[c].tokens|
             else forall d :: d in nodes[n].child ==> First(nodes, d) != q[pos]
    ensures Longest(ModelOf(nodes, sh), q, |q|) == Longest(ModelOf(nodes, sh), q, pos)
  {
    forall i | pos < i <= |q| ensures !Usable(ModelOf(nodes, sh), q[..i]) {
      if found {
        WalkInside(nodes, sh, q, n, pos, c, k, i);
      } else {
        WalkStops(nodes, sh, q, n, pos, i);
      }
    }
    LongestSkips(ModelOf(nodes, sh), q, pos, |q|);
  }

  /** The best match among the first pos tokens of q, and its snapshot. */
  ghost predicate Best(model: Model, q: seq<Tok>, pos: nat, matched: nat, snapshot: Option<SeqId>) {
    pos <= |q| && matched == Longest(model, q, pos) &&
    snapshot == if matched == 0 then None else Some(model[q[..matched]].snapshot)
  }

  /** One whole edge of the walk. */
  lemma BestOn(nodes: Nodes, sh: Shape, q: seq<Tok>, n: NodeId, pos: nat, c: NodeId, k: nat, matched: nat,
               snapshot: Option<SeqId>)
    requires Walking(nodes, sh, q, n, pos) && pos < |q| && Edge(nodes, q, n, pos, c, k) && k == |nodes[c].tokens|
    requires Best(ModelOf(nodes, sh), q, pos, matched, snapshot)
    ensures k > 0 && Walking(nodes, sh, q, c, pos + k)
    ensures if nodes[c].snapshot.Some? && !nodes[c].tainted
            then Best(ModelOf(nodes, sh), q, pos + k, pos + k, nodes[c].snapshot)
            else Best(ModelOf(nodes, sh), q, pos + k, matched, snapshot)
  {
    WalkOn(nodes, sh, q, n, pos, c, k);
    LongestHere(nodes, sh, q, n, pos, c, k);
    assert NodeOk(nodes, sh, c);
  }

  lemma BestAtStop(nodes: Nodes, sh: Shape, q: seq<Tok>, n: NodeId, pos: nat, found: bool, c: NodeId, k: nat,
                   matched: nat, snapshot: Option<SeqId>)
    requires Walking(nodes, sh, q, n, pos) && pos < |q|
    requires if found then Edge(nodes, q, n, pos, c, k) && k < |nodes[c].tokens|
             else forall d :: d in nodes[n].child ==> First(nodes, d) != q[pos]
    requires Best(ModelOf(nodes, sh), q, pos, matched, snapshot)
    ensures Best(ModelOf(nodes, sh), q, |q|, matched, snapshot)
  {
    LongestAtStop(nodes, sh, q, n, pos, found, c, k);
  }

  // ----- what insertion needs -----

  /** The tree, and node handles not yet given out. */
  ghost predicate Grown(nodes: Nodes, sh: Shape, nextNode: NodeId) {
    TreeOk(nodes, sh) && nextNode > ROOT && forall n :: n in nodes ==> n < nextNode
  }

  ghost predicate SameEntries(nodes: Nodes, sh: Shape, nodes': Nodes, sh': Shape) {
    ModelOf(nodes', sh') == ModelOf(nodes, sh)
  }

  /** Growing a leaf where no edge continues. */
  lemma GrowLeaf(nodes: Nodes, sh: Shape, n: NodeId, toks: seq<Tok>, id: NodeId)
    requires Grown(nodes, sh, id) && n in nodes && |toks| > 0
    requires forall c :: c in nodes[n].child ==> First(nodes, c) != toks[0]
    ensures Grown(WithLeaf(nodes, n, toks, id), LeafShape(sh, n, toks, id), id + 1)
    ensures SameEntries(nodes, sh, WithLeaf(nodes, n, toks, id), LeafShape(sh, n, toks, id))
  {
    LeafOk(nodes, sh, n, toks, id);
    var nodes', sh' := WithLeaf(nodes, n, toks, id), LeafShape(sh, n, toks, id);
    forall k ensures EntryAt(nodes', sh', k) == EntryAt(nodes, sh, k) {
      assert k in sh.at ==> Named(nodes, sh, k);
      LeafKeepsEntry(nodes, sh, n, toks, id, k);
    }
    SameModel(nodes, sh, nodes', sh');
  }

  /** Cutting an edge part-way. */
  lemma GrowSplit(nodes: Nodes, sh: Shape, n: NodeId, c: NodeId, k: nat, id: NodeId, mid: seq<Tok>)
    requires Grown(nodes, sh, id) && Cut(nodes, sh, n, c, k, id, mid)
    ensures Grown(WithSplit(nodes, c, k, id), SplitShape(nodes, sh, c, k, id), id + 1)
    ensures SameEntries(nodes, sh, WithSplit(nodes, c, k, id), SplitShape(nodes, sh, c, k, id))
    ensures SplitShape(nodes, sh, c, k, id).key[c] == mid
  {
    CutFacts(nodes, sh, n, c, k, id, mid);
    SplitOk(nodes, sh, n, c, k, id, mid);
    var nodes', sh' := WithSplit(nodes, c, k, id), SplitShape(nodes, sh, c, k, id);
    forall x ensures EntryAt(nodes', sh', x) == EntryAt(nodes, sh, x) {
      assert x in sh.at ==> Named(nodes, sh, x);
      SplitKeepsEntry(nodes, sh, c, k, id, mid, x);
    }
    SameModel(nodes, sh, nodes', sh');
  }

  /** An edge that the walk follows only part-way is cut where the strings part. */
  lemma CutHere(nodes: Nodes, sh: Shape, q: seq<Tok>, n: NodeId, pos: nat, c: NodeId, k: nat, id: NodeId)
    requires Grown(nodes, sh, id) && Walking(nodes, sh, q, n, pos) && pos < |q| && Edge(nodes, q, n, pos, c, k)
    requires k < |nodes[c].tokens|
    ensures pos + k <= |q| && Cut(nodes, sh, n, c, k, id, q[..pos + k])
  {
    assert EdgeOk(nodes, sh, n, c);
    assert k > 0 by {
      assert q[pos..][0] == q[pos] == nodes[c].tokens[0];
    }
    assert q[..pos + k] == q[..pos] + q[pos..][..k];
  }

  /** A string falls apart at pos + k, where it leaves the edge string t. */
  lemma Rejoin(s: seq<Tok>, pos: nat, k: nat, t: seq<Tok>)
    requires pos + k <= |s| && Agree(s[pos..], t, k)
    ensures s[..pos + k] + s[pos + k..] == s && (pos + k == |s| ==> s[..pos + k] == s)
    ensures pos + k < |s| && k < |t| ==> s[pos + k..][0] != t[k]
  {
  }

  /** Setting the snapshot of a node sets the entry of its string. */
  lemma SetEntry(nodes: Nodes, sh: Shape, nextNode: NodeId, n: NodeId, e: Entry, nodes': Nodes)
    requires Grown(nodes, sh, nextNode) && n in nodes
    requires nodes' == nodes[n := nodes[n].(snapshot := Some(e.snapshot), fp := e.fp, tainted := e.tainted)]
    ensures Grown(nodes', sh, nextNode) && ModelOf(nodes', sh) == ModelOf(nodes, sh)[sh.key[n] := e]
  {
    SameShape(nodes, sh, nodes');
    forall k | k != sh.key[n] ensures EntryAt(nodes', sh, k) == EntryAt(nodes, sh, k) {
      assert k in sh.at ==> Named(nodes, sh, k);
    }
    assert NodeOk(nodes, sh, n);
    OneEntry(ModelOf(nodes, sh), ModelOf(nodes', sh), nodes, nodes', sh, sh.key[n], e);
  }

  lemma OneEntry(a: Model, b: Model, nodes: Nodes, nodes': Nodes, sh: Shape, key: seq<Tok>, e: Entry)
    requires a == ModelOf(nodes, sh) && b == ModelOf(nodes', sh) && EntryAt(nodes', sh, key) == Some(e)
    requires forall k :: k != key ==> EntryAt(nodes', sh, k) == EntryAt(nodes, sh, k)
    ensures b == a[key := e]
  {
    forall k ensures k in b <==> k in a[key := e] {
      assert k != key ==> EntryAt(nodes', sh, k) == EntryAt(nodes, sh, k);
    }
    forall k | k in b ensures b[k] == a[key := e][k] {
      assert k != key ==> EntryAt(nodes', sh, k) == EntryAt(nodes, sh, k);
    }
  }

  /** Tokens and children alone make the shape. */
  lemma SameShape(nodes: Nodes, sh: Shape, nodes': Nodes)
    requires TreeOk(nodes, sh) && nodes'.Keys == nodes.Keys
    requires forall n :: n in nodes ==> nodes'[n].tokens == nodes[n].tokens && nodes'[n].child == nodes[n].child
    ensures TreeOk(nodes', sh)
  {
    forall n | n in nodes' ensures NodeOk(nodes', sh, n) && Linked(nodes', sh, n) {
      assert NodeOk(nodes, sh, n) && Linked(nodes, sh, n);
      forall c | c in nodes'[n].child ensures EdgeOk(nodes', sh, n, c) {
        assert EdgeOk(nodes, sh, n, c);
      }
    }
    forall k | k in sh.at ensures Named(nodes', sh, k) {
      assert Named(nodes, sh, k);
    }
  }

  // ----- what invalidation needs -----

  function Cleared(nodes: Nodes, done: set<NodeId>): (r: Nodes)
    ensures r.Keys == nodes.Keys
  {
    map n | n in nodes :: if n in done then nodes[n].(snapshot := None) else nodes[n]
  }

  /** The sequences held as snapshots by the nodes of a set. */
  ghost function Snapshots(nodes: Nodes, done: set<NodeId>): set<SeqId> {
    set n | n in done && n in nodes && nodes[n].snapshot.Some? :: nodes[n].snapshot.value
  }

  lemma ClearOne(nodes: Nodes, done: set<NodeId>, n: NodeId)
    requires n in nodes
    ensures Cleared(nodes, done + {n}) == Cleared(nodes, done)[n := Cleared(nodes, done)[n].(snapshot := None)]
    ensures Snapshots(nodes, done + {n}) ==
            Snapshots(nodes, done) + (if nodes[n].snapshot.Some? then {nodes[n].snapshot.value} else {})
  {
  }

  /** An invalidation under way: the nodes in done are cleared, and their snapshots are gone. */
  ghost predicate Clearing(nodes: Nodes, sh: Shape, seqs: map<SeqId, Sequence>, before: Nodes,
                           seqs0: map<SeqId, Sequence>, done: set<NodeId>)
  {
    TreeOk(before, sh) && SnapshotsOk(ModelOf(before, sh), seqs0) &&
    nodes == Cleared(before, done) && seqs == seqs0 - Snapshots(before, done)
  }

  /** The snapshot of a node not yet cleared is still open. */
  lemma StillOpen(nodes: Nodes, sh: Shape, seqs: map<SeqId, Sequence>, before: Nodes, seqs0: map<SeqId, Sequence>,
                  done: set<NodeId>, n: NodeId)
    requires Clearing(nodes, sh, seqs, before, seqs0, done) && n in nodes && nodes[n].snapshot.Some?
    ensures n in before && before[n].snapshot == nodes[n].snapshot && nodes[n].snapshot.value in seqs
  {
    var v := before[n].snapshot.value;
    SnapshotOf(before, sh, seqs0, n);
    forall m | m in done && m in before && before[m].snapshot.Some? ensures before[m].snapshot.value != v {
      SnapshotOf(before, sh, seqs0, m);
    }
  }

  lemma SnapshotOf(nodes: Nodes, sh: Shape, seqs: map<SeqId, Sequence>, n: NodeId)
    requires TreeOk(nodes, sh) && SnapshotsOk(ModelOf(nodes, sh), seqs) && n in nodes && nodes[n].snapshot.Some?
    ensures nodes[n].snapshot.value in seqs && seqs[nodes[n].snapshot.value].tokens == sh.key[n]
    ensures sh.at[sh.key[n]] == n
  {
    EntryOf(nodes, sh, n);
    assert NodeOk(nodes, sh, n);
    assert sh.key[n] in ModelOf(nodes, sh);
  }

  /** The whole subtree of n is in done. */
  ghost predicate Covered(nodes: Nodes, sh: Shape, n: NodeId, done: set<NodeId>)
    requires n in sh.key
  {
    forall m :: m in nodes && m in sh.key && sh.key[n] <= sh.key[m] ==> m in done
  }

  /** A node and the subtrees of its children make its subtree. */
  lemma CoveredByChildren(nodes: Nodes, sh: Shape, n: NodeId, done: set<NodeId>)
    requires TreeOk(nodes, sh) && n in nodes && n in done
    requires KidsCovered(nodes, sh, nodes[n].child, |nodes[n].child|, done)
    ensures n in sh.key && Covered(nodes, sh, n, done)
  {
    assert NodeOk(nodes, sh, n);
    forall m | m in nodes && m in sh.key && sh.key[n] <= sh.key[m] ensures m in done {
      assert NodeOk(nodes, sh, n) && NodeOk(nodes, sh, m);
      if |sh.key[m]| > |sh.key[n]| {
        var c := Descend(nodes, sh, n, m);
        assert Covered(nodes, sh, c, done);
      } else {
        assert sh.key[m] == sh.key[n];
      }
    }
  }

  /** One more node cleared and its snapshot closed. */
  lemma ClearingOneMore(nodes: Nodes, sh: Shape, seqs: map<SeqId, Sequence>, before: Nodes,
                        seqs0: map<SeqId, Sequence>, done: set<NodeId>, n: NodeId)
    requires Clearing(nodes, sh, seqs, before, seqs0, done) && n in nodes
    ensures nodes[n].snapshot.Some? ==> nodes[n].snapshot.value in seqs
    ensures if nodes[n].snapshot.Some?
            then Clearing(nodes[n := nodes[n].(snapshot := None)], sh, seqs - {nodes[n].snapshot.value}, before,
              seqs0, done + {n})
            else Clearing(nodes, sh, seqs, before, seqs0, done + {n})
  {
    ClearOne(before, done, n);
    if nodes[n].snapshot.Some? {
      StillOpen(nodes, sh, seqs, before, seqs0, done, n);
      Without(seqs0, Snapshots(before, done), nodes[n].snapshot.value);
    } else if before[n].snapshot.Some? {
      assert n in done;
      assert done + {n} == done;
    }
  }

  lemma Without(seqs: map<SeqId, Sequence>, gone: set<SeqId>, v: SeqId)
    ensures seqs - gone - {v} == seqs - (gone + {v})
  {
  }

  ghost predicate Child(before: Nodes, sh: Shape, n: NodeId, c: NodeId, limit: nat) {
    c in before && n in sh.key && c in sh.key && |sh.key[n]| < |sh.key[c]| <= limit
  }

  lemma ChildrenOf(nodes: Nodes, sh: Shape, seqs: map<SeqId, Sequence>, before: Nodes, seqs0: map<SeqId, Sequence>,
                   done: set<NodeId>, n: NodeId, limit: nat)
    requires Clearing(nodes, sh, seqs, before, seqs0, done) && n in nodes
    requires forall m :: m in before ==> m in sh.key && |sh.key[m]| <= limit
    ensures n in before && nodes[n].child == before[n].child
    ensures forall c :: c in nodes[n].child ==> Child(before, sh, n, c, limit)
  {
    assert NodeOk(before, sh, n);
    forall c | c in before[n].child ensures Child(before, sh, n, c, limit) {
      assert EdgeOk(before, sh, n, c);
    }
  }

  lemma KeepsKeys(nodes: Nodes, sh: Shape, seqs: map<SeqId, Sequence>, before: Nodes, seqs0: map<SeqId, Sequence>,
                  done: set<NodeId>)
    requires Clearing(nodes, sh, seqs, before, seqs0, done)
    ensures nodes.Keys == before.Keys
  {
  }

  ghost predicate KidsCovered(before: Nodes, sh: Shape, kids: seq<NodeId>, i: nat, done: set<NodeId>) {
    i <= |kids| && forall j :: 0 <= j < i ==> kids[j] in sh.key && Covered(before, sh, kids[j], done)
  }

  lemma OneMoreKid(before: Nodes, sh: Shape, kids: seq<NodeId>, i: nat, was: set<NodeId>, done: set<NodeId>)
    requires KidsCovered(before, sh, kids, i, was) && was <= done && i < |kids|
    requires kids[i] in sh.key && Covered(before, sh, kids[i], done)
    ensures KidsCovered(before, sh, kids, i + 1, done)
  {
    forall j | 0 <= j < i ensures Covered(before, sh, kids[j], done) {
      assert Covered(before, sh, kids[j], was);
    }
  }

  /** Some length bounds every node's string. */
  lemma {:induction false} KeysBounded(sh: Shape, ids: set<NodeId>) returns (limit: nat)
    requires forall m :: m in ids ==> m in sh.key
    ensures forall m :: m in ids ==> |sh.key[m]| <= limit
    decreases ids
  {
    if ids == {} {
      return 0;
    }
    var m :| m in ids;
    limit := KeysBounded(sh, ids - {m});
    if |sh.key[m]| > limit {
      limit := |sh.key[m]|;
    }
  }

  // ----- the cache itself -----

  class Radix {
    const store: Store
    var nodes: Nodes
    var nextNode: NodeId
    var lookups: nat
    var hits: nat
    var tokensReused: nat
    ghost var sh: Shape

    ghost predicate Valid()
      reads this, store
    {
      store.Valid() && Grown(nodes, sh, nextNode) && SnapshotsOk(ModelOf(nodes, sh), store.seqs)
    }

    /** The map from token string to entry that the trie stands for. */
    ghost function Entries(): Model
      reads this
    {
      ModelOf(nodes, sh)
    }

    /** vg_radix_open. */
    constructor (s: Store)
      requires s.Valid()
      ensures Valid() && store == s && Entries() == map[] && lookups == hits == tokensReused == 0
    {
      store := s;
      nodes, nextNode := map[ROOT := Node([], None, 0, false, [])], 1;
      lookups, hits, tokensReused := 0, 0, 0;
      sh := Shape(map[ROOT := []], map[[] := ROOT], map[], map[]);
    }

    /** child_find. */
    method ChildFind(n: NodeId, token: Tok) returns (found: bool, c: NodeId)
      requires n in nodes
      ensures if found then c in nodes[n].child && First(nodes, c) == token
              else forall d :: d in nodes[n].child ==> First(nodes, d) != token
    {
      found, c := false, ROOT;
      var kids := nodes[n].child;
      for i := 0 to |kids|
        invariant forall j :: 0 <= j < i ==> First(nodes, kids[j]) != token
      {
        if First(nodes, kids[i]) == token {
          return true, kids[i];
        }
      }
    }

    /** common: the length of the longest common prefix. */
    static method Common(a: seq<Tok>, b: seq<Tok>) returns (k: nat)
      ensures Agree(a, b, k)
    {
      k := 0;
      while k < |a| && k < |b| && a[k] == b[k]
        invariant k <= |a| && k <= |b| && a[..k] == b[..k]
      {
        k := k + 1;
      }
    }

    /** vg_radix_lookup: the longest usable entry that prefixes q, and its snapshot. */
    method Lookup(q: seq<Tok>) returns (matched: nat, snapshot: Option<SeqId>)
      requires Valid()
      modifies this`lookups, this`hits, this`tokensReused
      ensures matched == Longest(Entries(), q, |q|)
      ensures snapshot == if matched == 0 then None else Some(Entries()[q[..matched]].snapshot)
      ensures matched > 0 ==> snapshot.value in store.seqs && store.seqs[snapshot.value].tokens == q[..matched]
      ensures lookups == old(lookups) + 1 && hits == old(hits) + (if matched > 0 then 1 else 0) &&
              tokensReused == old(tokensReused) + matched
    {
      lookups := lookups + 1;
      matched, snapshot := Walk(q);
      if snapshot.Some? {
        hits, tokensReused := hits + 1, tokensReused + matched;
      }
    }

    /** The walk of lines 164-165. */
    method Walk(q: seq<Tok>) returns (matched: nat, snapshot: Option<SeqId>)
      requires TreeOk(nodes, sh)
      ensures Best(ModelOf(nodes, sh), q, |q|, matched, snapshot)
    {
      var n, pos := ROOT, 0;
      matched, snapshot := 0, None;
      while pos < |q|
        invariant Walking(nodes, sh, q, n, pos)
        invariant Best(ModelOf(nodes, sh), q, pos, matched, snapshot)
        decreases |q| - pos
      {
        var found, c := ChildFind(n, q[pos]);
        if !found {
          BestAtStop(nodes, sh, q, n, pos, false, c, 0, matched, snapshot);
          return;
        }
        var k := Common(q[pos..], nodes[c].tokens);
        if k != |nodes[c].tokens| {
          BestAtStop(nodes, sh, q, n, pos, true, c, k, matched, snapshot);
          return;
        }
        BestOn(nodes, sh, q, n, pos, c, k, matched, snapshot);
        n, pos := c, pos + k;
        if nodes[n].snapshot.Some? && !nodes[n].tainted {
          matched, snapshot := pos, nodes[n].snapshot;
        }
      }
    }

    /** A new leaf under n, for the walk of line 173. */
    method AddLeaf(n: NodeId, toks: seq<Tok>) returns (leaf: NodeId)
      requires Grown(nodes, sh, nextNode) && n in nodes && |toks| > 0
      requires forall c :: c in nodes[n].child ==> First(nodes, c) != toks[0]
      modifies this`nodes, this`nextNode, this`sh
      ensures Grown(nodes, sh, nextNode) && ModelOf(nodes, sh) == old(ModelOf(nodes, sh))
      ensures leaf in nodes && sh.key[leaf] == old(sh.key[n]) + toks
    {
      leaf := nextNode;
      GrowLeaf(nodes, sh, n, toks, leaf);
      sh := LeafShape(sh, n, toks, leaf);
      nodes := WithLeaf(nodes, n, toks, leaf);
      nextNode := nextNode + 1;
    }

    /** The edge split of line 173: c keeps k tokens and gets one child, the rest of the edge. */
    method SplitEdge(n: NodeId, c: NodeId, k: nat, ghost mid: seq<Tok>)
      requires Grown(nodes, sh, nextNode) && Cut(nodes, sh, n, c, k, nextNode, mid)
      modifies this`nodes, this`nextNode, this`sh
      ensures Grown(nodes, sh, nextNode) && ModelOf(nodes, sh) == old(ModelOf(nodes, sh))
      ensures c in nodes && sh.key[c] == mid
      ensures forall d :: d in nodes[c].child ==> First(nodes, d) == old(nodes[c].tokens[k])
    {
      GrowSplit(nodes, sh, n, c, k, nextNode, mid);
      sh := SplitShape(nodes, sh, c, k, nextNode);
      nodes := WithSplit(nodes, c, k, nextNode);
      nextNode := nextNode + 1;
    }

    /** The walk of line 173: the node of a token string, grown where it is missing. */
    method Locate(toks: seq<Tok>) returns (n: NodeId)
      requires Grown(nodes, sh, nextNode)
      modifies this`nodes, this`nextNode, this`sh
      ensures Grown(nodes, sh, nextNode) && ModelOf(nodes, sh) == old(ModelOf(nodes, sh))
      ensures n in nodes && sh.key[n] == toks
    {
      n := ROOT;
      var pos := 0;
      while pos < |toks|
        invariant Grown(nodes, sh, nextNode) && ModelOf(nodes, sh) == old(ModelOf(nodes, sh))
        invariant Walking(nodes, sh, toks, n, pos)
        decreases |toks| - pos
      {
        var found, c := ChildFind(n, toks[pos]);
        if !found {
          Rejoin(toks, pos, 0, []);
          n := AddLeaf(n, toks[pos..]);
          return;
        }
        var k := Common(toks[pos..], nodes[c].tokens);
        if k < |nodes[c].tokens| {
          CutHere(nodes, sh, toks, n, pos, c, k, nextNode);
          n := Branch(toks, n, pos, c, k);
          return;
        }
        WalkOn(nodes, sh, toks, n, pos, c, k);
        n, pos := c, pos + k;
      }
    }

    /** The part-way case: split, and hang the rest of the string from the split if there is a rest. */
    method Branch(toks: seq<Tok>, n: NodeId, pos: nat, c: NodeId, k: nat) returns (leaf: NodeId)
      requires pos + k <= |toks| && pos < |toks| && Grown(nodes, sh, nextNode)
      requires Cut(nodes, sh, n, c, k, nextNode, toks[..pos + k]) && Agree(toks[pos..], nodes[c].tokens, k)
      modifies this`nodes, this`nextNode, this`sh
      ensures Grown(nodes, sh, nextNode) && ModelOf(nodes, sh) == old(ModelOf(nodes, sh))
      ensures leaf in nodes && sh.key[leaf] == toks
    {
      Rejoin(toks, pos, k, nodes[c].tokens);
      SplitEdge(n, c, k, toks[..pos + k]);
      if k == |toks| - pos {
        return c;
      }
      leaf := AddLeaf(c, toks[pos + k..]);
    }

    /** Lines 172-174: the node of the string, and the snapshot it held closed. */
    method MakeRoom(key: seq<Tok>) returns (n: NodeId)
      requires Valid()
      modifies this`nodes, this`nextNode, this`sh, store`pages, store`seqs
      ensures store.Valid() && Grown(nodes, sh, nextNode) && n in nodes && sh.key[n] == key
      ensures Entries() == old(Entries()) && store.seqs == Freed(old(store.seqs), old(Entries()), key)
    {
      n := Locate(key);
      FreedBy(nodes, sh, n, store.seqs);
      if nodes[n].snapshot.Some? {
        SnapshotOf(nodes, sh, store.seqs, n);
        store.Close(nodes[n].snapshot.value);
      }
    }

    /** vg_radix_insert, on every sequence that is still live when line 175 forks from it (SourceLives says which). */
    method Insert(q: SeqId, count: nat, fp: nat, tainted: bool) returns (st: Status)
      requires Valid() && q in store.seqs
      requires count <= |store.seqs[q].tokens| ==> q in Freed(store.seqs, Entries(), store.seqs[q].tokens[..count])
      modifies this`nodes, this`nextNode, this`sh, store`pages, store`seqs, store`nextSeq
      ensures Valid() && st == if count > |old(store.seqs[q].tokens)| then Invalid else Ok
      ensures st != Ok ==> Entries() == old(Entries()) && store.seqs == old(store.seqs)
      ensures st == Ok ==> var key := old(store.seqs[q].tokens)[..count];
                           key in Entries() &&
                           Entries() == old(Entries())[key := Entry(fp, tainted, Entries()[key].snapshot)] &&
                           Inserted(old(store.seqs), store.seqs, old(Entries()), key, Entries()[key].snapshot)
    {
      if count > |store.seqs[q].tokens| {
        return Invalid;
      }
      var key := store.seqs[q].tokens[..count];
      ghost var model, before := Entries(), store.seqs;
      var n := MakeRoom(key);
      var snapshot;
      st, snapshot := store.Fork(q, count);
      ghost var e := Entry(fp, tainted, snapshot);
      SnapshotsKept(store.cfg, model, before, store.seqs, q, key, e);
      ghost var nodes0 := nodes;
      nodes := nodes[n := nodes[n].(snapshot := Some(snapshot), fp := fp, tainted := tainted)];
      SetEntry(nodes0, sh, nextNode, n, e, nodes);
    }

    /** node_invalidate_all: n's snapshot first, then its children's subtrees. */
    method InvalidateNode(n: NodeId, ghost before: Nodes, ghost seqs0: map<SeqId, Sequence>, ghost done0: set<NodeId>,
                          ghost limit: nat) returns (ghost done: set<NodeId>)
      requires store.Valid() && Clearing(nodes, sh, store.seqs, before, seqs0, done0) && n in nodes
      requires forall m :: m in before ==> m in sh.key && |sh.key[m]| <= limit
      modifies this`nodes, store`pages, store`seqs
      ensures store.Valid() && Clearing(nodes, sh, store.seqs, before, seqs0, done)
      ensures done0 <= done && n in sh.key && Covered(before, sh, n, done)
      decreases limit - |sh.key[n]|
    {
      ClearStep(n, before, seqs0, done0);
      done := done0 + {n};
      var kids := nodes[n].child;
      ChildrenOf(nodes, sh, store.seqs, before, seqs0, done, n, limit);
      for i := 0 to |kids|
        invariant store.Valid() && Clearing(nodes, sh, store.seqs, before, seqs0, done) && done0 + {n} <= done
        invariant KidsCovered(before, sh, kids, i, done)
      {
        ghost var was := done;
        assert Child(before, sh, n, kids[i], limit);
        KeepsKeys(nodes, sh, store.seqs, before, seqs0, done);
        done := InvalidateNode(kids[i], before, seqs0, was, limit);
        OneMoreKid(before, sh, kids, i, was, done);
      }
      CoveredByChildren(before, sh, n, done);
    }

    /** Closing and forgetting one node's snapshot. */
    method ClearStep(n: NodeId, ghost before: Nodes, ghost seqs0: map<SeqId, Sequence>, ghost done: set<NodeId>)
      requires store.Valid() && Clearing(nodes, sh, store.seqs, before, seqs0, done) && n in nodes
      modifies this`nodes, store`pages, store`seqs
      ensures store.Valid() && Clearing(nodes, sh, store.seqs, before, seqs0, done + {n}) && n in nodes
    {
      ClearingOneMore(nodes, sh, store.seqs, before, seqs0, done, n);
      if nodes[n].snapshot.Some? {
        store.Close(nodes[n].snapshot.value);
        nodes := nodes[n := nodes[n].(snapshot := None)];
      }
    }

    /** vg_radix_invalidate: both identities are ignored, so every entry goes; other sequences stay. */
    method Invalidate(modelIdentity: nat, adapterIdentity: nat)
      requires Valid()
      modifies this`nodes, store`pages, store`seqs
      ensures Valid() && Entries() == map[]
      ensures store.seqs == old(store.seqs) - Snapshots(old(nodes), old(nodes).Keys)
    {
      ghost var before := nodes;
      ghost var limit := KeysBounded(sh, before.Keys);
      assert Cleared(before, {}) == before && Snapshots(before, {}) == {};
      ghost var done := InvalidateNode(ROOT, before, store.seqs, {}, limit);
      ClearedHoldsNothing(before, sh, done);
      AllSnapshots(before, done);
    }
  }

  lemma AllSnapshots(nodes: Nodes, done: set<NodeId>)
    requires nodes.Keys <= done
    ensures Snapshots(nodes, done) == Snapshots(nodes, nodes.Keys)
  {
  }

  /** A cleared tree keeps its shape and holds nothing. */
  lemma ClearedHoldsNothing(nodes: Nodes, sh: Shape, done: set<NodeId>)
    requires TreeOk(nodes, sh) && nodes.Keys <= done
    ensures TreeOk(Cleared(nodes, done), sh) && ModelOf(Cleared(nodes, done), sh) == map[]
  {
    SameShape(nodes, sh, Cleared(nodes, done));
  }

  /** The entry of a node's own string. */
  lemma EntryOf(nodes: Nodes, sh: Shape, n: NodeId)
    requires TreeOk(nodes, sh) && n in nodes
    ensures EntryAt(nodes, sh, sh.key[n]) ==
            if nodes[n].snapshot.Some?
              then Some(Entry(nodes[n].fp, nodes[n].tainted, nodes[n].snapshot.value)) else None
  {
    assert NodeOk(nodes, sh, n);
  }

  /** The store after an insertion: one fresh snapshot, the one it replaces gone, the rest untouched. */
  ghost predicate Inserted(before: map<SeqId, Sequence>, after: map<SeqId, Sequence>, model: Model, key: seq<Tok>,
                           s: SeqId)
  {
    s in after && after[s].tokens == key && s !in Freed(before, model, key) &&
    after == Freed(before, model, key)[s := after[s]]
  }

  ghost function Freed(before: map<SeqId, Sequence>, model: Model, key: seq<Tok>): map<SeqId, Sequence> {
    if key in model then before - {model[key].snapshot} else before
  }

  /** Every snapshot that lookup can hand out. */
  ghost function Handed(model: Model): set<SeqId> {
    set k | k in model :: model[k].snapshot
  }

  /** The sequence to fork from is still live after the close if and only if it is not one of the cache's own snapshots
      inserted again at its own length. */
  lemma SourceLives(model: Model, seqs: map<SeqId, Sequence>, q: SeqId, count: nat)
    requires SnapshotsOk(model, seqs) && q in seqs && count <= |seqs[q].tokens|
    ensures q in Freed(seqs, model, seqs[q].tokens[..count]) <==> !(count == |seqs[q].tokens| && q in Handed(model))
  {
    var key := seqs[q].tokens[..count];
    if key in model && model[key].snapshot == q {
      assert seqs[model[key].snapshot].tokens == key;
    }
    if count == |seqs[q].tokens| && q in Handed(model) {
      var k :| k in model && model[k].snapshot == q;
      assert seqs[model[k].snapshot].tokens == k == key;
    }
  }

  /** A fresh store with one sequence, of the token 7. */
  method OneToken() returns (store: Store, q: SeqId)
    ensures fresh(store) && store.Valid() && q in store.seqs && store.seqs[q].tokens == [7]
  {
    store := new Store(Config(1, 1, 1, 1, 1, 0, 0));
    q := store.SequenceInit();
    var appended := store.Append(q, 7);
  }

  /** A fresh cache with the one-token string [7] in it. */
  method OneInserted() returns (r: Radix)
    ensures fresh(r) && fresh(r.store) && r.Valid() && r.Entries().Keys == {[7]} && !r.Entries()[[7]].tainted
  {
    var store, q := OneToken();
    r := new Radix(store);
    assert store.seqs[q].tokens[..1] == [7];
    var inserted := r.Insert(q, 1, 0, false);
  }

  lemma OneLongest(model: Model)
    requires model.Keys == {[7]} && !model[[7]].tainted
    ensures Longest(model, [7], 1) == 1
  {
    assert [7][..1] == [7];
    assert [7] in model.Keys;
  }

  /** Such a state is four calls away: what lookup hands out, inserted again at the length that lookup reports, would
      be closed before it is forked. */
  method LookedUp() returns (r: Radix, s: SeqId, matched: nat)
    ensures fresh(r) && fresh(r.store) && r.Valid() && s in r.store.seqs && matched == |r.store.seqs[s].tokens|
    ensures s !in Freed(r.store.seqs, r.Entries(), r.store.seqs[s].tokens[..matched])
  {
    r := OneInserted();
    OneLongest(r.Entries());
    var snapshot;
    matched, snapshot := r.Lookup([7]);
    s := snapshot.value;
    assert [7][..1] == [7];
    SourceLives(r.Entries(), r.store.seqs, s, matched);
  }

  lemma FreedBy(nodes: Nodes, sh: Shape, n: NodeId, seqs: map<SeqId, Sequence>)
    requires TreeOk(nodes, sh) && n in nodes
    ensures Freed(seqs, ModelOf(nodes, sh), sh.key[n]) ==
            if nodes[n].snapshot.Some? then seqs - {nodes[n].snapshot.value} else seqs
  {
    EntryOf(nodes, sh, n);
  }

  lemma SnapshotsKept(cfg: Config, model: Model, before: map<SeqId, Sequence>, after: map<SeqId, Sequence>, q: SeqId,
                      key: seq<Tok>, e: Entry)
    requires SnapshotsOk(model, before) && Inserted(before, after, model, key, e.snapshot)
    ensures SnapshotsOk(model[key := e], after)
  {
    forall k | k in model && k != key ensures model[k].snapshot in after && after[model[k].snapshot].tokens == k {
      assert model[k].snapshot in before && before[model[k].snapshot].tokens == k;
    }
  }
}
