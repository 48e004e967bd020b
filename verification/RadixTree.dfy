/** The compressed prefix tree of src/kv_cache.c as a table of nodes, and the lemmas about its shape:
    every node stands for one token string, and edges of one node start with different tokens. */
module RadixTree {
  import opened KvStore

  type NodeId = nat

  datatype Option<T> = None | Some(value: T)

  datatype Node = Node(tokens: seq<Tok>, snapshot: Option<SeqId>, fp: nat, tainted: bool, child: seq<NodeId>)

  type Nodes = map<NodeId, Node>

  /** The string of every node, the node of every string, the node behind every branch (a string and
      one more token), and how much of a node's string its parent has. */
  datatype Shape = Shape(key: map<NodeId, seq<Tok>>, at: map<seq<Tok>, NodeId>, branch: map<seq<Tok>, NodeId>,
                         stem: map<NodeId, nat>)

  const ROOT: NodeId := 0

  ghost predicate EdgeOk(nodes: Nodes, sh: Shape, n: NodeId, c: NodeId)
    requires n in sh.key
  {
    c in nodes && c in sh.key && c in sh.stem && |nodes[c].tokens| > 0 &&
    sh.key[c] == sh.key[n] + nodes[c].tokens && sh.stem[c] == |sh.key[n]| &&
    var b := sh.key[n] + [nodes[c].tokens[0]]; b in sh.branch && sh.branch[b] == c
  }

  ghost predicate NodeOk(nodes: Nodes, sh: Shape, n: NodeId)
    requires n in nodes
  {
    n in sh.key && sh.key[n] in sh.at && sh.at[sh.key[n]] == n &&
    forall c :: c in nodes[n].child ==> EdgeOk(nodes, sh, n, c)
  }

  /** Every node but the root hangs from the node of its stem. */
  ghost predicate Linked(nodes: Nodes, sh: Shape, m: NodeId) {
    m == ROOT ||
    (m in sh.key && m in sh.stem && sh.stem[m] < |sh.key[m]| && sh.key[m][..sh.stem[m]] in sh.at &&
     var p := sh.at[sh.key[m][..sh.stem[m]]]; p in nodes && m in nodes[p].child)
  }

  ghost predicate Named(nodes: Nodes, sh: Shape, k: seq<Tok>)
    requires k in sh.at
  {
    sh.at[k] in nodes && sh.at[k] in sh.key && sh.key[sh.at[k]] == k
  }

  ghost predicate TreeOk(nodes: Nodes, sh: Shape) {
    ROOT in nodes && ROOT in sh.key && sh.key[ROOT] == [] &&
    (forall n :: n in nodes ==> NodeOk(nodes, sh, n) && Linked(nodes, sh, n)) &&
    (forall k :: k in sh.at ==> Named(nodes, sh, k))
  }

  /** Prefixes of one string are ordered by length. */
  lemma PrefixOrder(a: seq<Tok>, b: seq<Tok>, s: seq<Tok>)
    requires a <= s && b <= s && |a| <= |b|
    ensures a <= b && (|a| == |b| ==> a == b)
  {
    assert a == s[..|a|] && b == s[..|b|];
  }

  /** A node whose string properly extends n's lies below a child of n. */
  lemma {:induction false} Descend(nodes: Nodes, sh: Shape, n: NodeId, m: NodeId) returns (c: NodeId)
    requires TreeOk(nodes, sh) && n in nodes && m in nodes && sh.key[n] < sh.key[m]
    ensures c in nodes[n].child && c in nodes && sh.key[c] <= sh.key[m]
    decreases |sh.key[m]|
  {
    var p := sh.at[sh.key[m][..sh.stem[m]]];
    assert Linked(nodes, sh, m);
    assert Named(nodes, sh, sh.key[m][..sh.stem[m]]);
    assert sh.key[p] < sh.key[m];
    if |sh.key[p]| > |sh.key[n]| {
      PrefixOrder(sh.key[n], sh.key[p], sh.key[m]);
      c := Descend(nodes, sh, n, p);
    } else if |sh.key[p]| == |sh.key[n]| {
      PrefixOrder(sh.key[n], sh.key[p], sh.key[m]);
      c := m;
    } else {
      PrefixOrder(sh.key[p], sh.key[n], sh.key[m]);
      c := Descend(nodes, sh, p, n);
      SameEdge(nodes, sh, p, c, m, sh.key[m]);
      assert false;
    }
  }

  /** Two children of n whose strings continue towards the same string are one child. */
  lemma SameEdge(nodes: Nodes, sh: Shape, n: NodeId, c: NodeId, c': NodeId, s: seq<Tok>)
    requires TreeOk(nodes, sh) && n in nodes && c in nodes[n].child && c' in nodes[n].child
    requires c in nodes && c' in nodes && sh.key[c] <= s && sh.key[c'] <= s
    ensures c == c'
  {
    assert EdgeOk(nodes, sh, n, c) && EdgeOk(nodes, sh, n, c');
    var k := |sh.key[n]|;
    assert nodes[c].tokens[0] == sh.key[c][k] == s[k] == sh.key[c'][k] == nodes[c'].tokens[0];
  }

  function First(nodes: Nodes, c: NodeId): int {
    if c in nodes && |nodes[c].tokens| > 0 then nodes[c].tokens[0] else -1
  }

  /** Where no edge of n starts with the next token of s, no node's string goes on from n's that way. */
  lemma NoEdgeNoKey(nodes: Nodes, sh: Shape, n: NodeId, s: seq<Tok>)
    requires TreeOk(nodes, sh) && n in nodes && sh.key[n] < s
    requires forall c :: c in nodes[n].child ==> First(nodes, c) != s[|sh.key[n]|]
    ensures s !in sh.at
  {
    if s in sh.at {
      assert Named(nodes, sh, s);
      var c := Descend(nodes, sh, n, sh.at[s]);
      NextToken(nodes, sh, n, c, s);
      assert false;
    }
  }

  lemma NextToken(nodes: Nodes, sh: Shape, n: NodeId, c: NodeId, s: seq<Tok>)
    requires TreeOk(nodes, sh) && n in nodes && c in nodes[n].child && c in nodes && sh.key[c] <= s
    ensures |sh.key[n]| < |s| && First(nodes, c) == s[|sh.key[n]|]
  {
    assert EdgeOk(nodes, sh, n, c);
    assert sh.key[c][|sh.key[n]|] == s[|sh.key[n]|];
  }

  // ----- the map the tree stands for -----

  datatype Entry = Entry(fp: nat, tainted: bool, snapshot: SeqId)

  type Model = map<seq<Tok>, Entry>

  ghost function EntryAt(nodes: Nodes, sh: Shape, k: seq<Tok>): Option<Entry> {
    if k in sh.at && sh.at[k] in nodes && nodes[sh.at[k]].snapshot.Some?
    then var x := nodes[sh.at[k]]; Some(Entry(x.fp, x.tainted, x.snapshot.value))
    else None
  }

  /** Token string to snapshot: the entries of all nodes that hold one. */
  ghost function ModelOf(nodes: Nodes, sh: Shape): Model {
    map k | k in sh.at && EntryAt(nodes, sh, k).Some? :: EntryAt(nodes, sh, k).value
  }

  /** Every entry's snapshot is a live sequence holding exactly the entry's string. */
  ghost predicate SnapshotsOk(model: Model, seqs: map<SeqId, Sequence>) {
    forall k :: k in model ==> model[k].snapshot in seqs && seqs[model[k].snapshot].tokens == k
  }

  /** An entry lookup may return: alive and untainted. */
  ghost predicate Usable(model: Model, s: seq<Tok>) {
    s in model && !model[s].tainted
  }

  /** The longest usable non-empty prefix of q of at most n tokens, 0 if there is none. */
  ghost function Longest(model: Model, q: seq<Tok>, n: nat): (l: nat)
    requires n <= |q|
    ensures l <= n && (l > 0 ==> Usable(model, q[..l]))
    ensures forall i :: l < i <= n ==> !Usable(model, q[..i])
  {
    if n == 0 then 0 else if Usable(model, q[..n]) then n else Longest(model, q, n - 1)
  }

  // ----- growing the tree -----

  ghost function LeafShape(sh: Shape, n: NodeId, toks: seq<Tok>, id: NodeId): Shape
    requires n in sh.key && |toks| > 0
  {
    var k := sh.key[n] + toks;
    Shape(sh.key[id := k], sh.at[k := id], sh.branch[sh.key[n] + [toks[0]] := id], sh.stem[id := |sh.key[n]|])
  }

  function WithLeaf(nodes: Nodes, n: NodeId, toks: seq<Tok>, id: NodeId): Nodes
    requires n in nodes
  {
    nodes[id := Node(toks, None, 0, false, [])][n := nodes[n].(child := nodes[n].child + [id])]
  }

  ghost predicate Unused(nodes: Nodes, sh: Shape, id: NodeId) {
    id !in nodes && id != ROOT
  }

  lemma LastApart(a: seq<Tok>, x: Tok, b: seq<Tok>, y: Tok)
    requires a != b || x != y
    ensures a + [x] != b + [y]
  {
    var u, v := a + [x], b + [y];
    assert u[..|a|] == a && v[..|b|] == b && u[|a|] == x && v[|b|] == y;
  }

  /** The other nodes keep their edges when a leaf is added. */
  lemma LeafOthers(nodes: Nodes, sh: Shape, n: NodeId, toks: seq<Tok>, id: NodeId, m: NodeId)
    requires TreeOk(nodes, sh) && n in nodes && Unused(nodes, sh, id) && |toks| > 0 && sh.key[n] + toks !in sh.at
    requires forall c :: c in nodes[n].child ==> First(nodes, c) != toks[0]
    requires m in nodes && m != n
    ensures NodeOk(WithLeaf(nodes, n, toks, id), LeafShape(sh, n, toks, id), m)
  {
    var nodes', sh' := WithLeaf(nodes, n, toks, id), LeafShape(sh, n, toks, id);
    assert NodeOk(nodes, sh, m) && NodeOk(nodes, sh, n);
    forall c | c in nodes'[m].child ensures EdgeOk(nodes', sh', m, c) {
      assert EdgeOk(nodes, sh, m, c);
      LastApart(sh.key[m], nodes[c].tokens[0], sh.key[n], toks[0]);
    }
  }

  lemma LeafParent(nodes: Nodes, sh: Shape, n: NodeId, toks: seq<Tok>, id: NodeId)
    requires TreeOk(nodes, sh) && n in nodes && Unused(nodes, sh, id) && |toks| > 0 && sh.key[n] + toks !in sh.at
    requires forall c :: c in nodes[n].child ==> First(nodes, c) != toks[0]
    ensures NodeOk(WithLeaf(nodes, n, toks, id), LeafShape(sh, n, toks, id), n)
    ensures NodeOk(WithLeaf(nodes, n, toks, id), LeafShape(sh, n, toks, id), id)
  {
    var nodes', sh' := WithLeaf(nodes, n, toks, id), LeafShape(sh, n, toks, id);
    assert NodeOk(nodes, sh, n);
    forall c | c in nodes'[n].child ensures EdgeOk(nodes', sh', n, c) {
      if c != id {
        assert EdgeOk(nodes, sh, n, c) && First(nodes, c) != toks[0];
        LastApart(sh.key[n], nodes[c].tokens[0], sh.key[n], toks[0]);
      }
    }
  }

  lemma LeafLinked(nodes: Nodes, sh: Shape, n: NodeId, toks: seq<Tok>, id: NodeId, m: NodeId)
    requires TreeOk(nodes, sh) && n in nodes && Unused(nodes, sh, id) && |toks| > 0 && sh.key[n] + toks !in sh.at
    requires m in nodes || m == id
    ensures Linked(WithLeaf(nodes, n, toks, id), LeafShape(sh, n, toks, id), m)
  {
    assert NodeOk(nodes, sh, n);
    if m == id {
      assert (sh.key[n] + toks)[..|sh.key[n]|] == sh.key[n];
    } else {
      assert Linked(nodes, sh, m);
    }
  }

  /** A new leaf under n adds one string, disturbs no other, and holds no snapshot yet. */
  lemma LeafOk(nodes: Nodes, sh: Shape, n: NodeId, toks: seq<Tok>, id: NodeId)
    requires TreeOk(nodes, sh) && n in nodes && Unused(nodes, sh, id) && |toks| > 0
    requires forall c :: c in nodes[n].child ==> First(nodes, c) != toks[0]
    ensures sh.key[n] + toks !in sh.at
    ensures TreeOk(WithLeaf(nodes, n, toks, id), LeafShape(sh, n, toks, id))
  {
    var k := sh.key[n] + toks;
    assert k[|sh.key[n]|] == toks[0];
    NoEdgeNoKey(nodes, sh, n, k);
    var nodes', sh' := WithLeaf(nodes, n, toks, id), LeafShape(sh, n, toks, id);
    LeafParent(nodes, sh, n, toks, id);
    forall m | m in nodes' ensures NodeOk(nodes', sh', m) && Linked(nodes', sh', m) {
      LeafLinked(nodes, sh, n, toks, id, m);
      if m != n && m != id {
        LeafOthers(nodes, sh, n, toks, id, m);
      }
    }
    forall x | x in sh'.at ensures Named(nodes', sh', x) {
      assert x != k ==> Named(nodes, sh, x);
    }
  }

  /** The new leaf changes no string's entry. */
  lemma LeafKeepsEntry(nodes: Nodes, sh: Shape, n: NodeId, toks: seq<Tok>, id: NodeId, k: seq<Tok>)
    requires n in nodes && n in sh.key && id !in nodes && |toks| > 0 && sh.key[n] + toks !in sh.at
    requires k in sh.at ==> sh.at[k] in nodes
    ensures EntryAt(WithLeaf(nodes, n, toks, id), LeafShape(sh, n, toks, id), k) == EntryAt(nodes, sh, k)
  {
  }

  ghost function SplitShape(nodes: Nodes, sh: Shape, c: NodeId, k: nat, id: NodeId): Shape
    requires c in sh.key && c in nodes && c in sh.stem && sh.stem[c] + k < |sh.key[c]|
  {
    var whole := sh.key[c];
    var mid := whole[..sh.stem[c] + k];
    Shape(sh.key[id := whole][c := mid], sh.at[whole := id][mid := c], sh.branch[mid + [whole[|mid|]] := id],
          sh.stem[id := |mid|])
  }

  /** The edge split of line 173: c keeps its first k tokens, a new node takes the rest of the edge
      with c's children and snapshot. */
  function WithSplit(nodes: Nodes, c: NodeId, k: nat, id: NodeId): Nodes
    requires c in nodes && k <= |nodes[c].tokens|
  {
    var x := nodes[c];
    nodes[id := x.(tokens := x.tokens[k..])][c := Node(x.tokens[..k], None, 0, false, [id])]
  }

  /** c is the child of n whose edge is to be cut after k tokens; mid is the string of the cut. */
  ghost predicate Cut(nodes: Nodes, sh: Shape, n: NodeId, c: NodeId, k: nat, id: NodeId, mid: seq<Tok>) {
    TreeOk(nodes, sh) && n in nodes && c in nodes[n].child && c in nodes && c in sh.stem && sh.stem[c] == |sh.key[n]| &&
    sh.key[c] == sh.key[n] + nodes[c].tokens &&
    0 < k < |nodes[c].tokens| && Unused(nodes, sh, id) && mid == sh.key[n] + nodes[c].tokens[..k]
  }

  /** No string ends inside an edge. */
  lemma CutIsNew(nodes: Nodes, sh: Shape, n: NodeId, c: NodeId, k: nat, id: NodeId, mid: seq<Tok>)
    requires Cut(nodes, sh, n, c, k, id, mid)
    ensures mid !in sh.at
  {
    assert EdgeOk(nodes, sh, n, c);
    if mid in sh.at {
      assert Named(nodes, sh, mid);
      var d := Descend(nodes, sh, n, sh.at[mid]);
      assert false;
    }
  }

  /** Everything the cases below share: the tree, the cut, and the four strings involved. */
  lemma CutFacts(nodes: Nodes, sh: Shape, n: NodeId, c: NodeId, k: nat, id: NodeId, mid: seq<Tok>)
    requires Cut(nodes, sh, n, c, k, id, mid)
    ensures mid !in sh.at && NodeOk(nodes, sh, n) && NodeOk(nodes, sh, c) && EdgeOk(nodes, sh, n, c)
    ensures n != c && c != ROOT && mid == sh.key[c][..sh.stem[c] + k] && sh.key[c] == mid + nodes[c].tokens[k..]
  {
    CutIsNew(nodes, sh, n, c, k, id, mid);
    assert NodeOk(nodes, sh, n) && NodeOk(nodes, sh, c);
    assert EdgeOk(nodes, sh, n, c);
    CutString(sh.key[n], nodes[c].tokens, k);
  }

  lemma CutString(a: seq<Tok>, t: seq<Tok>, k: nat)
    requires k <= |t|
    ensures (a + t)[..|a| + k] == a + t[..k] && a + t == a + t[..k] + t[k..]
  {
  }

  lemma OneParent(nodes: Nodes, sh: Shape, n: NodeId, m: NodeId, c: NodeId)
    requires n in nodes && m in nodes && NodeOk(nodes, sh, n) && NodeOk(nodes, sh, m)
    requires EdgeOk(nodes, sh, n, c) && EdgeOk(nodes, sh, m, c)
    ensures n == m
  {
    PrefixOrder(sh.key[m], sh.key[n], sh.key[c]);
  }

  lemma SplitOtherEdge(nodes: Nodes, sh: Shape, n: NodeId, c: NodeId, k: nat, id: NodeId, mid: seq<Tok>, m: NodeId,
                       d: NodeId)
    requires Cut(nodes, sh, n, c, k, id, mid) && m in nodes && m != c && d in nodes[m].child
    ensures m in SplitShape(nodes, sh, c, k, id).key &&
            EdgeOk(WithSplit(nodes, c, k, id), SplitShape(nodes, sh, c, k, id), m, d)
  {
    CutFacts(nodes, sh, n, c, k, id, mid);
    assert NodeOk(nodes, sh, m) && EdgeOk(nodes, sh, m, d);
    LastApart(sh.key[m], nodes[d].tokens[0], mid, sh.key[c][|mid|]);
    if d == c {
      OneParent(nodes, sh, n, m, c);
    }
  }

  /** Every other node keeps its edges; the edge to c is only shorter. */
  lemma SplitOther(nodes: Nodes, sh: Shape, n: NodeId, c: NodeId, k: nat, id: NodeId, mid: seq<Tok>, m: NodeId)
    requires Cut(nodes, sh, n, c, k, id, mid) && m in nodes && m != c
    ensures NodeOk(WithSplit(nodes, c, k, id), SplitShape(nodes, sh, c, k, id), m)
  {
    CutFacts(nodes, sh, n, c, k, id, mid);
    assert NodeOk(nodes, sh, m);
    forall d | d in nodes[m].child
      ensures EdgeOk(WithSplit(nodes, c, k, id), SplitShape(nodes, sh, c, k, id), m, d) {
      SplitOtherEdge(nodes, sh, n, c, k, id, mid, m, d);
    }
  }

  lemma SplitHead(nodes: Nodes, sh: Shape, n: NodeId, c: NodeId, k: nat, id: NodeId, mid: seq<Tok>)
    requires Cut(nodes, sh, n, c, k, id, mid)
    ensures NodeOk(WithSplit(nodes, c, k, id), SplitShape(nodes, sh, c, k, id), c)
  {
    CutFacts(nodes, sh, n, c, k, id, mid);
    var nodes', sh' := WithSplit(nodes, c, k, id), SplitShape(nodes, sh, c, k, id);
    assert EdgeOk(nodes', sh', c, id);
  }

  lemma SplitTail(nodes: Nodes, sh: Shape, n: NodeId, c: NodeId, k: nat, id: NodeId, mid: seq<Tok>)
    requires Cut(nodes, sh, n, c, k, id, mid)
    ensures NodeOk(WithSplit(nodes, c, k, id), SplitShape(nodes, sh, c, k, id), id)
  {
    CutFacts(nodes, sh, n, c, k, id, mid);
    var nodes', sh' := WithSplit(nodes, c, k, id), SplitShape(nodes, sh, c, k, id);
    forall d | d in nodes[c].child ensures EdgeOk(nodes', sh', id, d) {
      assert EdgeOk(nodes, sh, c, d);
      LastApart(sh.key[c], nodes[d].tokens[0], mid, sh.key[c][|mid|]);
    }
  }

  lemma SplitLinked(nodes: Nodes, sh: Shape, n: NodeId, c: NodeId, k: nat, id: NodeId, mid: seq<Tok>, m: NodeId)
    requires Cut(nodes, sh, n, c, k, id, mid) && (m in nodes || m == id)
    ensures Linked(WithSplit(nodes, c, k, id), SplitShape(nodes, sh, c, k, id), m)
  {
    CutFacts(nodes, sh, n, c, k, id, mid);
    if m == id {
      assert sh.key[c][..|mid|] == mid;
    } else if m == c {
      assert mid[..sh.stem[c]] == sh.key[n];
    } else {
      assert Linked(nodes, sh, m);
      assert m != ROOT ==> Named(nodes, sh, sh.key[m][..sh.stem[m]]);
    }
  }

  /** Splitting an edge keeps the tree in shape. */
  lemma SplitOk(nodes: Nodes, sh: Shape, n: NodeId, c: NodeId, k: nat, id: NodeId, mid: seq<Tok>)
    requires Cut(nodes, sh, n, c, k, id, mid)
    ensures TreeOk(WithSplit(nodes, c, k, id), SplitShape(nodes, sh, c, k, id))
  {
    CutFacts(nodes, sh, n, c, k, id, mid);
    var nodes', sh' := WithSplit(nodes, c, k, id), SplitShape(nodes, sh, c, k, id);
    SplitHead(nodes, sh, n, c, k, id, mid);
    SplitTail(nodes, sh, n, c, k, id, mid);
    forall m | m in nodes' ensures NodeOk(nodes', sh', m) && Linked(nodes', sh', m) {
      SplitLinked(nodes, sh, n, c, k, id, mid, m);
      if m != c && m != id {
        SplitOther(nodes, sh, n, c, k, id, mid, m);
      }
    }
    forall x | x in sh'.at ensures Named(nodes', sh', x) {
      assert x in sh.at ==> Named(nodes, sh, x);
    }
  }

  /** Splitting an edge changes no string's entry: the snapshot moves down with its string. */
  lemma SplitKeepsEntry(nodes: Nodes, sh: Shape, c: NodeId, k: nat, id: NodeId, mid: seq<Tok>, x: seq<Tok>)
    requires c in nodes && c in sh.key && c in sh.stem && sh.stem[c] + k < |sh.key[c]| && k <= |nodes[c].tokens|
    requires mid == sh.key[c][..sh.stem[c] + k] && mid !in sh.at && id !in nodes
    requires sh.key[c] in sh.at && sh.at[sh.key[c]] == c
    requires x in sh.at ==> Named(nodes, sh, x)
    ensures EntryAt(WithSplit(nodes, c, k, id), SplitShape(nodes, sh, c, k, id), x) == EntryAt(nodes, sh, x)
  {
  }

  lemma SameModel(nodes: Nodes, sh: Shape, nodes': Nodes, sh': Shape)
    requires forall k :: EntryAt(nodes', sh', k) == EntryAt(nodes, sh, k)
    ensures ModelOf(nodes', sh') == ModelOf(nodes, sh)
  {
    var a, b := ModelOf(nodes', sh'), ModelOf(nodes, sh);
    forall k ensures k in a <==> k in b {
      assert EntryAt(nodes', sh', k) == EntryAt(nodes, sh, k);
    }
    forall k | k in a ensures a[k] == b[k] {
      assert EntryAt(nodes', sh', k) == EntryAt(nodes, sh, k);
    }
  }
}
