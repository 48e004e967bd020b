/** The two expert routers of src/model_graph.c: an insertion sort of all experts, and repeated selection
    of the best one left. They pick the same experts in the same order exactly when enough logits lie above the
    selection's start value, or one too few and the fallback, expert 0, fits. */
module MoeRoute {

  /** Expert a comes before expert b: a higher logit, or the same and a lower number. */
  predicate Before(logits: seq<real>, a: nat, b: nat)
    requires a < |logits| && b < |logits|
  {
    logits[a] > logits[b] || (logits[a] == logits[b] && a < b)
  }

  ghost predicate InRange(ids: seq<nat>, n: nat) {
    forall i :: 0 <= i < |ids| ==> ids[i] < n
  }

  /** ids are the |ids| best experts, best first. */
  ghost predicate Ranking(logits: seq<real>, ids: seq<nat>) {
    InRange(ids, |logits|) &&
    (forall i, j :: 0 <= i < j < |ids| ==> Before(logits, ids[i], ids[j])) &&
    forall i, e: nat :: 0 <= i < |ids| && e < |logits| && e !in ids ==> Before(logits, ids[i], e)
  }

  /** A ranking names distinct experts in descending order, and nobody it leaves out scores higher. */
  lemma RankingMeans(logits: seq<real>, ids: seq<nat>)
    requires Ranking(logits, ids)
    ensures forall i, j :: 0 <= i < j < |ids| ==> ids[i] != ids[j] && logits[ids[i]] >= logits[ids[j]]
    ensures forall i, e: nat :: 0 <= i < |ids| && e < |logits| && e !in ids ==> logits[ids[i]] >= logits[e]
  {
    forall i, j | 0 <= i < j < |ids| ensures ids[i] != ids[j] && logits[ids[i]] >= logits[ids[j]] {
      assert Before(logits, ids[i], ids[j]);
    }
    forall i, e: nat | 0 <= i < |ids| && e < |logits| && e !in ids ensures logits[ids[i]] >= logits[e] {
      assert Before(logits, ids[i], e);
    }
  }

  /** There is only one ranking of a given length. */
  lemma {:induction false} RankingIsUnique(logits: seq<real>, a: seq<nat>, b: seq<nat>, n: nat)
    requires Ranking(logits, a) && Ranking(logits, b) && |a| == |b| && n <= |a|
    ensures a[..n] == b[..n]
  {
    if n > 0 {
      RankingIsUnique(logits, a, b, n - 1);
      var e, f := a[n - 1], b[n - 1];
      if e != f {
        AheadOf(logits, a, b, n - 1);
        AheadOf(logits, b, a, n - 1);
        assert false;
      }
    }
  }

  /** Where two rankings first differ, each one's expert comes before the other's. */
  lemma AheadOf(logits: seq<real>, a: seq<nat>, b: seq<nat>, k: nat)
    requires Ranking(logits, a) && Ranking(logits, b) && k < |a| == |b| && a[..k] == b[..k] && a[k] != b[k]
    ensures Before(logits, a[k], b[k])
  {
    var f := b[k];
    forall j | 0 <= j < k ensures a[j] == b[j] && Before(logits, b[j], b[k]) {
      assert a[..k][j] == b[..k][j];
    }
    if f in a {
      var j :| 0 <= j < |a| && a[j] == f;
      if j < k {
        assert false;
      }
    }
  }

  /** The first k of a ranking of all experts are a ranking. */
  lemma RankingPrefix(logits: seq<real>, order: seq<nat>, k: nat)
    requires Ranking(logits, order) && k <= |order|
    ensures Ranking(logits, order[..k])
  {
    forall i, e: nat | 0 <= i < k && e < |logits| && e !in order[..k] ensures Before(logits, order[i], e) {
      if e in order {
        var j :| 0 <= j < |order| && order[j] == e;
        InPrefix(order, k, j);
        assert Before(logits, order[i], order[j]);
      }
    }
  }

  lemma InPrefix(order: seq<nat>, k: nat, j: nat)
    requires k <= |order| && j < |order|
    ensures j < k ==> order[j] in order[..k]
  {
    if j < k {
      assert order[..k][j] == order[j];
    }
  }

  // ----- the insertion sort -----

  ghost predicate Everyone(order: seq<nat>, n: nat) {
    |order| == n && InRange(order, n) && forall e: nat :: e < n ==> e in order
  }

  function Swapped(order: seq<nat>, j: nat): (r: seq<nat>)
    requires 0 < j < |order|
    ensures |r| == |order|
  {
    order[j := order[j - 1]][j - 1 := order[j]]
  }

  lemma SwapKeeps(order: seq<nat>, j: nat, n: nat)
    requires Everyone(order, n) && 0 < j < n
    ensures Everyone(Swapped(order, j), n)
  {
    var r := Swapped(order, j);
    forall e: nat | e < n ensures e in r {
      assert e in order;
      var i :| 0 <= i < n && order[i] == e;
      assert r[if i == j then j - 1 else if i == j - 1 then j else i] == e;
    }
  }

  /** The first i entries are the experts below i, in order; the others are still in place. */
  ghost predicate SortedUpto(logits: seq<real>, order: seq<nat>, i: nat) {
    Everyone(order, |logits|) && i <= |order| && (forall a :: 0 <= a < i ==> order[a] < i) &&
    (forall a :: i <= a < |order| ==> order[a] == a) &&
    forall a, b :: 0 <= a < b < i ==> Before(logits, order[a], order[b])
  }

  /** Expert i on its way down, now at j. */
  ghost predicate Inserting(logits: seq<real>, order: seq<nat>, i: nat, j: nat) {
    Everyone(order, |logits|) && j <= i < |order| && order[j] == i &&
    (forall a :: 0 <= a <= i && a != j ==> order[a] < i) &&
    (forall a :: i < a < |order| ==> order[a] == a) &&
    forall a, b :: 0 <= a < b <= i && b != j ==> Before(logits, order[a], order[b])
  }

  lemma InsertStep(logits: seq<real>, order: seq<nat>, i: nat, j: nat)
    requires Inserting(logits, order, i, j) && j > 0 && logits[order[j]] > logits[order[j - 1]]
    ensures Inserting(logits, Swapped(order, j), i, j - 1)
  {
    SwapKeeps(order, j, |logits|);
  }

  lemma InsertStops(logits: seq<real>, order: seq<nat>, i: nat, j: nat)
    requires Inserting(logits, order, i, j) && (j > 0 ==> logits[order[j]] <= logits[order[j - 1]])
    ensures SortedUpto(logits, order, i + 1)
  {
    forall a, b | 0 <= a < b < i + 1 ensures Before(logits, order[a], order[b]) {
      if b == j && a < j - 1 {
        assert Before(logits, order[a], order[j - 1]);
      }
    }
  }

  function Identity(n: nat): (s: seq<nat>)
    ensures |s| == n && forall i :: 0 <= i < n ==> s[i] == i
  {
    seq(n, i => i)
  }

  /** vg_model_graph_moe_route once it has logits: sort all experts, take the first. */
  method RouteBySorting(logits: seq<real>, used: nat) returns (ids: seq<nat>)
    requires 0 < used <= |logits|
    ensures |ids| == used && Ranking(logits, ids)
  {
    var order := Identity(|logits|);
    forall e: nat | e < |logits| ensures e in order {
      assert order[e] == e;
    }
    for i := 1 to |logits|
      invariant SortedUpto(logits, order, i)
    {
      var j := i;
      while j > 0 && logits[order[j]] > logits[order[j - 1]]
        invariant j <= i && Inserting(logits, order, i, j)
      {
        InsertStep(logits, order, i, j);
        order := Swapped(order, j);
        j := j - 1;
      }
      InsertStops(logits, order, i, j);
    }
    RankingPrefix(logits, order, used);
    ids := order[..used];
  }

  // ----- the selection -----

  /** The best expert below n not yet used and above the start value; expert 0 if there is none. */
  function BestLeft(logits: seq<real>, used: seq<nat>, start: real, n: nat): (r: (nat, real))
    requires n <= |logits|
  {
    if n == 0 then (0, start)
    else
      var r := BestLeft(logits, used, start, n - 1);
      if n - 1 !in used && logits[n - 1] > r.1 then (n - 1, logits[n - 1]) else r
  }

  function Selected(logits: seq<real>, k: nat, start: real): (ids: seq<nat>)
    ensures |ids| == k
  {
    if k == 0 then [] else
      var ids := Selected(logits, k - 1, start);
      ids + [BestLeft(logits, ids, start, |logits|).0]
  }

  /** f is unused, above the start value, and comes before every other unused expert. */
  ghost predicate Best(logits: seq<real>, used: seq<nat>, start: real, f: nat) {
    f < |logits| && f !in used && logits[f] > start &&
    forall e: nat :: e < |logits| && e !in used && e != f ==> Before(logits, f, e)
  }

  lemma {:induction false} BestIsFound(logits: seq<real>, used: seq<nat>, start: real, n: nat, f: nat)
    requires Best(logits, used, start, f) && n <= |logits|
    ensures var r := BestLeft(logits, used, start, n);
            if f < n then r == (f, logits[f]) else r.1 < logits[f]
  {
    if n > 0 {
      BestIsFound(logits, used, start, n - 1, f);
      if n - 1 != f && n - 1 !in used {
        assert Before(logits, f, n - 1);
      }
    }
  }

  lemma {:induction false} NoneIsFound(logits: seq<real>, used: seq<nat>, start: real, n: nat)
    requires n <= |logits| && forall e: nat :: e < |logits| && e !in used ==> logits[e] <= start
    ensures BestLeft(logits, used, start, n) == (0, start)
  {
    if n > 0 {
      NoneIsFound(logits, used, start, n - 1);
    }
  }

  /** What selection picks when it has picked the first i of the ranking. */
  lemma PickIs(logits: seq<real>, order: seq<nat>, i: nat, start: real)
    requires Ranking(logits, order) && i < |order|
    ensures BestLeft(logits, order[..i], start, |logits|).0 == if logits[order[i]] > start then order[i] else 0
  {
    var used, f := order[..i], order[i];
    forall e: nat | e < |logits| && e !in used && e != f ensures Before(logits, f, e) {
      if e in order {
        var j :| 0 <= j < |order| && order[j] == e;
        InPrefix(order, i, j);
      }
    }
    forall j | 0 <= j < i ensures used[j] != f {
      assert Before(logits, order[j], order[i]);
    }
    if logits[f] > start {
      BestIsFound(logits, used, start, |logits|, f);
    } else {
      NoneIsFound(logits, used, start, |logits|);
    }
  }

  /** The routers agree exactly when every pick is above the start value, or is the fallback anyway. */
  lemma {:induction false} PicksAgree(logits: seq<real>, order: seq<nat>, k: nat, start: real)
    requires Ranking(logits, order) && k <= |order|
    ensures Selected(logits, k, start) == order[..k] <==>
            forall i :: 0 <= i < k ==> logits[order[i]] > start || order[i] == 0
  {
    if k > 0 {
      PicksAgree(logits, order, k - 1, start);
      PickIs(logits, order, k - 1, start);
      assert order[..k] == order[..k - 1] + [order[k - 1]];
      var ids := Selected(logits, k, start);
      assert ids[..k - 1] == Selected(logits, k - 1, start);
      assert order[..k][..k - 1] == order[..k - 1];
    }
  }

  // ----- the same, read off the logits -----

  function Above(logits: seq<real>, start: real): set<nat> {
    set e: nat | e < |logits| && logits[e] > start
  }

  /** Expert 0 is not above the start value, and is the best of those that are not. */
  ghost predicate FallbackFits(logits: seq<real>, start: real) {
    |logits| > 0 && logits[0] <= start &&
    forall e: nat :: e < |logits| && logits[e] <= start ==> logits[e] <= logits[0]
  }

  function Members(ids: seq<nat>): set<nat> {
    set i | 0 <= i < |ids| :: ids[i]
  }

  lemma {:induction false} DistinctMembers(ids: seq<nat>)
    requires forall i, j :: 0 <= i < j < |ids| ==> ids[i] != ids[j]
    ensures |Members(ids)| == |ids|
  {
    if ids != [] {
      var last := ids[|ids| - 1];
      DistinctMembers(ids[..|ids| - 1]);
      assert Members(ids) == Members(ids[..|ids| - 1]) + {last};
    }
  }

  lemma SubsetSize(a: set<nat>, b: set<nat>)
    requires a <= b
    ensures |a| <= |b|
  {
    assert b == a + (b - a);
  }

  /** A ranking starts with the experts above the start value. */
  lemma AboveFirst(logits: seq<real>, ids: seq<nat>, start: real, i: nat)
    requires Ranking(logits, ids) && i < |ids|
    ensures logits[ids[i]] > start <==> i < |Above(logits, start)|
  {
    var above := Above(logits, start);
    RankingMeans(logits, ids);
    DistinctMembers(ids[..i]);
    DistinctMembers(ids[..i + 1]);
    if logits[ids[i]] > start {
      forall e | e in Members(ids[..i + 1]) ensures e in above {
      }
      SubsetSize(Members(ids[..i + 1]), above);
    } else {
      forall e | e in above ensures e in Members(ids[..i]) {
        assert e in ids;
        var j :| 0 <= j < |ids| && ids[j] == e;
        assert j < i && ids[..i][j] == e;
      }
      SubsetSize(above, Members(ids[..i]));
    }
  }

  /** The expert after all those above the start value is the best of the rest. */
  lemma NextIsBest(logits: seq<real>, ids: seq<nat>, start: real, i: nat)
    requires Ranking(logits, ids) && i < |ids| && i == |Above(logits, start)|
    ensures ids[i] == 0 <==> FallbackFits(logits, start)
  {
    RankingMeans(logits, ids);
    AboveFirst(logits, ids, start, i);
    forall e: nat | e < |logits| && logits[e] <= start ensures e == ids[i] || Before(logits, ids[i], e) {
      if e in ids {
        var j :| 0 <= j < |ids| && ids[j] == e;
        AboveFirst(logits, ids, start, j);
        assert j > i ==> Before(logits, ids[i], ids[j]);
      }
    }
  }

  /** The routers agree if and only if at least k logits are above the start value, or exactly k - 1 are and expert 0
      is the best of the rest. */
  lemma RoutersAgree(logits: seq<real>, ids: seq<nat>, start: real)
    requires Ranking(logits, ids)
    ensures var c, k := |Above(logits, start)|, |ids|;
            Selected(logits, k, start) == ids <==> c >= k || (c + 1 == k && FallbackFits(logits, start))
  {
    var c, k := |Above(logits, start)|, |ids|;
    PicksAgree(logits, ids, k, start);
    assert ids[..k] == ids;
    forall i | 0 <= i < k ensures logits[ids[i]] > start <==> i < c {
      AboveFirst(logits, ids, start, i);
    }
    if c < k {
      NextIsBest(logits, ids, start, c);
      RankingMeans(logits, ids);
      if c + 1 < k {
        assert ids[c] != ids[c + 1];
      }
    }
  }

  /** Two experts below the start value, the second one better: the sort names it, the selection names expert 0. */
  lemma RoutersDiffer(start: real)
    ensures var logits := [start - 2.0, start - 1.0]; Ranking(logits, [1]) && Selected(logits, 1, start) == [0]
  {
    var logits := [start - 2.0, start - 1.0];
    NoneIsFound(logits, [], start, 2);
    assert Selected(logits, 0, start) == [];
  }

  /** Logits above the start value: both routers name the same experts in the same order. */
  lemma AboveTheSentinel(logits: seq<real>, ids: seq<nat>, start: real)
    requires Ranking(logits, ids) && forall e: nat :: e < |logits| ==> logits[e] > start
    ensures Selected(logits, |ids|, start) == ids
  {
    PicksAgree(logits, ids, |ids|, start);
    assert ids[..|ids|] == ids;
  }

  /** The selection loops of the mixture-of-experts branch. */
  method RouteBySelection(logits: seq<real>, used: nat, start: real) returns (ids: seq<nat>)
    ensures ids == Selected(logits, used, start)
  {
    ids := [];
    for k := 0 to used
      invariant ids == Selected(logits, k, start)
    {
      var best, bv := 0, start;
      for e := 0 to |logits|
        invariant (best, bv) == BestLeft(logits, ids, start, e)
      {
        var taken := false;
        for j := 0 to k
          invariant taken == (e in ids[..j])
        {
          assert ids[..j + 1] == ids[..j] + [ids[j]];
          if ids[j] == e {
            taken := true;
          }
        }
        assert ids[..k] == ids;
        if !taken && logits[e] > bv {
          bv := logits[e];
          best := e;
        }
      }
      ids := ids + [best];
    }
  }
}
