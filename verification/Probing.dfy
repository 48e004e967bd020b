/** Linear probing around a table of cap cells, shared by the two open-addressing tables. */
module Probing {

  /** The cell d steps after h. */
  function Pos(h: nat, d: nat, cap: nat): (p: nat)
    requires h < cap && d < cap
    ensures p < cap
  {
    if h + d < cap then h + d else h + d - cap
  }

  /** How many steps p is after h. */
  function Off(p: nat, h: nat, cap: nat): (d: nat)
    requires h < cap && p < cap
    ensures d < cap && Pos(h, d, cap) == p
  {
    if p >= h then p - h else p + cap - h
  }

  lemma OffOfPos(h: nat, d: nat, cap: nat)
    requires h < cap && d < cap
    ensures Off(Pos(h, d, cap), h, cap) == d
  {
  }

  /** The source's step to the next cell. */
  function Next(p: nat, cap: nat): nat
    requires cap > 0
  {
    (p + 1) % cap
  }

  lemma NextIsPos(h: nat, d: nat, cap: nat)
    requires h < cap && d + 1 < cap
    ensures Next(Pos(h, d, cap), cap) == Pos(h, d + 1, cap)
  {
    if h + d + 1 == cap {
      assert cap % cap == 0;
    }
  }

  /** A hash reduced to the table. */
  function Home(hash: nat, cap: nat): (h: nat)
    requires cap > 0
    ensures h < cap
  {
    hash % cap
  }

  function Filled(full: seq<bool>): nat {
    if full == [] then 0 else (if full[0] then 1 else 0) + Filled(full[1..])
  }

  lemma {:induction false} FillOne(full: seq<bool>, p: nat)
    requires p < |full| && !full[p]
    ensures Filled(full[p := true]) == Filled(full) + 1
  {
    if p == 0 {
      assert full[p := true][1..] == full[1..];
    } else {
      assert full[p := true][1..] == full[1..][p - 1 := true];
      FillOne(full[1..], p - 1);
    }
  }

  /** A table that is not full has an empty cell. */
  lemma {:induction false} SomeEmpty(full: seq<bool>) returns (p: nat)
    requires Filled(full) < |full|
    ensures p < |full| && !full[p]
  {
    if !full[0] {
      p := 0;
    } else {
      p := SomeEmpty(full[1..]);
      p := p + 1;
    }
  }

  lemma {:induction false} NoneFilled(full: seq<bool>)
    requires forall p :: 0 <= p < |full| ==> !full[p]
    ensures Filled(full) == 0
  {
    if full != [] {
      NoneFilled(full[1..]);
    }
  }

  /** The first d cells from h on are full. */
  ghost predicate Run(full: seq<bool>, h: nat, d: nat) {
    h < |full| && d <= |full| && forall e :: 0 <= e < d ==> full[Pos(h, e, |full|)]
  }

  /** Probing from h meets an empty cell within the table. */
  lemma RunEnds(full: seq<bool>, h: nat, d: nat)
    requires Run(full, h, d) && Filled(full) < |full|
    ensures d < |full|
  {
    var p := SomeEmpty(full);
    assert Pos(h, Off(p, h, |full|), |full|) == p;
  }

  lemma RunGrows(full: seq<bool>, h: nat, d: nat, p: nat)
    requires Run(full, h, d) && p < |full|
    ensures Run(full[p := true], h, d)
  {
  }
}
