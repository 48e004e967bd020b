/** The paged KV store of src/kv_cache.c: reference-counted pages shared by forked sequences, and
    eviction of unreferenced pages. Pages and sequences are reached by handles that are never
    reused (the C array moves its pages on growth and eviction; a handle stands for the page). */
module KvStore {
  import opened Division

  type Tok = nat
  type PageId = nat
  type SeqId = nat

  datatype Status = Ok | Invalid | Range

  /** What 64-bit sizes wrap at. */
  const SIZE: nat := 0x1_0000_0000_0000_0000

  datatype Config = Config(
    pageTokens: nat, nLayers: nat, kvHeads: nat, headDim: nat, elementBytes: nat, hostBudget: nat, maxPages: nat)
  {
    predicate Usable() {
      pageTokens > 0 && nLayers > 0 && kvHeads > 0 && headDim > 0 && elementBytes > 0
    }

    /** page_bytes: the product of the shape, in 64-bit arithmetic. */
    function PageBytes(): nat {
      (nLayers * kvHeads * headDim * elementBytes * pageTokens) % SIZE
    }

    /** layer_bytes: the same without the layers, in 64-bit arithmetic too. */
    function LayerBytes(): nat {
      (kvHeads * headDim * elementBytes * pageTokens) % SIZE
    }

    /** Pages needed for n tokens. */
    function Pages(n: nat): nat
      requires pageTokens > 0
    {
      (n + pageTokens - 1) / pageTokens
    }
  }

  /** Token n opens a new page exactly when the pages so far are full. */
  lemma PagesGrow(c: Config, n: nat)
    requires c.pageTokens > 0
    ensures n / c.pageTokens >= c.Pages(n) <==> n % c.pageTokens == 0
    ensures c.Pages(n + 1) == if n % c.pageTokens == 0 then c.Pages(n) + 1 else c.Pages(n)
  {
    var pt, a, r := c.pageTokens, n / c.pageTokens, n % c.pageTokens;
    assert n == pt * a + r;
    TimesNext(pt, a);
    if r == 0 {
      DivUnique(n + pt - 1, pt, a, pt - 1);
      DivUnique(n + pt, pt, a + 1, 0);
    } else {
      DivUnique(n + pt - 1, pt, a + 1, r - 1);
      DivUnique(n + pt, pt, a + 1, r);
    }
  }

  lemma PagesMonotone(c: Config, m: nat, n: nat)
    requires c.pageTokens > 0 && m <= n
    ensures c.Pages(m) <= c.Pages(n)
    decreases n - m
  {
    if m < n {
      PagesGrow(c, m);
      PagesMonotone(c, m + 1, n);
    }
  }

  datatype Page = Page(bytes: nat, refs: nat, age: nat)
  datatype Sequence = Sequence(tokens: seq<Tok>, pages: seq<PageId>)

  /** page_drop's guarded decrement. */
  function Less(n: nat): nat {
    if n > 0 then n - 1 else 0
  }

  ghost predicate Distinct<T>(s: seq<T>) {
    forall i, j :: 0 <= i < j < |s| ==> s[i] != s[j]
  }

  lemma DistinctHead<T>(p: T, rest: seq<T>)
    requires Distinct([p] + rest)
    ensures p !in rest && Distinct(rest)
  {
    var all := [p] + rest;
    forall j | 0 <= j < |rest| ensures rest[j] != p {
      assert all[j + 1] == rest[j] && all[0] != all[j + 1];
    }
    forall i, j | 0 <= i < j < |rest| ensures rest[i] != rest[j] {
      assert all[i + 1] == rest[i] && all[j + 1] == rest[j];
    }
  }

  // ----- who holds a page -----

  /** The live sequences that hold page p. */
  ghost function Owners(seqs: map<SeqId, Sequence>, p: PageId): set<SeqId> {
    set q | q in seqs && p in seqs[q].pages
  }

  ghost predicate Counted(pages: map<PageId, Page>, seqs: map<SeqId, Sequence>) {
    forall p :: p in pages ==> pages[p].refs == |Owners(seqs, p)|
  }

  /** Giving sequence q one more page makes q one more owner of that page and of no other. */
  lemma OwnersGain(seqs: map<SeqId, Sequence>, q: SeqId, s: Sequence, s': Sequence, p: PageId, x: PageId)
    requires q in seqs && seqs[q] == s && p !in s.pages
    requires forall y :: y in s'.pages <==> y in s.pages || y == p
    ensures Owners(seqs[q := s'], x) == Owners(seqs, x) + (if x == p then {q} else {})
    ensures |Owners(seqs[q := s'], x)| == |Owners(seqs, x)| + (if x == p then 1 else 0)
  {
    assert q !in Owners(seqs, p);
  }

  /** A sequence without pages owns nothing. */
  lemma OwnersOfEmpty(seqs: map<SeqId, Sequence>, q: SeqId, s: Sequence, x: PageId)
    requires s.pages == [] && q !in seqs
    ensures Owners(seqs[q := s], x) == Owners(seqs, x)
  {
  }

  /** Retaining page p for q keeps every reference count exact. */
  lemma CountedRetain(pages: map<PageId, Page>, seqs: map<SeqId, Sequence>, q: SeqId, s': Sequence, p: PageId)
    requires Counted(pages, seqs) && q in seqs && p in pages && p !in seqs[q].pages && s'.pages == seqs[q].pages + [p]
    ensures Counted(pages[p := pages[p].(refs := pages[p].refs + 1)], seqs[q := s'])
  {
    forall x | x in pages ensures |Owners(seqs[q := s'], x)| == |Owners(seqs, x)| + (if x == p then 1 else 0) {
      OwnersGain(seqs, q, seqs[q], s', p, x);
    }
  }

  /** Dropping the first page of q keeps every count exact, and the count was not already zero. */
  lemma CountedDrop(pages: map<PageId, Page>, seqs: map<SeqId, Sequence>, q: SeqId, s': Sequence, p: PageId)
    requires Counted(pages, seqs) && q in seqs && p in pages
    requires seqs[q].pages == [p] + s'.pages && Distinct(seqs[q].pages)
    ensures pages[p].refs > 0 && Counted(pages[p := pages[p].(refs := pages[p].refs - 1)], seqs[q := s'])
  {
    DistinctHead(p, s'.pages);
    var less := seqs[q := s'];
    assert less[q := seqs[q]] == seqs;
    forall x | x in pages ensures |Owners(seqs, x)| == |Owners(less, x)| + (if x == p then 1 else 0) {
      OwnersGain(less, q, s', seqs[q], p, x);
    }
  }

  // ----- accounting -----

  function Bytes(n: nat, each: nat): nat {
    if n == 0 then 0 else Bytes(n - 1, each) + each
  }

  /** The statistics account for exactly n stored pages. */
  ghost predicate Accounted(n: nat, each: nat, hostBytes: nat, allocs: nat, evictions: nat) {
    hostBytes == Bytes(n, each) && allocs == evictions + n
  }

  /** Every stored page has the configured size and its own age stamp (stamp finds it by age). */
  ghost predicate Stored(pages: map<PageId, Page>, each: nat, clock: nat, nextPage: nat, stamp: map<nat, PageId>) {
    forall p :: p in pages ==> p < nextPage && pages[p].bytes == each && Stamped(pages[p].age, p, clock, stamp)
  }

  ghost predicate Stamped(age: nat, p: PageId, clock: nat, stamp: map<nat, PageId>) {
    0 < age <= clock && age in stamp && stamp[age] == p
  }

  /** The page table and its statistics agree. */
  ghost predicate TableOk(pages: map<PageId, Page>, each: nat, clock: nat, nextPage: nat, stamp: map<nat, PageId>,
                          hostBytes: nat, allocs: nat, evictions: nat)
  {
    Stored(pages, each, clock, nextPage, stamp) && Accounted(|pages|, each, hostBytes, allocs, evictions)
  }

  /** A sequence holds ceil(length / page_tokens) different stored pages. */
  ghost predicate Holds(cfg: Config, pages: map<PageId, Page>, s: Sequence)
    requires cfg.pageTokens > 0
  {
    Distinct(s.pages) && (forall p :: p in s.pages ==> p in pages) && |s.pages| == cfg.Pages(|s.tokens|)
  }

  ghost predicate AllHold(cfg: Config, pages: map<PageId, Page>, seqs: map<SeqId, Sequence>, nextSeq: nat)
    requires cfg.pageTokens > 0
  {
    forall q :: q in seqs ==> q < nextSeq && Holds(cfg, pages, seqs[q])
  }

  /** Eviction keeps every page it does not remove, removes only unreferenced pages, and removes the
      oldest of those first: exactly the unreferenced pages up to age `cut`. */
  ghost predicate EvictedTo(before: map<PageId, Page>, after: map<PageId, Page>, cut: nat) {
    after.Keys <= before.Keys && (forall p :: p in after ==> after[p] == before[p]) &&
    (forall p :: p in before ==> (p in after <==> before[p].refs > 0 || before[p].age > cut))
  }

  /** Storing page p has made room first: the pages that went are unreferenced ones up to some age; what is left
      without p fits the budget or is pinned; and a page went only while the rest was over the budget. */
  ghost predicate MadeRoom(before: map<PageId, Page>, after: map<PageId, Page>, p: PageId, budget: nat, each: nat,
                           hostBytes: nat)
  {
    p !in before && p in after && (exists cut :: EvictedTo(before, after - {p}, cut)) &&
    (budget > 0 ==> hostBytes <= budget + each || forall x :: x in after && x != p ==> after[x].refs > 0) &&
    (after - {p} != before ==> hostBytes > budget > 0)
  }

  lemma RoomMade(before: map<PageId, Page>, kept: map<PageId, Page>, cut: nat, p: PageId, page: Page, budget: nat,
                 each: nat, hostBytes: nat)
    requires EvictedTo(before, kept, cut) && p !in before
    requires budget == 0 ==> kept == before
    requires budget > 0 ==> hostBytes <= budget || forall x :: x in kept ==> kept[x].refs > 0
    requires kept != before ==> hostBytes + each > budget > 0
    ensures MadeRoom(before, kept[p := page], p, budget, each, hostBytes + each)
  {
    assert kept[p := page] - {p} == kept;
  }

  /** The same pages with the same ages: what references come and go, nothing is used, stored or evicted. */
  ghost predicate SameAges(before: map<PageId, Page>, after: map<PageId, Page>) {
    after.Keys == before.Keys && forall p :: p in after ==> after[p].age == before[p].age
  }

  ghost predicate Oldest(pages: map<PageId, Page>, victim: PageId) {
    victim in pages && pages[victim].refs == 0 &&
    forall p :: p in pages && pages[p].refs == 0 ==> pages[victim].age <= pages[p].age
  }

  lemma EvictedOneMore(before: map<PageId, Page>, mid: map<PageId, Page>, cut: nat, victim: PageId, each: nat,
                       clock: nat, nextPage: nat, stamp: map<nat, PageId>)
    requires EvictedTo(before, mid, cut) && Oldest(mid, victim) && Stored(before, each, clock, nextPage, stamp)
    ensures EvictedTo(before, mid - {victim}, before[victim].age)
  {
    forall p | p in before ensures p in mid - {victim} <==> before[p].refs > 0 || before[p].age > before[victim].age {
      if before[p].refs == 0 && p in mid && before[p].age == before[victim].age {
        assert p == stamp[before[p].age] == victim;
      }
    }
  }

  lemma Unowned(pages: map<PageId, Page>, seqs: map<SeqId, Sequence>, p: PageId)
    requires Counted(pages, seqs) && p in pages && pages[p].refs == 0
    ensures forall q :: q in seqs ==> p !in seqs[q].pages
  {
    assert Owners(seqs, p) == {};
    forall q | q in seqs ensures p !in seqs[q].pages {
      assert q !in Owners(seqs, p);
    }
  }

  lemma RemoveUnowned(cfg: Config, pages: map<PageId, Page>, seqs: map<SeqId, Sequence>, p: PageId, clock: nat,
                      nextPage: nat, nextSeq: nat, each: nat, stamp: map<nat, PageId>)
    requires cfg.pageTokens > 0 && Counted(pages, seqs) && p in pages && pages[p].refs == 0
    requires Stored(pages, each, clock, nextPage, stamp) && AllHold(cfg, pages, seqs, nextSeq)
    ensures var less := pages - {p};
            Counted(less, seqs) && Stored(less, each, clock, nextPage, stamp) && AllHold(cfg, less, seqs, nextSeq) &&
            |pages| == |less| + 1 && Bytes(|pages|, each) == Bytes(|less|, each) + pages[p].bytes
  {
    var less := pages - {p};
    Unowned(pages, seqs, p);
    assert less.Keys == pages.Keys - {p};
    assert |less.Keys| == |pages.Keys| - 1;
  }

  class Store {
    const cfg: Config
    const pageBytes: nat
    const layerBytes: nat
    var pages: map<PageId, Page>
    var seqs: map<SeqId, Sequence>
    var nextPage: nat
    var nextSeq: nat
    var clock: nat
    var hostBytes: nat
    var allocs: nat
    var evictions: nat
    ghost var stamp: map<nat, PageId>

    /** Page conservation: reference counts equal occurrences over live sequences, each sequence
        holds exactly the pages its length needs, and the statistics account for the stored pages. */
    ghost predicate Valid()
      reads this
    {
      cfg.Usable() && Counted(pages, seqs) && AllHold(cfg, pages, seqs, nextSeq) &&
      TableOk(pages, pageBytes, clock, nextPage, stamp, hostBytes, allocs, evictions)
    }

    /** vg_kv_open, once its argument checks have passed. */
    constructor (cfg: Config)
      requires cfg.Usable()
      ensures Valid() && pages == map[] && seqs == map[]
      ensures this.cfg == cfg.(maxPages := if cfg.maxPages == 0 then 16384 else cfg.maxPages)
      ensures pageBytes == cfg.PageBytes() && layerBytes == cfg.LayerBytes() && clock == allocs == 0
    {
      this.cfg := cfg.(maxPages := if cfg.maxPages == 0 then 16384 else cfg.maxPages);
      pageBytes, layerBytes := cfg.PageBytes(), cfg.LayerBytes();
      pages, seqs, nextPage, nextSeq := map[], map[], 0, 0;
      clock, hostBytes, allocs, evictions := 0, 0, 0, 0;
      stamp := map[];
    }

    /** The scan of line 83: the oldest unreferenced page, if there is one. */
    method FindVictim() returns (found: bool, victim: PageId)
      ensures if found then Oldest(pages, victim) else forall p :: p in pages ==> pages[p].refs > 0
    {
      found, victim := false, 0;
      var todo := pages.Keys;
      while todo != {}
        invariant todo <= pages.Keys
        invariant if found then Oldest(pages - todo, victim) else forall p :: p in pages - todo ==> pages[p].refs > 0
        decreases todo
      {
        var p :| p in todo;
        ghost var seen := pages - todo;
        todo := todo - {p};
        assert pages - todo == seen[p := pages[p]];
        if pages[p].refs == 0 && (!found || pages[p].age < pages[victim].age) {
          found, victim := true, p;
        }
      }
      assert pages - todo == pages;
    }

    /** Drop one unreferenced page from the table. */
    method EvictOne(victim: PageId)
      requires Valid() && victim in pages && pages[victim].refs == 0
      modifies this`pages, this`hostBytes, this`evictions
      ensures Valid() && pages == old(pages) - {victim} && hostBytes + pageBytes == old(hostBytes)
    {
      RemoveUnowned(cfg, pages, seqs, victim, clock, nextPage, nextSeq, pageBytes, stamp);
      hostBytes := hostBytes - pages[victim].bytes;
      pages := pages - {victim};
      evictions := evictions + 1;
    }

    /** evict_pages: drop unreferenced pages, oldest first, until the budget holds or all are pinned. */
    method EvictPages() returns (ghost cut: nat)
      requires Valid()
      modifies this`pages, this`hostBytes, this`evictions
      ensures Valid() && EvictedTo(old(pages), pages, cut)
      ensures cfg.hostBudget == 0 ==> pages == old(pages)
      ensures cfg.hostBudget > 0 ==> hostBytes <= cfg.hostBudget || forall p :: p in pages ==> pages[p].refs > 0
      ensures pages != old(pages) ==> hostBytes + pageBytes > cfg.hostBudget > 0
    {
      cut := 0;
      if cfg.hostBudget == 0 {
        return;
      }
      while hostBytes > cfg.hostBudget
        invariant Valid() && EvictedTo(old(pages), pages, cut)
        invariant pages != old(pages) ==> hostBytes + pageBytes > cfg.hostBudget
        decreases |pages|
      {
        var found, victim := FindVictim();
        if !found {
          break;
        }
        EvictedOneMore(old(pages), pages, cut, victim, pageBytes, clock, nextPage, stamp);
        cut := pages[victim].age;
        EvictOne(victim);
      }
    }

    /** The page itself, with a fresh stamp. */
    method AddPage() returns (p: PageId)
      requires Valid()
      modifies this`pages, this`hostBytes, this`allocs, this`clock, this`nextPage, this`stamp
      ensures p == old(nextPage) && p !in old(pages) && pages == old(pages)[p := Page(pageBytes, 1, clock)]
      ensures clock == old(clock) + 1 && allocs == old(allocs) + 1 && hostBytes == old(hostBytes) + pageBytes
      ensures TableOk(pages, pageBytes, clock, nextPage, stamp, hostBytes, allocs, evictions)
    {
      p := nextPage;
      ghost var kept, was := pages, stamp;
      clock, nextPage := clock + 1, nextPage + 1;
      pages, stamp := pages[p := Page(pageBytes, 1, clock)], stamp[clock := p];
      allocs, hostBytes := allocs + 1, hostBytes + pageBytes;
      StorePage(kept, p, clock, pageBytes, was, pages, stamp);
    }

    /** new_page for the host tier: evict, then store a page referenced once by nobody yet. The
        caller hands it to a sequence at once; `kept` is the table without it. */
    method NewPage() returns (p: PageId, ghost kept: map<PageId, Page>)
      requires Valid()
      modifies this`pages, this`hostBytes, this`evictions, this`allocs, this`clock, this`nextPage, this`stamp
      ensures MadeRoom(old(pages), pages, p, cfg.hostBudget, pageBytes, hostBytes)
      ensures p !in kept && pages == kept[p := Page(pageBytes, 1, clock)]
      ensures clock == old(clock) + 1 && allocs == old(allocs) + 1
      ensures TableOk(pages, pageBytes, clock, nextPage, stamp, hostBytes, allocs, evictions)
      ensures AllHold(cfg, kept, seqs, nextSeq) && Counted(kept, seqs)
    {
      NotYetStored(pages, pageBytes, clock, nextPage, stamp);
      ghost var cut := EvictPages();
      kept := pages;
      ghost var bytes := hostBytes;
      p := AddPage();
      RoomMade(old(pages), kept, cut, p, pages[p], cfg.hostBudget, pageBytes, bytes);
    }

    /** vg_kv_sequence_init. */
    method SequenceInit() returns (q: SeqId)
      requires Valid()
      modifies this`seqs, this`nextSeq
      ensures Valid() && q !in old(seqs) && q == old(nextSeq) && nextSeq == q + 1 &&
              seqs == old(seqs)[q := Sequence([], [])]
    {
      q := nextSeq;
      nextSeq := nextSeq + 1;
      forall x | x in pages ensures Owners(seqs[q := Sequence([], [])], x) == Owners(seqs, x) {
        OwnersOfEmpty(seqs, q, Sequence([], []), x);
      }
      EmptyNeedsNoPages(cfg);
      seqs := seqs[q := Sequence([], [])];
    }

    /** vg_kv_sequence_append. */
    method Append(q: SeqId, token: Tok) returns (st: Status)
      requires Valid() && q in seqs
      modifies this`pages, this`seqs, this`hostBytes, this`evictions, this`allocs, this`clock, this`nextPage, this`stamp
      ensures Valid()
      ensures st == Range <==> |old(seqs[q].tokens)| % cfg.pageTokens == 0 && |old(seqs[q].pages)| >= cfg.maxPages
      ensures st != Ok ==> st == Range && seqs == old(seqs) && pages == old(pages)
      ensures st == Ok ==> seqs.Keys == old(seqs.Keys) && seqs[q].tokens == old(seqs[q].tokens) + [token]
      ensures st == Ok && |old(seqs[q].tokens)| % cfg.pageTokens > 0 ==>
                pages == old(pages) && seqs[q].pages == old(seqs[q].pages) && clock == old(clock)
      ensures st == Ok && |old(seqs[q].tokens)| % cfg.pageTokens == 0 ==>
                |seqs[q].pages| == |old(seqs[q].pages)| + 1 && clock == old(clock) + 1 &&
                (var p := seqs[q].pages[|old(seqs[q].pages)|];
                 seqs[q].pages == old(seqs[q].pages) + [p] && pages[p] == Page(pageBytes, 1, clock) &&
                 MadeRoom(old(pages), pages, p, cfg.hostBudget, pageBytes, hostBytes))
      ensures forall r :: r in old(seqs) && r != q ==> r in seqs && seqs[r] == old(seqs[r])
    {
      var s := seqs[q];
      PagesGrow(cfg, |s.tokens|);
      if |s.tokens| / cfg.pageTokens >= |s.pages| {
        if |s.pages| >= cfg.maxPages {
          return Range;
        }
        var p, kept := NewPage();
        Adopt(cfg, kept, pages, seqs, q, p, token, nextSeq);
        seqs := seqs[q := Sequence(s.tokens + [token], s.pages + [p])];
      } else {
        forall x | x in pages ensures Owners(seqs[q := s.(tokens := s.tokens + [token])], x) == Owners(seqs, x) {
        }
        seqs := seqs[q := s.(tokens := s.tokens + [token])];
      }
      return Ok;
    }

    /** page_retain on behalf of q. */
    method ShareStep(q: SeqId, s: Sequence, prefix: nat, i: nat, ghost others: map<SeqId, Sequence>)
      requires cfg.Usable() && Sharing(cfg, pages, others, seqs, q, s, prefix, i, nextSeq) && i < |s.pages|
      requires TableOk(pages, pageBytes, clock, nextPage, stamp, hostBytes, allocs, evictions)
      modifies this`pages, this`seqs
      ensures Sharing(cfg, pages, others, seqs, q, s, prefix, i + 1, nextSeq) && SameAges(old(pages), pages)
      ensures TableOk(pages, pageBytes, clock, nextPage, stamp, hostBytes, allocs, evictions)
    {
      var p := s.pages[i];
      ShareOne(cfg, pages, others, seqs, q, s, prefix, i, nextSeq);
      Recount(pages, p, pages[p].refs + 1, pageBytes, clock, nextPage, stamp, hostBytes, allocs, evictions);
      seqs := seqs[q := Sequence(s.tokens[..prefix], s.pages[..i + 1])];
      pages := pages[p := pages[p].(refs := pages[p].refs + 1)];
    }

    /** Lines 134-136: hand q the pages of s that cover the prefix, retaining each. */
    method SharePages(q: SeqId, s: Sequence, prefix: nat, ghost others: map<SeqId, Sequence>)
      requires cfg.Usable() && cfg.Pages(prefix) <= |s.pages| &&
               Sharing(cfg, pages, others, seqs, q, s, prefix, 0, nextSeq)
      requires TableOk(pages, pageBytes, clock, nextPage, stamp, hostBytes, allocs, evictions)
      modifies this`pages, this`seqs
      ensures Sharing(cfg, pages, others, seqs, q, s, prefix, cfg.Pages(prefix), nextSeq) &&
              SameAges(old(pages), pages)
      ensures TableOk(pages, pageBytes, clock, nextPage, stamp, hostBytes, allocs, evictions)
    {
      var np := cfg.Pages(prefix);
      for i := 0 to np
        invariant Sharing(cfg, pages, others, seqs, q, s, prefix, i, nextSeq) && SameAges(old(pages), pages)
        invariant TableOk(pages, pageBytes, clock, nextPage, stamp, hostBytes, allocs, evictions)
      {
        ShareStep(q, s, prefix, i, others);
      }
    }

    /** vg_kv_sequence_fork: the new sequence shares the pages that hold its prefix. */
    method Fork(src: SeqId, prefix: nat) returns (st: Status, q: SeqId)
      requires Valid() && src in seqs
      modifies this`pages, this`seqs, this`nextSeq
      ensures Valid() && SameAges(old(pages), pages)
      ensures st == if prefix > |old(seqs[src].tokens)| then Invalid else Ok
      ensures st != Ok ==> seqs == old(seqs) && pages == old(pages)
      ensures st == Ok ==> q !in old(seqs) && cfg.Pages(prefix) <= |old(seqs[src].pages)| &&
                           seqs == old(seqs)[q := Prefix(cfg, old(seqs[src]), prefix)]
    {
      if prefix > |seqs[src].tokens| {
        return Invalid, 0;
      }
      PagesMonotone(cfg, prefix, |seqs[src].tokens|);
      var s := seqs[src];
      ghost var others := seqs;
      q := nextSeq;
      nextSeq := nextSeq + 1;
      StartSharing(cfg, pages, others, q, s, prefix, nextSeq);
      seqs := seqs[q := Sequence(s.tokens[..prefix], [])];
      SharePages(q, s, prefix, others);
      EndSharing(cfg, pages, others, seqs, q, s, prefix, nextSeq);
      st := Ok;
    }

    /** page_drop, guard included. */
    method DropPage(p: PageId)
      requires p in pages && TableOk(pages, pageBytes, clock, nextPage, stamp, hostBytes, allocs, evictions)
      modifies this`pages
      ensures pages == old(pages)[p := old(pages[p]).(refs := Less(old(pages[p].refs)))]
      ensures SameAges(old(pages), pages) &&
              TableOk(pages, pageBytes, clock, nextPage, stamp, hostBytes, allocs, evictions)
    {
      Recount(pages, p, Less(pages[p].refs), pageBytes, clock, nextPage, stamp, hostBytes, allocs, evictions);
      if pages[p].refs > 0 {
        pages := pages[p := pages[p].(refs := pages[p].refs - 1)];
      }
    }

    /** One turn of the closing loop. */
    method CloseStep(q: SeqId, i: nat)
      requires cfg.Usable() && Closing(cfg, pages, seqs, q, i, nextSeq) && i < |seqs[q].pages|
      requires TableOk(pages, pageBytes, clock, nextPage, stamp, hostBytes, allocs, evictions)
      modifies this`pages
      ensures Closing(cfg, pages, seqs, q, i + 1, nextSeq) && SameAges(old(pages), pages)
      ensures TableOk(pages, pageBytes, clock, nextPage, stamp, hostBytes, allocs, evictions)
    {
      CloseOne(cfg, pages, seqs, q, i, nextSeq);
      DropPage(seqs[q].pages[i]);
    }

    /** vg_kv_sequence_close: drop every page of q, then forget q. */
    method Close(q: SeqId)
      requires Valid() && q in seqs
      modifies this`pages, this`seqs
      ensures Valid() && seqs == old(seqs) - {q} && SameAges(old(pages), pages)
    {
      var n := |seqs[q].pages|;
      StartClosing(cfg, pages, seqs, q, nextSeq);
      for i := 0 to n
        invariant seqs == old(seqs) && Closing(cfg, pages, seqs, q, i, nextSeq) && SameAges(old(pages), pages)
        invariant TableOk(pages, pageBytes, clock, nextPage, stamp, hostBytes, allocs, evictions)
      {
        CloseStep(q, i);
      }
      EndClosing(cfg, pages, seqs, q, nextSeq);
      seqs := seqs - {q};
    }

    /** vg_kv_page_acquire: the bytes of one layer of the page that holds a token. */
    method Acquire(q: SeqId, layer: nat, token: nat) returns (st: Status, p: PageId, offset: nat, bytes: nat)
      requires Valid() && q in seqs
      modifies this`pages, this`clock, this`stamp
      ensures Valid() && pages.Keys == old(pages.Keys)
      ensures st == if layer >= cfg.nLayers || token >= |seqs[q].tokens| then Invalid else Ok
      ensures st != Ok ==> pages == old(pages) && clock == old(clock)
      ensures st == Ok ==> token / cfg.pageTokens < |seqs[q].pages| && p == seqs[q].pages[token / cfg.pageTokens]
      ensures st == Ok ==> p in pages && pages == old(pages)[p := old(pages[p]).(age := clock)] &&
                           Newest(pages, p) && clock == old(clock) + 1
      ensures st == Ok ==> bytes == layerBytes && offset == LayerOffset(layer, layerBytes)
    {
      if layer >= cfg.nLayers || token >= |seqs[q].tokens| {
        return Invalid, 0, 0, 0;
      }
      TokenHasPage(cfg, token, |seqs[q].tokens|);
      p := seqs[q].pages[token / cfg.pageTokens];
      Touch(pages, seqs, p, pageBytes, clock, nextPage, stamp, hostBytes, allocs, evictions);
      clock := clock + 1;
      pages, stamp := pages[p := pages[p].(age := clock)], stamp[clock := p];
      bytes := layerBytes;
      offset := LayerOffset(layer, layerBytes);
      st := Ok;
    }
  }

  /** vg_kv_open: a shape with a zero, or one whose page size wraps to zero, opens nothing. */
  method Open(cfg: Config) returns (st: Status, store: Store?)
    ensures st == Invalid <==>
              cfg.pageTokens == 0 || cfg.nLayers == 0 || cfg.kvHeads == 0 || cfg.headDim == 0 || cfg.elementBytes == 0
    ensures st != Invalid ==> st == if cfg.PageBytes() == 0 then Range else Ok
    ensures st == Ok <==> store != null
    ensures st == Ok ==>
              fresh(store) && store.Valid() && store.pages == map[] && store.seqs == map[] && store.pageBytes > 0
    ensures st == Ok ==> store.cfg == cfg.(maxPages := if cfg.maxPages == 0 then 16384 else cfg.maxPages) &&
                         store.pageBytes == cfg.PageBytes() && store.layerBytes == cfg.LayerBytes() &&
                         store.clock == store.allocs == 0
  {
    if !cfg.Usable() {
      return Invalid, null;
    }
    if cfg.PageBytes() == 0 {
      return Range, null;
    }
    store := new Store(cfg);
    st := Ok;
  }

  lemma TokenHasPage(c: Config, token: nat, length: nat)
    requires c.pageTokens > 0 && token < length
    ensures token / c.pageTokens < c.Pages(length)
  {
    var pt := c.pageTokens;
    var a, r := token / pt, token % pt;
    assert token == pt * a + r;
    TimesNext(pt, a);
    DivUnique(token + pt, pt, a + 1, r);
    PagesMonotone(c, token + 1, length);
  }

  /** Stamping a page with a fresh age keeps counts and table. */
  lemma Touch(pages: map<PageId, Page>, seqs: map<SeqId, Sequence>, p: PageId, each: nat, clock: nat, nextPage: nat,
              stamp: map<nat, PageId>, hostBytes: nat, allocs: nat, evictions: nat)
    requires p in pages && Counted(pages, seqs) &&
             TableOk(pages, each, clock, nextPage, stamp, hostBytes, allocs, evictions)
    ensures var pages' := pages[p := pages[p].(age := clock + 1)];
            pages'.Keys == pages.Keys && Counted(pages', seqs) && Newest(pages', p) &&
            TableOk(pages', each, clock + 1, nextPage, stamp[clock + 1 := p], hostBytes, allocs, evictions)
  {
    var pages' := pages[p := pages[p].(age := clock + 1)];
    assert pages'.Keys == pages.Keys;
    assert |pages'.Keys| == |pages'|;
  }

  ghost predicate Newest(pages: map<PageId, Page>, p: PageId) {
    p in pages && forall x :: x in pages && x != p ==> pages[x].age < pages[p].age
  }

  // ----- layers of a page -----

  /** Where a layer starts in its page, in 64-bit arithmetic. */
  function LayerOffset(layer: nat, layerBytes: nat): nat {
    (layer * layerBytes) % SIZE
  }

  lemma ModTimes(n: nat, x: nat)
    ensures (n * x) % SIZE == (n * (x % SIZE)) % SIZE
  {
    var k, r := x / SIZE, x % SIZE;
    var a, b := (n * r) / SIZE, (n * r) % SIZE;
    assert x == SIZE * k + r && n * r == SIZE * a + b;
    Distribute(n, SIZE, k, r);
    Distribute(SIZE, 1, n * k, a);
    DivUnique(n * x, SIZE, n * k + a, b);
  }

  lemma Distribute(n: nat, d: nat, k: nat, r: nat)
    ensures n * (d * k + r) == d * (n * k) + n * r
  {
  }

  /** The page is as large as its layers, up to wrapping. */
  lemma PageOfLayers(c: Config)
    ensures c.PageBytes() == (c.nLayers * c.LayerBytes()) % SIZE
  {
    var lb := c.kvHeads * c.headDim * c.elementBytes * c.pageTokens;
    assert c.nLayers * c.kvHeads * c.headDim * c.elementBytes * c.pageTokens == c.nLayers * lb;
    ModTimes(c.nLayers, lb);
  }

  ghost predicate Inside(layer: nat, layerBytes: nat, pageBytes: nat) {
    LayerOffset(layer, layerBytes) + layerBytes <= pageBytes
  }

  lemma NoWrap(x: nat)
    requires x < SIZE
    ensures x % SIZE == x
  {
  }

  /** As long as the layers fit 64 bits, each lies in the page, right behind the one before. */
  lemma LayersFit(n: nat, lb: nat, layer: nat)
    requires layer < n && n * lb < SIZE
    ensures Inside(layer, lb, (n * lb) % SIZE)
    ensures layer + 1 < n ==> LayerOffset(layer + 1, lb) == LayerOffset(layer, lb) + lb
  {
    TimesMonotone(lb, layer + 1, n);
    TimesNext(lb, layer);
    NoWrap(layer * lb);
    NoWrap(n * lb);
    NoWrap((layer + 1) * lb);
  }

  /** Otherwise one layer reaches over the end: the last that starts below the wrap. */
  lemma LayersOverrun(n: nat, lb: nat) returns (layer: nat)
    requires n * lb >= SIZE && lb < SIZE
    ensures layer < n && !Inside(layer, lb, (n * lb) % SIZE)
  {
    assert lb > 0;
    layer := (SIZE - 1) / lb;
    assert SIZE - 1 == lb * layer + (SIZE - 1) % lb;
    TimesNext(lb, layer);
    if layer >= n {
      TimesMonotone(lb, n, layer);
    }
    NoWrap(layer * lb);
  }

  /** Every layer lies inside its page if and only if the layers together fit 64 bits. */
  lemma LayerInsidePage(c: Config)
    ensures (forall layer | 0 <= layer < c.nLayers :: Inside(layer, c.LayerBytes(), c.PageBytes())) <==>
            c.nLayers * c.LayerBytes() < SIZE
  {
    var n, lb := c.nLayers, c.LayerBytes();
    PageOfLayers(c);
    if n * lb < SIZE {
      forall layer | 0 <= layer < n ensures Inside(layer, lb, c.PageBytes()) {
        LayersFit(n, lb, layer);
      }
    } else {
      var layer := LayersOverrun(n, lb);
    }
  }

  /** Three layers of 2^63 bytes: the store opens, with pages of 2^63 bytes. Layer 1 reaches over the end, and
      layer 2 is layer 0. */
  lemma LayersShare(c: Config)
    requires c == Config(1, 3, 0x8000_0000, 0x8000_0000, 2, 0, 0)
    ensures c.Usable() && c.PageBytes() == c.LayerBytes() == 0x8000_0000_0000_0000
    ensures !Inside(1, c.LayerBytes(), c.PageBytes()) &&
            LayerOffset(2, c.LayerBytes()) == LayerOffset(0, c.LayerBytes())
  {
    assert 0x8000_0000 * 0x8000_0000 * 2 == 0x8000_0000_0000_0000;
  }

  /** One layer whose size itself wraps: the page wraps with it, and the layer still fits. */
  lemma WrappedLayerFits(c: Config)
    requires c == Config(1, 1, 0xFFFF_FFFF, 0xFFFF_FFFF, 2, 0, 0)
    ensures 0xFFFF_FFFF * 0xFFFF_FFFF * 2 >= SIZE && Inside(0, c.LayerBytes(), c.PageBytes())
  {
    PageOfLayers(c);
    NoWrap(c.LayerBytes());
  }

  /** Midway through a close: q's first i pages are dropped. */
  ghost predicate Closing(cfg: Config, pages: map<PageId, Page>, seqs: map<SeqId, Sequence>, q: SeqId, i: nat,
                          nextSeq: nat)
    requires cfg.pageTokens > 0
  {
    q in seqs && i <= |seqs[q].pages| && AllHold(cfg, pages, seqs, nextSeq) &&
    Counted(pages, seqs[q := Sequence([], seqs[q].pages[i..])])
  }

  lemma StartClosing(cfg: Config, pages: map<PageId, Page>, seqs: map<SeqId, Sequence>, q: SeqId, nextSeq: nat)
    requires cfg.pageTokens > 0 && q in seqs && Counted(pages, seqs) && AllHold(cfg, pages, seqs, nextSeq)
    ensures Closing(cfg, pages, seqs, q, 0, nextSeq)
  {
    var s := Sequence([], seqs[q].pages[0..]);
    assert s.pages == seqs[q].pages;
    forall x | x in pages ensures Owners(seqs[q := s], x) == Owners(seqs, x) {
    }
  }

  lemma CloseOne(cfg: Config, pages: map<PageId, Page>, seqs: map<SeqId, Sequence>, q: SeqId, i: nat, nextSeq: nat)
    requires cfg.pageTokens > 0 && Closing(cfg, pages, seqs, q, i, nextSeq) && i < |seqs[q].pages|
    ensures var p := seqs[q].pages[i];
            p in pages && pages[p].refs > 0 &&
            Closing(cfg, pages[p := pages[p].(refs := pages[p].refs - 1)], seqs, q, i + 1, nextSeq)
  {
    var s := seqs[q];
    var rest, p := s.pages[i + 1..], s.pages[i];
    assert s.pages[i..] == [p] + rest;
    assert p in s.pages;
    forall j, k | 0 <= j < k < |s.pages[i..]| ensures s.pages[i..][j] != s.pages[i..][k] {
      assert s.pages[i + j] != s.pages[i + k];
    }
    var mid := seqs[q := Sequence([], s.pages[i..])];
    CountedDrop(pages, mid, q, Sequence([], rest), p);
    assert mid[q := Sequence([], rest)] == seqs[q := Sequence([], rest)];
  }

  lemma EndClosing(cfg: Config, pages: map<PageId, Page>, seqs: map<SeqId, Sequence>, q: SeqId, nextSeq: nat)
    requires cfg.pageTokens > 0 && q in seqs && Closing(cfg, pages, seqs, q, |seqs[q].pages|, nextSeq)
    ensures Counted(pages, seqs - {q}) && AllHold(cfg, pages, seqs - {q}, nextSeq)
  {
    var s, less := Sequence([], seqs[q].pages[|seqs[q].pages|..]), seqs - {q};
    assert s.pages == [];
    assert less[q := s] == seqs[q := s];
    forall x | x in pages ensures Owners(less, x) == Owners(seqs[q := s], x) {
      OwnersOfEmpty(less, q, s, x);
    }
  }

  /** The sequence a fork of s at a prefix is. */
  function Prefix(cfg: Config, s: Sequence, prefix: nat): Sequence
    requires cfg.pageTokens > 0 && prefix <= |s.tokens| && cfg.Pages(prefix) <= |s.pages|
  {
    Sequence(s.tokens[..prefix], s.pages[..cfg.Pages(prefix)])
  }

  /** Changing one reference count changes nothing else the store relies on. */
  lemma Recount(pages: map<PageId, Page>, p: PageId, refs: nat, each: nat, clock: nat, nextPage: nat,
                stamp: map<nat, PageId>, hostBytes: nat, allocs: nat, evictions: nat)
    requires p in pages && TableOk(pages, each, clock, nextPage, stamp, hostBytes, allocs, evictions)
    ensures var pages' := pages[p := pages[p].(refs := refs)];
            pages'.Keys == pages.Keys && TableOk(pages', each, clock, nextPage, stamp, hostBytes, allocs, evictions)
  {
    var pages' := pages[p := pages[p].(refs := refs)];
    assert pages'.Keys == pages.Keys;
    assert |pages'.Keys| == |pages'|;
  }

  /** Midway through a fork: q has been given the first i pages of s. */
  ghost predicate Sharing(cfg: Config, pages: map<PageId, Page>, others: map<SeqId, Sequence>,
                          seqs: map<SeqId, Sequence>, q: SeqId, s: Sequence, prefix: nat, i: nat, nextSeq: nat)
    requires cfg.pageTokens > 0
  {
    prefix <= |s.tokens| && i <= |s.pages| && q !in others && q < nextSeq && Holds(cfg, pages, s) &&
    AllHold(cfg, pages, others, nextSeq) && Counted(pages, seqs) &&
    seqs == others[q := Sequence(s.tokens[..prefix], s.pages[..i])]
  }

  lemma StartSharing(cfg: Config, pages: map<PageId, Page>, others: map<SeqId, Sequence>, q: SeqId, s: Sequence,
                     prefix: nat, nextSeq: nat)
    requires cfg.pageTokens > 0 && Counted(pages, others) && AllHold(cfg, pages, others, q)
    requires prefix <= |s.tokens| && q + 1 == nextSeq && Holds(cfg, pages, s)
    ensures Sharing(cfg, pages, others, others[q := Sequence(s.tokens[..prefix], [])], q, s, prefix, 0, nextSeq)
  {
    var s' := Sequence(s.tokens[..prefix], []);
    forall x | x in pages ensures Owners(others[q := s'], x) == Owners(others, x) {
      OwnersOfEmpty(others, q, s', x);
    }
    assert s.pages[..0] == [];
  }

  lemma ShareOne(cfg: Config, pages: map<PageId, Page>, others: map<SeqId, Sequence>, seqs: map<SeqId, Sequence>,
                 q: SeqId, s: Sequence, prefix: nat, i: nat, nextSeq: nat)
    requires cfg.pageTokens > 0 && Sharing(cfg, pages, others, seqs, q, s, prefix, i, nextSeq) && i < |s.pages|
    ensures s.pages[i] in pages
    ensures var p := s.pages[i];
            Sharing(cfg, pages[p := pages[p].(refs := pages[p].refs + 1)], others,
                    seqs[q := Sequence(s.tokens[..prefix], s.pages[..i + 1])], q, s, prefix, i + 1, nextSeq)
  {
    var p, s' := s.pages[i], Sequence(s.tokens[..prefix], s.pages[..i + 1]);
    assert s'.pages == s.pages[..i] + [p];
    assert p in s.pages;
    CountedRetain(pages, seqs, q, s', p);
  }

  lemma EndSharing(cfg: Config, pages: map<PageId, Page>, others: map<SeqId, Sequence>, seqs: map<SeqId, Sequence>,
                   q: SeqId, s: Sequence, prefix: nat, nextSeq: nat)
    requires cfg.pageTokens > 0 && cfg.Pages(prefix) <= |s.pages|
    requires Sharing(cfg, pages, others, seqs, q, s, prefix, cfg.Pages(prefix), nextSeq)
    ensures Counted(pages, seqs) && AllHold(cfg, pages, seqs, nextSeq) && seqs == others[q := Prefix(cfg, s, prefix)]
  {
    assert forall p :: p in s.pages[..cfg.Pages(prefix)] ==> p in s.pages;
  }

  lemma StorePage(pages: map<PageId, Page>, p: PageId, now: nat, each: nat, stamp: map<nat, PageId>,
                  more: map<PageId, Page>, stamp': map<nat, PageId>)
    requires now > 0 && Stored(pages, each, now - 1, p, stamp)
    requires more == pages[p := Page(each, 1, now)] && stamp' == stamp[now := p]
    ensures p !in pages && Stored(more, each, now, p + 1, stamp')
    ensures |more| == |pages| + 1 && Bytes(|more|, each) == Bytes(|pages|, each) + each
  {
    MapGrows(pages, p, Page(each, 1, now));
  }

  lemma NotYetStored(pages: map<PageId, Page>, each: nat, clock: nat, nextPage: nat, stamp: map<nat, PageId>)
    requires Stored(pages, each, clock, nextPage, stamp)
    ensures nextPage !in pages
  {
  }

  lemma MapGrows<V>(m: map<nat, V>, k: nat, v: V)
    requires k !in m
    ensures |m[k := v]| == |m| + 1
  {
    assert m[k := v].Keys == m.Keys + {k};
  }

  lemma EmptyNeedsNoPages(cfg: Config)
    requires cfg.pageTokens > 0
    ensures cfg.Pages(0) == 0
  {
  }

  /** A page counted once but held by nobody becomes exact when q takes it with its next token. */
  lemma Adopt(cfg: Config, kept: map<PageId, Page>, pages: map<PageId, Page>, seqs: map<SeqId, Sequence>, q: SeqId,
              p: PageId, token: Tok, nextSeq: nat)
    requires cfg.pageTokens > 0 && q in seqs && p !in kept && p in pages && pages[p].refs == 1 &&
             pages == kept[p := pages[p]]
    requires Counted(kept, seqs) && AllHold(cfg, kept, seqs, nextSeq) && |seqs[q].tokens| % cfg.pageTokens == 0
    ensures var s := Sequence(seqs[q].tokens + [token], seqs[q].pages + [p]);
            Counted(pages, seqs[q := s]) && AllHold(cfg, pages, seqs[q := s], nextSeq)
  {
    var s := Sequence(seqs[q].tokens + [token], seqs[q].pages + [p]);
    PagesGrow(cfg, |seqs[q].tokens|);
    assert forall r :: r in seqs ==> p !in seqs[r].pages;
    assert Owners(seqs, p) == {};
    forall x | x in pages ensures pages[x].refs == |Owners(seqs[q := s], x)| {
      OwnersGain(seqs, q, seqs[q], s, p, x);
    }
  }
}
