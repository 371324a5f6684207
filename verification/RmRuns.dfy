/** Resizing, and runs of requests. */
module RmRuns {
  import opened RmHeap
  import opened RmInv
  import opened RmSplit
  import opened RmTheorems
  import opened RmLive

  /** Growing the last block. */
  lemma ExtendMeans(h: Heap, p: nat, need: nat, g: nat, h1: Heap, h': Heap)
    requires Good(h) && UsedAt(h, p) && p == h.last && g % 8 == 0 && need % 8 == 0
    requires MIN_BLOCK <= need <= h.blocks[p].size + g
    requires h1 == Extend(h, p, g).(side := false) && h' == Split(h1, p, need, false)
    ensures Good(h') && UsedAt(h', p) && need <= h'.blocks[p].size
        && Live(h') == (Live(h) - {p})[p := h'.blocks[p].size]
  {
    ExtendInv(h, p, g);
    SideInv(Extend(h, p, g), false);
    KeptMeans(h1, p, need, false, h', p);
    assert Live(h1) - {p} == Live(h) - {p};
  }

  lemma MoveMaps(m: map<nat, nat>, p: nat, a: nat, x: nat)
    requires p in m && a !in m
    ensures p in m[a := x] && m[a := x] - {p} == (m - {p})[a := x] && a in (m - {p})[a := x]
  {
  }

  /** Moving to a new block. */
  lemma MoveMeans(h: Heap, p: nat, need: nat, h1: Heap, a: nat, h': Heap)
    requires Good(h1) && UsedAt(h, p) && UsedAt(h1, p) && UsedAt(h1, a) && a !in Live(h) && need <= h1.blocks[a].size
    requires Live(h1) == Live(h)[a := h1.blocks[a].size] && h' == Free(h1, p)
    ensures Good(h') && UsedAt(h', a) && need <= h'.blocks[a].size
        && Live(h') == (Live(h) - {p})[a := h'.blocks[a].size]
  {
    FreeInv(h1, p);
    FreeLive(h1, p);
    MoveMaps(Live(h), p, a, h1.blocks[a].size);
    assert a in Live(h') && Live(h')[a] == h1.blocks[a].size == h'.blocks[a].size;
  }

  /** What a client gets from a resize request of more than `was` bytes. */
  ghost predicate Resized(h: Heap, p: nat, need: nat, h': Heap, a: nat) {
    && Good(h') && p in h.blocks
    && if a == 0 then
         && UsedAt(h', p) && h'.blocks[p].size >= h.blocks[p].size
         && Live(h') == Live(h)[p := h'.blocks[p].size]
       else
         && UsedAt(h', a) && h'.blocks[a].size >= need && (a == p || a !in Live(h))
         && Live(h') == (Live(h) - {p})[a := h'.blocks[a].size]
  }

  lemma RegrowMeans(h: Heap, p: nat, need: nat, was: nat, limit: nat, h': Heap, a: nat)
    requires Good(h) && UsedAt(h, p) && was < need && was <= h.blocks[p].size && need >= MIN_BLOCK && need % 8 == 0
    requires (h', a) == Regrow(h, p, need, was, limit)
    ensures Resized(h, p, need, h', a)
  {
    var g := Pages(need - was);
    PagesFit(need - was);
    NoZero(h);
    LivePut(h, p);
    if h.blocks[p].size < need && a != 0 {
      if p == h.last {
        ExtendMeans(h, p, need, g, Extend(h, p, g).(side := false), h');
      } else {
        MoveNeeds(h, p, need);
        var (h1, b) := Malloc(h, need);
        MoveMeans(h, p, need, h1, b, h');
      }
    }
  }

  lemma MoveNeeds(h: Heap, p: nat, need: nat)
    requires Good(h) && UsedAt(h, p) && need >= MIN_BLOCK && need % 8 == 0
    ensures Round(need) == need && Source(h, need).1 in Source(h, need).0.blocks
    ensures var (h1, a) := Malloc(h, need);
            && Good(h1) && UsedAt(h1, p) && UsedAt(h1, a) && a !in Live(h) && a != 0 && need <= h1.blocks[a].size
            && Live(h1) == Live(h)[a := h1.blocks[a].size]
  {
    assert Round(need) == need;
    MallocMeans(h, need);
    var (h1, a) := Malloc(h, need);
    assert p in Live(h) && p in Live(h1);
    NoZero(h1);
  }

  /** A resize request gives a block of at least the size asked for, in place or at an address that was not
      in use, or fails and loses nothing. Size 0 frees the block. */
  lemma ReallocMeans(h: Heap, p: nat, size: nat, limit: nat)
    requires Good(h) && UsedAt(h, p)
    ensures var (h', a) := Realloc(h, p, size, limit);
            if size == 0 then Good(h') && a == 0 && Live(h') == Live(h) - {p}
            else Resized(h, p, size, h', a)
  {
    RoundFits(size);
    NoZero(h);
    if size == 0 {
      FreeInv(h, p);
      FreeLive(h, p);
    } else if Round(size) <= h.blocks[p].size {
      LivePut(h, p);
    } else {
      var h1 := JoinNext(h, p);
      JoinNextInv(h, p);
      JoinNextLive(h, p);
      var (h', a) := Regrow(h1, p, Round(size), h.blocks[p].size, limit);
      RegrowMeans(h1, p, Round(size), h.blocks[p].size, limit, h', a);
      PutTwice(Live(h), p, h1.blocks[p].size, SizeAt(h', p));
    }
  }

  lemma PutTwice(m: map<nat, nat>, p: nat, x: nat, y: nat)
    requires p in m
    ensures m[p := x] - {p} == m - {p} && m[p := x][p := y] == m[p := y]
    ensures forall a: nat :: a in m[p := x] <==> a in m
  {
  }

  lemma SplitBrk(h: Heap, p: nat, need: nat, join: bool)
    requires p in h.blocks && |h.lists| == LISTS
    ensures Split(h, p, need, join).brk == h.brk
  {
  }

  /** The header and payload of `p`. */
  predicate Covers(h: Heap, p: nat, w: nat) { p in h.blocks && p - HEADER <= w < p + h.blocks[p].size }

  /** A request is served out of a smallest free block that fits, and the heap grows only if none does. */
  lemma MallocIsBestFit(h: Heap, size: nat)
    requires Good(h)
    ensures Source(h, Round(size)).1 in Source(h, Round(size)).0.blocks
    ensures var (h', a) := Malloc(h, size); var (g, p, grown) := Source(h, Round(size));
            && Covers(g, p, a)
            && (grown <==> forall q: nat :: FreeAt(h, q) ==> SizeAt(h, q) < Round(size))
            && (if grown then h'.brk > h.brk && p > h.brk else h'.brk == h.brk && BestFit(h, p, Round(size)))
  {
    RoundFits(size);
    var need := Round(size);
    MallocMeans(h, size);
    SearchIsBestFit(h, need);
    ServedInv(h, need);
    var (g, p, grown) := Source(h, need);
    SplitBrk(g, p, need, grown);
    PagesFit(need + HEADER);
    if !grown { assert BestFit(h, p, need) && FreeAt(h, p) && need <= SizeAt(h, p); }
  }

  // ---- runs ----------------------------------------------------------------------------------------

  /** Clients free and resize only blocks in use. */
  predicate Proper(h: Heap, req: Request) {
    match req
    case Obtain(_) => true
    case Dispose(p) => UsedAt(h, p)
    case Resize(p, _) => UsedAt(h, p)
  }

  ghost function Step(h: Heap, req: Request, limit: nat): (h': Heap)
    requires |h.lists| == LISTS
    ensures |h'.lists| == LISTS
  {
    if !Proper(h, req) then h else
    match req
    case Obtain(size) =>
      if Room(h, Round(size), limit) && Source(h, Round(size)).1 in Source(h, Round(size)).0.blocks
      then Malloc(h, size).0 else h
    case Dispose(p) => Free(h, p)
    case Resize(p, size) => Realloc(h, p, size, limit).0
  }

  ghost function Run(h: Heap, reqs: seq<Request>, limit: nat): (h': Heap)
    requires |h.lists| == LISTS
    ensures |h'.lists| == LISTS
    decreases |reqs|
  {
    if reqs == [] then h else Run(Step(h, reqs[0], limit), reqs[1..], limit)
  }

  lemma InitGood()
    ensures Good(InitHeap()) && Live(InitHeap()) == map[]
  {
    var h := InitHeap();
    assert h.blocks.Keys == {FIRST};
  }

  lemma {:induction false} RunGood(h: Heap, reqs: seq<Request>, limit: nat)
    requires Good(h)
    ensures Good(Run(h, reqs, limit))
    decreases |reqs|
  {
    if reqs != [] {
      if Proper(h, reqs[0]) {
        match reqs[0]
        case Obtain(size) => MallocMeans(h, size);
        case Dispose(p) => FreeInv(h, p);
        case Resize(p, size) => ReallocMeans(h, p, size, limit);
      }
      RunGood(Step(h, reqs[0], limit), reqs[1..], limit);
    }
  }

  ghost predicate Covered(h: Heap, w: nat) { exists p: nat :: Covers(h, p, w) }

  lemma {:induction false} CoveredFrom(h: Heap, p: nat, w: nat) returns (q: nat)
    requires Geo(h) && p in h.blocks && p - HEADER <= w < h.brk
    ensures Covers(h, q, w)
    decreases h.brk + HEADER - p
  {
    assert BlockOk(h, p);
    if w < p + h.blocks[p].size { q := p; } else { q := CoveredFrom(h, Next(h, p), w); }
  }

  /** The heap is well formed after every run: each byte after the list heads is in exactly one block, the
      flags tell the state of the neighbours, no two free blocks are adjacent, and blocks are aligned. */
  lemma WellFormed(reqs: seq<Request>, limit: nat)
    ensures var h := Run(InitHeap(), reqs, limit);
            && (forall w: nat :: BASE <= w < h.brk ==> Covered(h, w))
            && (forall w: nat, p: nat, q: nat :: Covers(h, p, w) && Covers(h, q, w) ==> p == q)
            && (forall p: nat :: p in h.blocks && Next(h, p) in h.blocks ==>
                  && h.blocks[Next(h, p)].pf == h.blocks[p].free
                  && !(h.blocks[p].free && h.blocks[Next(h, p)].free))
            && (forall p: nat :: p in h.blocks ==> p % 8 == 0 && BASE + HEADER <= p && p + h.blocks[p].size <= h.brk)
            && h.last in h.blocks && (forall p: nat :: p in h.blocks ==> p <= h.last)
  {
    InitGood();
    RunGood(InitHeap(), reqs, limit);
    var h := Run(InitHeap(), reqs, limit);
    forall w: nat | BASE <= w < h.brk ensures Covered(h, w) {
      var q := CoveredFrom(h, FIRST, w);
      assert Covers(h, q, w);
    }
    forall w: nat, p: nat, q: nat | Covers(h, p, w) && Covers(h, q, w) ensures p == q {
      assert Apart(h, p, q) && Apart(h, q, p);
    }
    NoZero(h);
    forall p: nat | p in h.blocks
      ensures p % 8 == 0 && BASE + HEADER <= p && p + h.blocks[p].size <= h.brk && p <= h.last && FlagsOk(h, p, 0, 0)
    {
      assert BlockOk(h, p) && Apart(h, h.last, p) && FlagsOk(h, p, 0, 0);
    }
  }
}
