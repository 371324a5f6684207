/** What requests do, over blocks and numbers alone: when they fail, which bytes they give, and how far the
    heap grows. */
module RmExact {
  import opened RmHeap
  import opened RmInv
  import opened RmSplit
  import opened RmTheorems
  import opened RmLive
  import opened RmRuns

  // ---- rounding ------------------------------------------------------------------------------------

  /** Requests are rounded up to the least multiple of 8 that is at least 8. */
  lemma RoundIsLeast(size: nat, k: nat)
    ensures Round(size) % 8 == 0 && MIN_BLOCK <= Round(size) && size <= Round(size)
    ensures k % 8 == 0 && MIN_BLOCK <= k && size <= k ==> Round(size) <= k
  {
  }

  // ---- requests ------------------------------------------------------------------------------------

  /** No free block has `need` bytes. */
  ghost predicate NoneFits(h: Heap, need: nat) { forall q: nat :: FreeAt(h, q) ==> SizeAt(h, q) < need }

  lemma RoomIs(h: Heap, need: nat, limit: nat)
    requires Good(h) && need >= MIN_BLOCK && need % 8 == 0
    ensures Room(h, need, limit) <==> !(NoneFits(h, need) && h.brk + Pages(need + HEADER) > limit)
    ensures NoneFits(h, need) <==> Search(h, need).Nowhere?
  {
    SearchIsBestFit(h, need);
    match Search(h, need)
    case At(i, k) => assert FreeAt(h, h.lists[i][k]);
    case Nowhere =>
  }

  /** The block found for a request is a smallest free one that fits, or, if none fits, new at the end of the heap,
      which grows by whole pages; there is none exactly if the heap would have to grow past its limit. */
  ghost predicate Obtained(h: Heap, need: nat, limit: nat, p: nat, grown: bool, brk: nat) {
    && (p == 0 <==> NoneFits(h, need) && h.brk + Pages(need + HEADER) > limit)
    && (p != 0 ==> (grown <==> NoneFits(h, need)) && if grown then p == h.brk + HEADER else BestFit(h, p, need))
    && brk == h.brk + if p != 0 && grown then Pages(need + HEADER) else 0
  }

  lemma ObtainedIs(h: Heap, need: nat, limit: nat, p: nat, grown: bool, brk: nat)
    requires Good(h) && need >= MIN_BLOCK && need % 8 == 0
    requires Room(h, need, limit) ==> p == Source(h, need).1 != 0 && grown == Source(h, need).2
    requires !Room(h, need, limit) ==> p == 0
    requires brk == if Room(h, need, limit) then Source(h, need).0.brk else h.brk
    ensures Obtained(h, need, limit, p, grown, brk)
  {
    RoomIs(h, need, limit);
    SearchIsBestFit(h, need);
  }

  /** The block at `a` comes out of the `s` bytes at `p`. A rest of more than 16 bytes is cut off, and the side
      of the cut changes each time; a smaller one stays. */
  predicate CutFrom(h: Heap, p: nat, s: nat, need: nat, h': Heap, a: nat) {
    if s > need + 16 then
      a == (if h.side then p + s - need else p) && SizeAt(h', a) == need && h'.side != h.side
    else a == p && SizeAt(h', a) == s && h'.side == h.side
  }

  lemma CutFromMeans(h: Heap, p: nat, s: nat, need: nat, h': Heap, a: nat)
    requires CutFrom(h, p, s, need, h', a) && need <= s
    ensures need <= SizeAt(h', a) <= need + 16 && p <= a && a + SizeAt(h', a) <= p + s
  {
  }

  /** Where the block for a request comes from: out of a smallest free block that fits, or, if none fits, out of
      the pages by which the heap grows. */
  ghost predicate Serves(h: Heap, need: nat, h': Heap, a: nat) {
    if NoneFits(h, need) then
      && h'.brk == h.brk + Pages(need + HEADER)
      && CutFrom(h, h.brk + HEADER, Pages(need + HEADER) - HEADER, need, h', a)
    else
      h'.brk == h.brk && exists p: nat :: BestFit(h, p, need) && CutFrom(h, p, SizeAt(h, p), need, h', a)
  }

  lemma ServesMeans(h: Heap, need: nat, h': Heap, a: nat)
    requires Serves(h, need, h', a)
    ensures need <= SizeAt(h', a) <= need + 16
  {
    PagesFit(need + HEADER);
    if NoneFits(h, need) {
      CutFromMeans(h, h.brk + HEADER, Pages(need + HEADER) - HEADER, need, h', a);
    } else {
      var p: nat :| BestFit(h, p, need) && CutFrom(h, p, SizeAt(h, p), need, h', a);
      CutFromMeans(h, p, SizeAt(h, p), need, h', a);
    }
  }

  /** The part of a used block that a split keeps. */
  lemma SplitCuts(g: Heap, p: nat, need: nat, join: bool, h': Heap, a: nat)
    requires Good(g) && UsedAt(g, p) && NextNotFree(g, p) && MIN_BLOCK <= need <= g.blocks[p].size && need % 8 == 0
    requires join || !g.side || !Backward(g, p)
    requires h' == Split(g, p, need, join) && a == Kept(g, p, need)
    ensures CutFrom(g, p, SizeAt(g, p), need, h', a) && h'.brk == g.brk
  {
    SplitLive(g, p, need, join);
    SplitBrk(g, p, need, join);
    assert a in Live(h') && SizeAt(h', a) == Live(h')[a];
  }

  lemma ServedFacts(h: Heap, need: nat, g: Heap, p: nat, grown: bool)
    requires Good(h) && need >= MIN_BLOCK && need % 8 == 0 && (g, p, grown) == Served(h, need)
    ensures g.side == h.side && (grown <==> NoneFits(h, need))
    ensures if grown then p == h.brk + HEADER && SizeAt(g, p) == Pages(need + HEADER) - HEADER
                && g.brk == h.brk + Pages(need + HEADER)
            else BestFit(h, p, need) && SizeAt(g, p) == SizeAt(h, p) && g.brk == h.brk
  {
    SearchIsBestFit(h, need);
    RoomIs(h, need, 0);
    ServedInv(h, need);
    PagesFit(need + HEADER);
  }

  /** A request that can be served is served as `Serves` says, and adds one live block. */
  lemma MallocExactly(h: Heap, size: nat, need: nat, h': Heap, a: nat)
    requires Good(h) && need == Round(size) && Source(h, need).1 in Source(h, need).0.blocks
    requires (h', a) == Malloc(h, size)
    ensures Serves(h, need, h', a) && need <= SizeAt(h', a) <= need + 16
    ensures Good(h') && !UsedAt(h, a) && a % 8 == 0 && a != 0 && Live(h') == Live(h)[a := SizeAt(h', a)]
  {
    RoundFits(size);
    MallocMeans(h, size);
    MallocSplits(h, size);
    NoZero(h');
    var (g, p, grown) := Served(h, need);
    ServedInv(h, need);
    ServedFacts(h, need, g, p, grown);
    SplitCuts(g, p, need, grown, h', a);
    assert CutFrom(h, p, SizeAt(g, p), need, h', a);
    ServesMeans(h, need, h', a);
  }

  /** Freeing a block leaves the end of the heap and the side of the next split as they are. */
  lemma FreeExactly(h: Heap, p: nat, h': Heap)
    requires Good(h) && UsedAt(h, p) && h' == Free(h, p)
    ensures Good(h') && Live(h') == Live(h) - {p} && h'.brk == h.brk && h'.side == h.side
  {
    FreeInv(h, p);
    FreeLive(h, p);
    FreeEnds(h, p);
  }

  lemma FreeEnds(h: Heap, p: nat)
    requires p in h.blocks && |h.lists| == LISTS
    ensures Free(h, p).brk == h.brk && Free(h, p).side == h.side
  {
    RetireEnds(JoinNext(h, p), p);
  }

  lemma RetireEnds(h: Heap, p: nat)
    requires p in h.blocks && |h.lists| == LISTS
    ensures Retire(h, p).brk == h.brk && Retire(h, p).side == h.side
  {
  }

  // ---- resizing ------------------------------------------------------------------------------------

  /** The bytes `p` can have without moving: its own and those of a free block after it. */
  function Avail(h: Heap, p: nat): nat
    requires p in h.blocks
  {
    h.blocks[p].size + if FreeAt(h, Next(h, p)) then HEADER + SizeAt(h, Next(h, p)) else 0
  }

  /** Nothing but a free block is between `p` and the end of the heap. */
  predicate AtEnd(h: Heap, p: nat)
    requires p in h.blocks
  {
    p + Avail(h, p) == h.brk
  }

  lemma LastEnds(h: Heap, p: nat)
    requires Good(h) && p in h.blocks
    ensures p == h.last <==> p + h.blocks[p].size == h.brk
  {
    assert BlockOk(h, p) && Apart(h, p, h.last) && Apart(h, h.last, p);
  }

  /** Taking in the block after `p`. */
  lemma JoinedIs(h: Heap, p: nat, h1: Heap)
    requires Good(h) && UsedAt(h, p) && h1 == JoinNext(h, p)
    ensures Good(h1) && UsedAt(h1, p) && h1.blocks[p].size == Avail(h, p) && h1.brk == h.brk && h1.side == h.side
    ensures Live(h1) == Live(h)[p := Avail(h, p)] && (p == h1.last <==> AtEnd(h, p))
    ensures forall q: nat :: FreeAt(h1, q) <==> FreeAt(h, q) && q != Next(h, p)
    ensures forall q: nat :: FreeAt(h1, q) ==> SizeAt(h1, q) == SizeAt(h, q)
  {
    JoinNextInv(h, p);
    JoinNextLive(h, p);
    JoinedBlocks(h, p, h1);
    LastEnds(h1, p);
  }

  lemma JoinedBlocks(h: Heap, p: nat, h1: Heap)
    requires Good(h) && UsedAt(h, p) && h1 == JoinNext(h, p)
    ensures h1.blocks[p].size == Avail(h, p) && h1.brk == h.brk && h1.side == h.side
    ensures forall q: nat :: FreeAt(h1, q) <==> FreeAt(h, q) && q != Next(h, p)
    ensures forall q: nat :: FreeAt(h1, q) ==> SizeAt(h1, q) == SizeAt(h, q)
  {
  }

  lemma JoinedFits(h: Heap, p: nat, h1: Heap, need: nat)
    requires Good(h) && UsedAt(h, p) && h1 == JoinNext(h, p) && Avail(h, p) < need
    ensures NoneFits(h1, need) <==> NoneFits(h, need)
    ensures forall q: nat :: BestFit(h1, q, need) ==> BestFit(h, q, need)
  {
    JoinedIs(h, p, h1);
    var n := Next(h, p);
    assert FreeAt(h, n) ==> SizeAt(h, n) < need;
    if NoneFits(h1, need) {
      forall q: nat | FreeAt(h, q) ensures SizeAt(h, q) < need { assert q != n ==> FreeAt(h1, q); }
    }
    if NoneFits(h, need) {
      forall q: nat | FreeAt(h1, q) ensures SizeAt(h1, q) < need { assert FreeAt(h, q); }
    }
    forall q: nat | BestFit(h1, q, need) ensures BestFit(h, q, need) {
      forall r: nat | FreeAt(h, r) && need <= SizeAt(h, r) ensures SizeAt(h, q) <= SizeAt(h, r) {
        assert r != n && FreeAt(h1, r);
      }
    }
  }

  lemma JoinedServes(h: Heap, p: nat, h1: Heap, need: nat, h2: Heap, a: nat)
    requires Good(h) && UsedAt(h, p) && h1 == JoinNext(h, p) && Avail(h, p) < need && Serves(h1, need, h2, a)
    ensures Serves(h, need, h2, a)
  {
    JoinedIs(h, p, h1);
    JoinedFits(h, p, h1, need);
    if !NoneFits(h, need) {
      var q: nat :| BestFit(h1, q, need) && CutFrom(h1, q, SizeAt(h1, q), need, h2, a);
      assert BestFit(h, q, need) && CutFrom(h, q, SizeAt(h, q), need, h2, a);
    }
  }

  /** Resizing `p` to `need` bytes fails exactly if `p` is too small even with a free block after it, and the heap
      cannot grow as far as it would have to: by the difference if `p` is at the end, and else, unless some free
      block fits, by a new block. */
  ghost predicate ResizeFails(h: Heap, p: nat, need: nat, limit: nat)
    requires p in h.blocks
  {
    && Avail(h, p) < need
    && if AtEnd(h, p) then h.brk + Pages(need - h.blocks[p].size) > limit
       else NoneFits(h, need) && h.brk + Pages(need + HEADER) > limit
  }

  /** `p` need not move. */
  predicate Stays(h: Heap, p: nat, need: nat, limit: nat)
    requires p in h.blocks
  {
    Avail(h, p) >= need || (AtEnd(h, p) && h.brk + Pages(need - h.blocks[p].size) <= limit)
  }

  /** The size of a block resized in place, where the heap ends, and the side of the next split. */
  predicate ResizedInPlace(h: Heap, p: nat, need: nat, h': Heap)
    requires p in h.blocks
  {
    if h.blocks[p].size >= need then h' == h
    else if Avail(h, p) >= need then SizeAt(h', p) == Avail(h, p) && h'.brk == h.brk && h'.side == h.side
    else
      var g := Pages(need - h.blocks[p].size);
      h'.brk == h.brk + g && CutFrom(h.(side := false), p, Avail(h, p) + g, need, h', p)
  }

  /** What a resize leads to: the old block is kept, grown in place, or exchanged for one that a request of the
      same size would get. All other live blocks stay. */
  ghost predicate ResizeDoes(h: Heap, p: nat, need: nat, limit: nat, h': Heap, a: nat)
    requires p in h.blocks
  {
    && (a == 0 <==> ResizeFails(h, p, need, limit))
    && (a == p <==> Stays(h, p, need, limit))
    && Good(h')
    && if a == 0 then
         Live(h') == Live(h)[p := Avail(h, p)] && h'.brk == h.brk && h'.side == h.side
       else if a == p then
         Live(h') == Live(h)[p := SizeAt(h', p)] && ResizedInPlace(h, p, need, h')
       else
         && a !in Live(h) && Live(h') == (Live(h) - {p})[a := SizeAt(h', a)]
         && Moved(h, need, h', a)
  }

  /** The new block is one that a request for `need` bytes would get. */
  ghost predicate Moved(h: Heap, need: nat, h': Heap, a: nat) {
    exists h2: Heap :: Serves(h, need, h2, a) && h'.brk == h2.brk && h'.side == h2.side && SizeAt(h', a) ==
        SizeAt(h2, a)
  }

  lemma ExtendExactly(h: Heap, p: nat, need: nat, g: nat, h1: Heap, h': Heap)
    requires Good(h) && UsedAt(h, p) && p == h.last && g % 8 == 0 && need % 8 == 0
    requires MIN_BLOCK <= need <= h.blocks[p].size + g
    requires h1 == Extend(h, p, g).(side := false) && h' == Split(h1, p, need, false)
    ensures h'.brk == h.brk + g && CutFrom(h.(side := false), p, h.blocks[p].size + g, need, h', p)
    ensures Good(h') && Live(h') == (Live(h) - {p})[p := SizeAt(h', p)]
  {
    ExtendMeans(h, p, need, g, h1, h');
    ExtendInv(h, p, g);
    SideInv(Extend(h, p, g), false);
    SplitCuts(h1, p, need, false, h', p);
  }

  lemma MoveExactly(h: Heap, p: nat, need: nat, limit: nat, h': Heap, a: nat)
    requires Good(h) && UsedAt(h, p) && need >= MIN_BLOCK && need % 8 == 0 && (h', a) == Move(h, p, need, limit)
    ensures a == 0 <==> NoneFits(h, need) && h.brk + Pages(need + HEADER) > limit
    ensures a == 0 ==> h' == h
    ensures a != 0 ==> Good(h') && a !in Live(h) && Live(h') == (Live(h) - {p})[a := SizeAt(h', a)]
    ensures a != 0 ==> Moved(h, need, h', a)
  {
    MoveNeeds(h, p, need);
    RoomIs(h, need, limit);
    if a != 0 {
      var (h1, b) := Malloc(h, need);
      MallocExactly(h, need, need, h1, b);
      MoveMeans(h, p, need, h1, b, h');
      FreeExactly(h1, p, h');
      assert a in Live(h') && a in Live(h1) - {p} && Live(h')[a] == Live(h1)[a];
      assert Serves(h, need, h1, a) && SizeAt(h', a) == SizeAt(h1, a);
    }
  }

  lemma ReallocExactly(h: Heap, p: nat, size: nat, limit: nat, need: nat, h': Heap, a: nat)
    requires Good(h) && UsedAt(h, p) && size > 0 && need == Round(size) && (h', a) == Realloc(h, p, size, limit)
    ensures ResizeDoes(h, p, need, limit, h', a)
  {
    RoundFits(size);
    NoZero(h);
    var was := h.blocks[p].size;
    if need <= was {
      LivePut(h, p);
    } else {
      var h1 := JoinNext(h, p);
      JoinedIs(h, p, h1);
      RegrowExactly(h, h1, p, need, was, limit, h', a);
    }
  }

  /** What holds once `p` has taken in the block after it. */
  ghost predicate Joined(h: Heap, h1: Heap, p: nat, need: nat) {
    && Good(h) && UsedAt(h, p) && p != 0 && SizeAt(h, p) < need && need >= MIN_BLOCK && need % 8 == 0
    && |h.lists| == LISTS && h1 == JoinNext(h, p)
  }

  lemma RegrowExactly(h: Heap, h1: Heap, p: nat, need: nat, was: nat, limit: nat, h': Heap, a: nat)
    requires Joined(h, h1, p, need) && was == h.blocks[p].size
    requires p in h1.blocks && |h1.lists| == LISTS && (h', a) == Regrow(h1, p, need, was, limit)
    ensures ResizeDoes(h, p, need, limit, h', a)
  {
    JoinedIs(h, p, h1);
    if Avail(h, p) >= need {
      assert SizeAt(h', p) == Avail(h, p);
    } else if p == h1.last {
      RegrowAtEnd(h, h1, p, need, was, Pages(need - was), limit, h', a);
    } else {
      RegrowMoves(h, h1, p, need, limit, h', a);
    }
  }

  lemma RegrowAtEnd(h: Heap, h1: Heap, p: nat, need: nat, was: nat, g: nat, limit: nat, h': Heap, a: nat)
    requires Joined(h, h1, p, need) && was == h.blocks[p].size && g == Pages(need - was)
    requires AtEnd(h, p) && Avail(h, p) < need && p in h1.blocks
    requires (h', a) == if h1.brk + g > limit then (h1, 0)
        else (Split(Extend(h1, p, g).(side := false), p, need, false), p)
    ensures ResizeDoes(h, p, need, limit, h', a)
  {
    JoinedIs(h, p, h1);
    if h.brk + g <= limit { ExtendedAtEnd(h, h1, p, need, was, g, h'); }
  }

  lemma ExtendedAtEnd(h: Heap, h1: Heap, p: nat, need: nat, was: nat, g: nat, h': Heap)
    requires Joined(h, h1, p, need) && was == h.blocks[p].size && g == Pages(need - was)
    requires AtEnd(h, p) && Avail(h, p) < need && p in h1.blocks && |h1.lists| == LISTS
    requires h' == Split(Extend(h1, p, g).(side := false), p, need, false)
    ensures Good(h') && Live(h') == Live(h)[p := SizeAt(h', p)] && ResizedInPlace(h, p, need, h')
  {
    JoinedIs(h, p, h1);
    PagesFit(need - was);
    ExtendExactly(h1, p, need, g, Extend(h1, p, g).(side := false), h');
    assert h'.brk == h.brk + g && CutFrom(h1.(side := false), p, Avail(h, p) + g, need, h', p);
    PutTwice(Live(h), p, Avail(h, p), SizeAt(h', p));
    LivePut(h, p);
  }

  lemma RegrowMoves(h: Heap, h1: Heap, p: nat, need: nat, limit: nat, h': Heap, a: nat)
    requires Joined(h, h1, p, need) && !AtEnd(h, p) && Avail(h, p) < need && p in h1.blocks
    requires |h1.lists| == LISTS && (h', a) == Move(h1, p, need, limit)
    ensures ResizeDoes(h, p, need, limit, h', a)
  {
    JoinedIs(h, p, h1);
    MoveExactly(h1, p, need, limit, h', a);
    JoinedFits(h, p, h1, need);
    assert p in Live(h) && p in Live(h1);
    assert a == 0 <==> ResizeFails(h, p, need, limit);
    if a != 0 { MovedAway(h, h1, p, need, h', a); }
  }

  lemma MovedAway(h: Heap, h1: Heap, p: nat, need: nat, h': Heap, a: nat)
    requires Joined(h, h1, p, need) && Avail(h, p) < need && Moved(h1, need, h', a)
    requires a !in Live(h1) && Live(h') == (Live(h1) - {p})[a := SizeAt(h', a)]
    ensures a != p && a !in Live(h) && Live(h') == (Live(h) - {p})[a := SizeAt(h', a)] && Moved(h, need, h', a)
  {
    JoinedIs(h, p, h1);
    assert p in Live(h);
    PutTwice(Live(h), p, Avail(h, p), 0);
    MovedToo(h, h1, p, need, h', a);
  }

  lemma MovedToo(h: Heap, h1: Heap, p: nat, need: nat, h': Heap, a: nat)
    requires Joined(h, h1, p, need) && Avail(h, p) < need && Moved(h1, need, h', a)
    ensures Moved(h, need, h', a)
  {
    var h2: Heap :| Serves(h1, need, h2, a) && h'.brk == h2.brk && h'.side == h2.side && SizeAt(h', a) == SizeAt(h2, a);
    JoinedServes(h, p, h1, need, h2, a);
  }

  // ---- freeing and asking again ----------------------------------------------------------------------

  /** A block with used neighbours that is freed is the first to be handed out again for its size. */
  lemma FreedComesBack(h: Heap, p: nat, size: nat, h1: Heap)
    requires Good(h) && UsedAt(h, p) && !FreeAt(h, Next(h, p)) && !Backward(h, p)
    requires Round(size) == SizeAt(h, p) && h1 == Free(h, p)
    ensures Source(h1, Round(size)).1 in Source(h1, Round(size)).0.blocks
    ensures var (h', a) := Malloc(h1, size); a == p && Live(h') == Live(h)
  {
    var need := Round(size);
    RoundFits(size);
    FreeExactly(h, p, h1);
    MallocMeans(h1, size);
    ListedFirst(h, p, need, h1);
    var (h', a) := Malloc(h1, size);
    MallocExactly(h1, size, need, h', a);
    assert SizeAt(Source(h1, need).0, p) == need;
    LivePut(h, p);
  }

  lemma ListedFirst(h: Heap, p: nat, need: nat, h1: Heap)
    requires Good(h) && UsedAt(h, p) && !FreeAt(h, Next(h, p)) && !Backward(h, p)
    requires need == SizeAt(h, p) && h1 == Free(h, p) && need >= MIN_BLOCK
    ensures var at := Search(h1, need); at.At? && h1.lists[at.i][at.k] == p && SizeAt(h1, p) == need
  {
    var g := MarkFree(h, p);
    var i := Index(need);
    var l := g.lists[i];
    var k := if need <= MAX_FIXED then 0 else Place(g, l, need);
    assert ListOf(g, p) == i && h1 == SetList(g, i, Insert(l, k, p));
    assert h1.lists[i] == Insert(l, k, p) && h1.lists[i][k] == p;
    if need > MAX_FIXED { PlacedAgain(g, h1, l, need, p); }
  }

  lemma {:induction false} PlacedAgain(g: Heap, h1: Heap, l: seq<nat>, need: nat, p: nat)
    requires SizeAt(h1, p) == need && forall q: nat :: SizeAt(h1, q) == SizeAt(g, q)
    ensures Place(h1, Insert(l, Place(g, l, need), p), need) == Place(g, l, need)
  {
    var k := Place(g, l, need);
    var m := Insert(l, k, p);
    if k == 0 {
      assert m[0] == p;
    } else {
      PlacedAgain(g, h1, l[1..], need, p);
      assert m[0] == l[0] && m[1..] == Insert(l[1..], k - 1, p);
    }
  }
}
