/** Requests keep the invariant, and change the set of live blocks in exactly the way the client expects. */
module RmLive {
  import opened RmHeap
  import opened RmInv
  import opened RmSplit
  import opened RmTheorems

  // ---- handing out ---------------------------------------------------------------------------------

  /** In a good heap there is nothing left to do to hand out a block in use. */
  lemma HandUsed(h: Heap, p: nat)
    requires Good(h) && UsedAt(h, p)
    ensures Hand(h, p) == h
  {
    NoZero(h);
    assert FlagsOk(h, p, 0, 0) && BlockOk(h, p) && Apart(h, h.last, p);
    assert h.blocks[p := h.blocks[p].(free := false)] == h.blocks;
    var n := Next(h, p);
    if n in h.blocks {
      assert h.blocks[n].(pf := false) == h.blocks[n];
      assert h.blocks[n := h.blocks[n]] == h.blocks;
    }
    assert MarkUsed(h, p) == h;
  }

  // ---- marking before or after splitting -------------------------------------------------------------

  /** The blocks of `m`, with the one at `n`, if there is one, told whether the block before it is free. */
  function Told(m: map<nat, Block>, n: nat, free: bool): map<nat, Block> {
    if n in m then m[n := m[n].(pf := free)] else m
  }

  /** Blocks `m` with the state of `p` set and announced to `n`. */
  function Marked(m: map<nat, Block>, p: nat, n: nat, free: bool): map<nat, Block>
    requires p in m
  {
    Told(m[p := m[p].(free := free)], n, free)
  }

  lemma MarkedBlocks(h: Heap, p: nat)
    requires p in h.blocks
    ensures MarkUsed(h, p) == h.(blocks := Marked(h.blocks, p, Next(h, p), false))
    ensures MarkFree(h, p) == h.(blocks := Marked(h.blocks, p, Next(h, p), true))
  {
    var h1, h2 := SetBlock(h, p, h.blocks[p].(free := false)), SetBlock(h, p, h.blocks[p].(free := true));
    assert Next(h1, p) == Next(h, p) && Next(h2, p) == Next(h, p);
  }

  lemma {:induction false} SamePlace(h: Heap, h': Heap, l: seq<nat>, size: nat)
    requires forall q: nat :: SizeAt(h', q) == SizeAt(h, q)
    ensures Place(h', l, size) == Place(h, l, size)
  {
    if l != [] { SamePlace(h, h', l[1..], size); }
  }

  lemma ListedAlike(x: Heap, y: Heap, p: nat)
    requires |x.lists| == LISTS && y == x.(blocks := y.blocks) && forall q: nat :: SizeAt(y, q) == SizeAt(x, q)
    ensures InList(y, p) == InList(x, p).(blocks := y.blocks)
  {
    SamePlace(x, y, x.lists[ListOf(x, p)], SizeAt(x, p));
  }

  lemma MarkedSizes(h: Heap, g: Heap, p: nat)
    requires p in h.blocks && p in g.blocks && forall q: nat :: SizeAt(g, q) == SizeAt(h, q)
    ensures forall q: nat :: SizeAt(MarkFree(g, p), q) == SizeAt(MarkFree(h, p), q) == SizeAt(h, q)
  {
    forall q: nat ensures SizeAt(MarkFree(g, p), q) == SizeAt(MarkFree(h, p), q) == SizeAt(h, q) {
      assert SizeAt(g, q) == SizeAt(h, q);
    }
  }

  /** Two heaps that differ in flags only, and not once `p` is released and `a` handed out. */
  lemma ReleasedAlike(h: Heap, g: Heap, p: nat, n: nat, a: nat, na: nat)
    requires |h.lists| == LISTS && p in h.blocks && p in g.blocks && a in h.blocks && a in g.blocks
    requires g == h.(blocks := g.blocks) && forall q: nat :: SizeAt(g, q) == SizeAt(h, q)
    requires Next(h, p) == n && Next(h, a) == na
    requires Marked(Marked(h.blocks, p, n, true), a, na, false) == Marked(Marked(g.blocks, p, n, true), a, na, false)
    ensures Hand(InList(MarkFree(h, p), p), a) == Hand(InList(MarkFree(g, p), p), a)
  {
    assert SizeAt(g, p) == SizeAt(h, p);
    MarkedBlocks(h, p);
    MarkedBlocks(g, p);
    MarkedSizes(h, g, p);
    var x, y := MarkFree(h, p), MarkFree(g, p);
    ListedAlike(x, y, p);
    assert SizeAt(y, a) == SizeAt(x, a) && SizeAt(x, a) == SizeAt(h, a);
    HandedAlike(InList(x, p), InList(y, p), a, na);
  }

  lemma HandedAlike(x: Heap, y: Heap, a: nat, na: nat)
    requires a in x.blocks && a in y.blocks && y == x.(blocks := y.blocks) && Next(x, a) == na && Next(y, a) == na
    requires Marked(x.blocks, a, na, false) == Marked(y.blocks, a, na, false)
    ensures Hand(x, a) == Hand(y, a)
  {
    MarkedBlocks(x, a);
    MarkedBlocks(y, a);
  }

  /** The blocks of a right split of `p`, before or after it is marked as used. */
  lemma RightMaps(m: map<nat, Block>, p: nat, r: nat, n: nat, need: nat, c: Block, d: Block)
    requires p in m && p < r < n && d == c.(pf := d.pf)
    ensures var b, g := m[p], Marked(m, p, n, false);
            && p in g && g[p] == b.(free := false)
            && Marked(Marked(m[p := b.(size := need)][r := c], r, n, true), p, r, false)
            == Marked(Marked(g[p := g[p].(size := need)][r := d], r, n, true), p, r, false)
  {
  }

  /** The blocks of a left split. */
  lemma LeftMaps(m: map<nat, Block>, p: nat, r: nat, n: nat, size: nat, c: Block)
    requires p in m && p < r < n
    ensures var b, g := m[p], Marked(m, p, n, false);
            && p in g && g[p] == b.(free := false)
            && Marked(Marked(m[p := b.(size := size)][r := c], p, r, true), r, n, false)
            == Marked(Marked(g[p := g[p].(size := size)][r := c], p, r, true), r, n, false)
  {
  }

  lemma HandSide(h: Heap, a: nat, side: bool)
    ensures Hand(h.(side := side), a) == Hand(h, a).(side := side)
  {
    if a in h.blocks {
      MarkedBlocks(h, a);
      MarkedBlocks(h.(side := side), a);
    }
  }

  lemma RightMarked(h: Heap, p: nat, need: nat)
    requires FreeAt(h, p) && |h.lists| == LISTS && need >= MIN_BLOCK && Splits(h, p, need)
    ensures p in MarkUsed(h, p).blocks && Splits(MarkUsed(h, p), p, need)
    ensures Hand(SplitRight(h, p, need, false), p) == Hand(SplitRight(MarkUsed(h, p), p, need, false), p)
  {
    var b, r, n := h.blocks[p], p + need + HEADER, Next(h, p);
    MarkedBlocks(h, p);
    var g := MarkUsed(h, p);
    var c, d := Block(b.size - need - HEADER, false, p == h.last && b.free),
        Block(b.size - need - HEADER, false, false);
    RightMaps(h.blocks, p, r, n, need, c, d);
    RightCuts(h, g, p, need);
    ReleasedAlike(RightCut(h, p, need), RightCut(g, p, need), r, n, p, r);
    HandSide(ReleaseNext(RightCut(h, p, need), r, false), p, !h.side);
    HandSide(ReleaseNext(RightCut(g, p, need), r, false), p, !h.side);
  }

  lemma RightCuts(h: Heap, g: Heap, p: nat, need: nat)
    requires FreeAt(h, p) && Splits(h, p, need) && g == h.(blocks := Marked(h.blocks, p, Next(h, p), false))
    ensures p in g.blocks && g.blocks[p] == h.blocks[p].(free := false)
    ensures var b, r, x, y := h.blocks[p], p + need + HEADER, RightCut(h, p, need), RightCut(g, p, need);
            && x.blocks == h.blocks[p := b.(size := need)][r := Block(b.size - need - HEADER, false, p == h.last
                && b.free)]
            && y.blocks == g.blocks[p := g.blocks[p].(size := need)][r := Block(b.size - need - HEADER, false, false)]
            && y == x.(blocks := y.blocks) && Next(x, r) == Next(h, p) && Next(x, p) == r
            && forall q: nat :: SizeAt(y, q) == SizeAt(x, q)
  {
  }

  lemma LeftMarked(h: Heap, p: nat, need: nat)
    requires FreeAt(h, p) && |h.lists| == LISTS && need >= MIN_BLOCK && Splits(h, p, need)
    ensures p in MarkUsed(h, p).blocks && Splits(MarkUsed(h, p), p, need)
    ensures var r := p + h.blocks[p].size - need;
            Hand(SplitLeft(h, p, need, false), r) == Hand(SplitLeft(MarkUsed(h, p), p, need, false), r)
  {
    var b, r, n := h.blocks[p], p + h.blocks[p].size - need, Next(h, p);
    MarkedBlocks(h, p);
    var g := MarkUsed(h, p);
    LeftMaps(h.blocks, p, r, n, b.size - need - HEADER, Block(need, false, false));
    LeftCuts(h, g, p, need);
    ReleasedAlike(LeftCut(h, p, need), LeftCut(g, p, need), p, r, r, n);
    HandSide(ReleasePrev(LeftCut(h, p, need), p, false), r, !h.side);
    HandSide(ReleasePrev(LeftCut(g, p, need), p, false), r, !h.side);
  }

  lemma LeftCuts(h: Heap, g: Heap, p: nat, need: nat)
    requires FreeAt(h, p) && Splits(h, p, need) && g == h.(blocks := Marked(h.blocks, p, Next(h, p), false))
    ensures p in g.blocks && g.blocks[p] == h.blocks[p].(free := false)
    ensures var b, r, x, y := h.blocks[p], p + h.blocks[p].size - need, LeftCut(h, p, need), LeftCut(g, p, need);
            && x.blocks == h.blocks[p := b.(size := b.size - need - HEADER)][r := Block(need, false, false)]
            && y.blocks == g.blocks[p := g.blocks[p].(size := b.size - need - HEADER)][r := Block(need, false, false)]
            && y == x.(blocks := y.blocks) && Next(x, p) == r && Next(x, r) == Next(h, p)
            && forall q: nat :: SizeAt(y, q) == SizeAt(x, q)
  {
  }

  lemma MarkTwice(h: Heap, p: nat)
    requires p in h.blocks
    ensures var g := MarkUsed(h, p); p in g.blocks && g.blocks[p].size == h.blocks[p].size && Hand(g, p) == Hand(h, p)
  {
    MarkedBlocks(h, p);
    MarkedBlocks(MarkUsed(h, p), p);
  }

  /** Block `p` from a list may just as well be marked before it is split. */
  lemma MarkThenSplit(h: Heap, p: nat, need: nat, g: Heap, a: nat)
    requires FreeAt(h, p) && |h.lists| == LISTS && need >= MIN_BLOCK && g == MarkUsed(h, p) && a == Kept(h, p, need)
    ensures p in g.blocks && g.blocks[p].size == h.blocks[p].size && g.side == h.side
    ensures Hand(Split(h, p, need, false), a) == Hand(Split(g, p, need, false), a)
  {
    MarkTwice(h, p);
    if Splits(h, p, need) {
      if h.side { LeftMarked(h, p, need); } else { RightMarked(h, p, need); }
    }
  }

  // ---- live blocks -----------------------------------------------------------------------------------

  lemma AnnounceLive(h: Heap, p: nat, free: bool)
    requires p in h.blocks
    ensures Live(Announce(h, p, free)) == Live(h)
  {
  }

  lemma SetLive(h: Heap, p: nat, free: bool)
    requires p in h.blocks
    ensures var b := h.blocks[p];
            Live(SetBlock(h, p, b.(free := free))) == if free then Live(h) - {p} else Live(h)[p := b.size]
  {
  }

  lemma JoinPrevLive(h: Heap, p: nat)
    requires Good(h) && UsedAt(h, p)
    ensures var q := Head(h, p); Live(JoinPrev(h, p)) - {q} == Live(h) - {p}
  {
    NotBackward(h, p);
    if Backward(h, p) {
      var q := PrevOf(h, p);
      assert Before(h, q, p) && BlockOk(h, q);
      var j := Join(OutList(h, q), q, p);
      AnnounceLive(j, q, false);
    }
  }

  lemma RetireLive(h: Heap, p: nat)
    requires Good(h) && UsedAt(h, p)
    ensures Live(Retire(h, p)) == Live(h) - {p}
  {
    var h1, q := JoinPrev(h, p), Head(h, p);
    JoinPrevLive(h, p);
    SetLive(h1, q, true);
    AnnounceLive(SetBlock(h1, q, h1.blocks[q].(free := true)), q, true);
  }

  lemma JoinNextLive(h: Heap, p: nat)
    requires Good(h) && UsedAt(h, p)
    ensures var h' := JoinNext(h, p);
            p in h'.blocks && Live(h') == Live(h)[p := h'.blocks[p].size] && h'.blocks[p].size >= h.blocks[p].size
  {
    var n := Next(h, p);
    if FreeAt(h, n) {
      var j := Join(OutList(h, n), p, n);
      AnnounceLive(j, p, false);
    }
  }

  /** Freeing a block gives up that block and no other. */
  lemma FreeLive(h: Heap, p: nat)
    requires Good(h) && UsedAt(h, p)
    ensures Live(Free(h, p)) == Live(h) - {p}
  {
    JoinNextInv(h, p);
    JoinNextLive(h, p);
    RetireLive(JoinNext(h, p), p);
  }

  lemma CutLive(h: Heap, p: nat, r: nat)
    requires UsedAt(h, p) && p + 16 <= r <= p + h.blocks[p].size
    ensures Live(CutAt(h, p, r)) == Live(h)[p := r - HEADER - p][r := p + h.blocks[p].size - r]
  {
  }

  lemma LivePut(h: Heap, p: nat)
    requires UsedAt(h, p)
    ensures Live(h) == (Live(h) - {p})[p := h.blocks[p].size]
  {
  }

  lemma SideLive(h: Heap, side: bool)
    ensures Live(h.(side := side)) == Live(h)
  {
  }

  /** A used block is cut at `r`, and the part at `out` is retired. */
  lemma CutAndRetire(h: Heap, p: nat, r: nat, out: nat, need: nat, h1: Heap, h2: Heap)
    requires UsedAt(h, p) && p + 16 <= r <= p + h.blocks[p].size && r !in h.blocks && h1 == CutAt(h, p, r)
    requires (out == p && need == p + h.blocks[p].size - r) || (out == r && need == r - HEADER - p)
    requires Good(h1) && UsedAt(h1, out) && h2 == Retire(h1, out)
    ensures Live(h2) == (Live(h) - {p})[if out == p then r else p := need]
  {
    RetireLive(h1, out);
    CutLive(h, p, r);
    CutMaps(Live(h), p, r, r - HEADER - p, p + h.blocks[p].size - r);
  }

  lemma CutMaps(m: map<nat, nat>, p: nat, r: nat, x: nat, y: nat)
    requires p in m && r !in m
    ensures m[p := x][r := y] - {p} == (m - {p})[r := y] && m[p := x][r := y] - {r} == (m - {p})[p := x]
  {
  }

  /** Splitting a used block leaves the part that is kept in use. */
  lemma SplitLive(h: Heap, p: nat, need: nat, join: bool)
    requires Good(h) && UsedAt(h, p) && NextNotFree(h, p) && need >= MIN_BLOCK && need % 8 == 0
    requires join || !h.side || !Backward(h, p)
    ensures var size := if Splits(h, p, need) then need else h.blocks[p].size;
            Live(Split(h, p, need, join)) == (Live(h) - {p})[Kept(h, p, need) := size]
  {
    if Splits(h, p, need) {
      CutPointOk(h, p, need);
      var r, out := CutPoint(h, p, need), Rest(h, p, need);
      SplitIs(h, p, need, join, r, out);
      var h1 := CutAt(h, p, r);
      CutAndRetire(h, p, r, out, need, h1, Retire(h1, out));
      SideLive(Retire(h1, out), !h.side);
    } else {
      LivePut(h, p);
    }
  }

  lemma SplitUsed(h: Heap, p: nat, need: nat, join: bool)
    requires Good(h) && UsedAt(h, p) && NextNotFree(h, p) && need >= MIN_BLOCK && need % 8 == 0
    requires join || !h.side || !Backward(h, p)
    ensures UsedAt(Split(h, p, need, join), Kept(h, p, need))
  {
    SplitLive(h, p, need, join);
    assert Kept(h, p, need) in Live(Split(h, p, need, join));
  }

  // ---- requests keep the invariant -----------------------------------------------------------------

  /** The good heap in which the block that serves a request is already marked as used, before it is split. */
  function Served(h: Heap, need: nat): (Heap, nat, bool)
    requires |h.lists| == LISTS && need >= MIN_BLOCK
  {
    var (h1, p, grown) := Source(h, need);
    (if grown || p !in h1.blocks then h1 else MarkUsed(h1, p), p, grown)
  }

  lemma ServedInv(h: Heap, need: nat)
    requires Good(h) && need >= MIN_BLOCK && need % 8 == 0
    ensures var (g, p, grown) := Served(h, need);
            && Good(g) && UsedAt(g, p) && NextNotFree(g, p) && need <= g.blocks[p].size
            && (grown || !Backward(g, p)) && !UsedAt(h, p) && p in Source(h, need).0.blocks
  {
    match Search(h, need)
    case Nowhere => GrowInv(h, need);
    case At(i, k) =>
      var p := h.lists[i][k];
      TakeInv(h, i, k);
      SearchFits(h, need);
      TakenAlone(h, p);
      var h1 := Take(h, i, k);
      MarkUsedInv(h1, p, 0);
      MarkedBlocks(h1, p);
  }

  /** A free block has no free neighbours. */
  lemma TakenAlone(h: Heap, p: nat)
    requires Good(h) && FreeAt(h, p)
    ensures NextNotFree(h, p) && !Backward(h, p)
  {
    NoZero(h);
    assert FlagsOk(h, p, 0, 0);
    NotBackward(h, p);
    forall q: nat | Before(h, q, p) ensures !h.blocks[q].free { assert FlagsOk(h, q, 0, 0) && BlockOk(h, p); }
  }

  lemma RoundFits(size: nat)
    ensures Round(size) % 8 == 0 && MIN_BLOCK <= Round(size) && size <= Round(size) && Round(Round(size)) == Round(size)
  {
  }

  /** A request is served by splitting a used block of a good heap. */
  lemma MallocSplits(h: Heap, size: nat)
    requires Good(h)
    ensures var need := Round(size); var (g, p, grown) := Served(h, need);
            && Source(h, need).1 in Source(h, need).0.blocks && p in g.blocks && |g.lists| == LISTS
            && Good(Split(g, p, need, grown)) && UsedAt(Split(g, p, need, grown), Kept(g, p, need))
            && Malloc(h, size) == (Split(g, p, need, grown), Kept(g, p, need))
  {
    RoundFits(size);
    var need := Round(size);
    ServedInv(h, need);
    var (g, p, grown) := Served(h, need);
    SplitInv(g, p, need, grown);
    SplitUsed(g, p, need, grown);
    HandUsed(Split(g, p, need, grown), Kept(g, p, need));
    if !grown { MarkThenSplit(Source(h, need).0, p, need, g, Kept(g, p, need)); }
  }

  lemma ServedLive(h: Heap, need: nat)
    requires Good(h) && need >= MIN_BLOCK && need % 8 == 0
    ensures var (g, p, grown) := Served(h, need); Live(g) - {p} == Live(h) && g.blocks.Keys >= {p}
  {
    var (h1, p, grown) := Source(h, need);
    ServedInv(h, need);
    if !grown {
      SetLive(h1, p, false);
      AnnounceLive(SetBlock(h1, p, h1.blocks[p].(free := false)), p, false);
    }
  }

  /** The part of a block that is kept starts a block that was not there before, or is the block itself. */
  lemma KeptIsNew(h: Heap, p: nat, need: nat)
    requires Good(h) && UsedAt(h, p) && need >= MIN_BLOCK && need % 8 == 0 && need <= h.blocks[p].size
    ensures Kept(h, p, need) == p || Kept(h, p, need) !in h.blocks
  {
    if Splits(h, p, need) && h.side {
      CutPointOk(h, p, need);
      CutInv(h, p, CutPoint(h, p, need));
    }
  }

  /** What is left in use of a block that is split. */
  lemma KeptMeans(g: Heap, p: nat, need: nat, join: bool, h': Heap, a: nat)
    requires Good(g) && UsedAt(g, p) && NextNotFree(g, p) && MIN_BLOCK <= need <= g.blocks[p].size && need % 8 == 0
    requires join || !g.side || !Backward(g, p)
    requires h' == Split(g, p, need, join) && a == Kept(g, p, need)
    ensures Good(h') && UsedAt(h', a) && need <= h'.blocks[a].size
        && Live(h') == (Live(g) - {p})[a := h'.blocks[a].size]
  {
    SplitInv(g, p, need, join);
    SplitLive(g, p, need, join);
    assert a in Live(h') && Live(h')[a] == h'.blocks[a].size;
  }

  lemma ServeMeans(h: Heap, g: Heap, p: nat, need: nat, grown: bool, h': Heap, a: nat)
    requires Good(g) && UsedAt(g, p) && NextNotFree(g, p) && MIN_BLOCK <= need <= g.blocks[p].size && need % 8 == 0
    requires grown || !g.side || !Backward(g, p)
    requires Live(g) - {p} == Live(h) && p !in Live(h)
    requires h' == Split(g, p, need, grown) && a == Kept(g, p, need) && Good(h')
    ensures UsedAt(h', a) && a !in Live(h) && need <= h'.blocks[a].size && Live(h') == Live(h)[a := h'.blocks[a].size]
  {
    KeptIsNew(g, p, need);
    KeptMeans(g, p, need, grown, h', a);
    assert a != p ==> a !in Live(g);
  }

  /** A request adds one live block, which is large enough, and touches no other. */
  lemma MallocMeans(h: Heap, size: nat)
    requires Good(h)
    ensures var need := Round(size);
            Source(h, need).1 in Source(h, need).0.blocks
            && var (h', a) := Malloc(h, size);
               && Good(h') && UsedAt(h', a) && !UsedAt(h, a) && a % 8 == 0
               && h'.blocks[a].size >= need >= size
               && Live(h') == Live(h)[a := h'.blocks[a].size]
  {
    RoundFits(size);
    var need := Round(size);
    ServedInv(h, need);
    ServedLive(h, need);
    var (g, p, grown) := Served(h, need);
    MallocSplits(h, size);
    var (h', a) := Malloc(h, size);
    ServeMeans(h, g, p, need, grown, h', a);
    assert BlockOk(h', a);
  }
}
