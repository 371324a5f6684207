/** Splitting blocks, growing the heap, and the invariant of whole requests. */
module RmSplit {
  import opened RmHeap
  import opened RmInv

  /** The heap once used block `p` is cut at `r`. */
  function CutAt(h: Heap, p: nat, r: nat): Heap
    requires p in h.blocks && p + 16 <= r <= p + h.blocks[p].size
  {
    Cut(h, p, h.blocks[p].(size := r - HEADER - p), r, Block(p + h.blocks[p].size - r, false, false))
  }

  lemma CutGeo(h: Heap, p: nat, r: nat)
    requires Geo(h) && p in h.blocks && p + 16 <= r <= p + h.blocks[p].size - 8 && r % 8 == 0
    ensures Geo(CutAt(h, p, r)) && r !in h.blocks
  {
    var h' := CutAt(h, p, r);
    assert r in h.blocks ==> Apart(h, p, r);
    forall q: nat | q in h'.blocks ensures BlockOk(h', q) { CutBlock(h, p, r, q); }
    forall q: nat, a: nat | q in h'.blocks && a in h'.blocks ensures Apart(h', q, a) { CutApart(h, p, r, q, a); }
    CutLast(h, p, r);
  }

  lemma CutLast(h: Heap, p: nat, r: nat)
    requires Geo(h) && p in h.blocks && p + 16 <= r <= p + h.blocks[p].size - 8
    ensures var h' := CutAt(h, p, r); h'.last in h'.blocks && Next(h', h'.last) == h.brk + HEADER
  {
    assert BlockOk(h, p) && BlockOk(h, h.last) && Apart(h, p, h.last) && Apart(h, h.last, p);
  }

  lemma CutBlock(h: Heap, p: nat, r: nat, q: nat)
    requires Geo(h) && p in h.blocks && p + 16 <= r <= p + h.blocks[p].size - 8 && r % 8 == 0
    requires q in CutAt(h, p, r).blocks
    ensures BlockOk(CutAt(h, p, r), q)
  {
    assert BlockOk(h, p);
    Multiples(p, r, h.blocks[p].size);
    if q != r { assert BlockOk(h, q); }
  }

  lemma Multiples(p: nat, r: nat, size: nat)
    requires p % 8 == 0 && r % 8 == 0 && size % 8 == 0 && p + 16 <= r <= p + size - 8
    ensures (r - HEADER - p) % 8 == 0 && (p + size - r) % 8 == 0
  {
  }

  lemma CutApart(h: Heap, p: nat, r: nat, q: nat, a: nat)
    requires Geo(h) && p in h.blocks && p + 16 <= r <= p + h.blocks[p].size - 8
    requires q in CutAt(h, p, r).blocks && a in CutAt(h, p, r).blocks
    ensures Apart(CutAt(h, p, r), q, a)
  {
    assert BlockOk(h, p);
    assert q != r ==> Apart(h, q, p) && Apart(h, p, q) && BlockOk(h, q);
    assert a != r ==> Apart(h, p, a) && BlockOk(h, a);
    assert q != r && a != r ==> Apart(h, q, a);
  }

  lemma CutInv(h: Heap, p: nat, r: nat)
    requires Good(h) && UsedAt(h, p) && p + 16 <= r <= p + h.blocks[p].size - 8 && r % 8 == 0
    ensures var h' := CutAt(h, p, r); Good(h') && UsedAt(h', p) && UsedAt(h', r) && Next(h', p) == r && r !in h.blocks
    ensures NextNotFree(h, p) ==> NextNotFree(CutAt(h, p, r), r)
  {
    var h' := CutAt(h, p, r);
    CutGeo(h, p, r);
    assert BlockOk(h, p) && FlagsOk(h, p, 0, 0);
    forall q: nat | q in h'.blocks ensures FlagsOk(h', q, 0, 0) {
      assert q in h.blocks ==> FlagsOk(h, q, 0, 0) && BlockOk(h, q);
    }
    NoZero(h);
    SameListsOk(h, h', 0, 0);
  }

  // ---- split is a cut and a release ---------------------------------------------------------------

  lemma AnnounceTwice(h: Heap, p: nat, v: bool, w: bool)
    requires p in h.blocks
    ensures p in Announce(h, p, v).blocks && Announce(Announce(h, p, v), p, w) == Announce(h, p, w)
  {
  }

  /** Marking a free block again only announces it again. */
  lemma MarkAgain(h: Heap, p: nat)
    requires FreeAt(h, p)
    ensures MarkFree(h, p) == Announce(h, p, true)
  {
    assert h.blocks[p := h.blocks[p].(free := true)] == h.blocks;
  }

  /** The state of the block that is joined to `q` shows only in the flag after it. */
  lemma JoinMarked(h: Heap, q: nat, p: nat)
    requires FreeAt(h, q) && Before(h, q, p) && p in h.blocks && |h.lists| == LISTS && q < p
    ensures q in MarkFree(h, p).blocks
    ensures Join(OutList(MarkFree(h, p), q), q, p) == Announce(Join(OutList(h, q), q, p), q, true)
  {
    var h1, n := MarkFree(h, p), Next(h, p);
    assert OutList(h1, q) == h1.(lists := OutList(h, q).lists);
    var b := h.blocks[q].(size := h.blocks[q].size + HEADER + h.blocks[p].size);
    var rest := (h.blocks - {p})[q := b];
    assert (h1.blocks - {p})[q := b] == if n in h.blocks then rest[n := h.blocks[n].(pf := true)] else rest;
  }

  /** Joining backwards and marking may be done in either order. */
  lemma MarkThenJoin(h: Heap, p: nat)
    requires Good(h) && UsedAt(h, p)
    ensures Head(MarkFree(h, p), p) == Head(h, p)
    ensures JoinPrev(MarkFree(h, p), p) == MarkFree(JoinPrev(h, p), Head(h, p))
  {
    NotBackward(h, p);
    if Backward(h, p) {
      var q := PrevOf(h, p);
      assert Before(h, q, p) && BlockOk(h, q);
      SameHead(h, p);
      JoinMarked(h, q, p);
      var j := Join(OutList(h, q), q, p);
      AnnounceTwice(j, q, false, true);
      AnnounceTwice(j, q, true, true);
      MarkAgain(Announce(j, q, false), q);
    }
  }

  lemma SameHead(h: Heap, p: nat)
    requires Good(h) && p in h.blocks && Backward(h, p) && HasBefore(h, p)
    ensures var h1 := MarkFree(h, p); Backward(h1, p) && HasBefore(h1, p) && PrevOf(h1, p) == PrevOf(h, p)
  {
    var h1, q := MarkFree(h, p), PrevOf(h, p);
    assert SamePlaces(h, h1);
    SamePlacesGeo(h, h1);
    assert BlockOk(h, p) && Before(h1, q, p);
    PrevUnique(h1, p);
  }

  lemma RetireAlone(h: Heap, p: nat)
    requires p in h.blocks && |h.lists| == LISTS && !Backward(h, p)
    ensures Head(h, p) == p && Retire(h, p) == InList(MarkFree(h, p), p)
  {
  }

  /** Keeping the first bytes of a used block is a cut whose second half is released. */
  lemma SplitRightIsCut(h: Heap, p: nat, need: nat)
    requires UsedAt(h, p) && Splits(h, p, need) && need >= MIN_BLOCK
    ensures RightCut(h, p, need) == CutAt(h, p, p + need + HEADER)
  {
    var b, r := h.blocks[p], p + need + HEADER;
    assert p + b.size - r == b.size - need - HEADER && r - HEADER - p == need;
  }

  lemma ReleaseNextRetires(h: Heap, p: nat, join: bool)
    requires p in h.blocks && |h.lists| == LISTS && !Backward(h, p) && NextNotFree(h, p)
    ensures ReleaseNext(h, p, join) == Retire(h, p)
  {
    RetireAlone(h, p);
    MarkedNext(h, p);
  }

  lemma MarkedNext(h: Heap, p: nat)
    requires p in h.blocks && |h.lists| == LISTS && NextNotFree(h, p)
    ensures JoinNext(MarkFree(h, p), p) == MarkFree(h, p)
  {
  }

  lemma ReleasePrevRetires(h: Heap, p: nat, join: bool)
    requires Good(h) && UsedAt(h, p) && (join || !Backward(h, p))
    ensures ReleasePrev(h, p, join) == Retire(h, p)
  {
    if join { MarkThenJoin(h, p); } else { RetireAlone(h, p); }
  }

  lemma LeftPoint(p: nat, size: nat, need: nat)
    requires p % 8 == 0 && size % 8 == 0 && need % 8 == 0 && size > need + 16 && need >= MIN_BLOCK
    ensures (p + size - need) % 8 == 0 && p + 16 <= p + size - need <= p + size - 8
  {
  }

  /** Keeping the last bytes, from `r` on, is a cut whose first half is released. */
  lemma SplitLeftIsCut(h: Heap, p: nat, need: nat, r: nat)
    requires UsedAt(h, p) && Splits(h, p, need) && need >= MIN_BLOCK
    requires r == p + h.blocks[p].size - need && p + 16 <= r <= p + h.blocks[p].size - 8
    ensures LeftCut(h, p, need) == CutAt(h, p, r)
  {
    var b := h.blocks[p];
    assert p + b.size - r == need && r - HEADER - p == b.size - need - HEADER;
  }

  /** Where `Split` cuts `p`, and the part that it gives up. */
  function CutPoint(h: Heap, p: nat, need: nat): nat
    requires p in h.blocks && Splits(h, p, need)
  {
    if h.side then p + h.blocks[p].size - need else p + need + HEADER
  }

  function Rest(h: Heap, p: nat, need: nat): nat
    requires p in h.blocks && Splits(h, p, need)
  {
    if h.side then p else p + need + HEADER
  }

  lemma CutPointOk(h: Heap, p: nat, need: nat)
    requires Geo(h) && p in h.blocks && Splits(h, p, need) && need >= MIN_BLOCK && need % 8 == 0
    ensures var r := CutPoint(h, p, need); p + 16 <= r <= p + h.blocks[p].size - 8 && r % 8 == 0
  {
    assert BlockOk(h, p);
    LeftPoint(p, h.blocks[p].size, need);
  }

  /** Splitting a used block is cutting it and retiring the rest, on either side and in either mode. */
  lemma SplitIs(h: Heap, p: nat, need: nat, join: bool, r: nat, out: nat)
    requires Good(h) && UsedAt(h, p) && NextNotFree(h, p) && Splits(h, p, need) && need >= MIN_BLOCK && need % 8 == 0
    requires join || !h.side || !Backward(h, p)
    requires r == CutPoint(h, p, need) && out == Rest(h, p, need) && p + 16 <= r <= p + h.blocks[p].size - 8
        && r % 8 == 0
    ensures var h1 := CutAt(h, p, r);
            r !in h.blocks && Good(h1) && UsedAt(h1, out) && NextNotFree(h1, out)
                && Split(h, p, need, join) == Retire(h1, out).(side := !h.side)
  {
    CutInv(h, p, r);
    var h1 := CutAt(h, p, r);
    if h.side {
      SplitLeftIsCut(h, p, need, r);
      ReleasePrevRetires(h1, p, join);
    } else {
      SplitRightIsCut(h, p, need);
      ReleaseNextRetires(h1, r, join);
    }
  }

  lemma SplitInv(h: Heap, p: nat, need: nat, join: bool)
    requires Good(h) && UsedAt(h, p) && NextNotFree(h, p) && need >= MIN_BLOCK && need % 8 == 0
    requires join || !h.side || !Backward(h, p)
    ensures Good(Split(h, p, need, join))
  {
    if Splits(h, p, need) {
      CutPointOk(h, p, need);
      var r, out := CutPoint(h, p, need), Rest(h, p, need);
      SplitIs(h, p, need, join, r, out);
      RetireInv(CutAt(h, p, r), out);
      SideInv(Retire(CutAt(h, p, r), out), !h.side);
    }
  }

  lemma SideInv(h: Heap, side: bool)
    requires Good(h)
    ensures Good(h.(side := side))
  {
    var h' := h.(side := side);
    SamePlacesGeo(h, h');
    SameListsOk(h, h', 0, 0);
    forall q: nat | q in h'.blocks ensures FlagsOk(h', q, 0, 0) { assert FlagsOk(h, q, 0, 0); }
  }

  // ---- growing -----------------------------------------------------------------------------------

  lemma PagesFit(n: nat)
    requires n > 0
    ensures n <= Pages(n) < n + GROWSIZE && Pages(n) % GROWSIZE == 0 && Pages(n) % 8 == 0
  {
  }

  lemma GrowInv(h: Heap, need: nat)
    requires Good(h) && need >= MIN_BLOCK
    ensures var h', p := Grow(h, need), h.brk + HEADER;
            Good(h') && UsedAt(h', p) && NextNotFree(h', p) && h'.blocks[p].size >= need && p !in h.blocks
  {
    PagesFit(need + HEADER);
    GrowByInv(h, Pages(need + HEADER));
  }

  lemma GrowByInv(h: Heap, g: nat)
    requires Good(h) && g >= 16 && g % 8 == 0
    ensures var h', p := GrowBy(h, g), h.brk + HEADER;
            Good(h') && UsedAt(h', p) && NextNotFree(h', p) && p !in h.blocks
  {
    var h', p := GrowBy(h, g), h.brk + HEADER;
    GrowGeo(h, g);
    GrowFlags(h, g);
    SameListsOk(h, h', 0, 0);
    assert Next(h', p) in h.blocks ==> BlockOk(h, Next(h', p));
  }

  lemma GrowGeo(h: Heap, g: nat)
    requires Geo(h) && g >= 16 && g % 8 == 0
    ensures Geo(GrowBy(h, g)) && h.brk + HEADER !in h.blocks
  {
    var h', p := GrowBy(h, g), h.brk + HEADER;
    EndFree(h);
    GrowEnds(h, g, h', p);
    forall q: nat | q in h'.blocks ensures BlockOk(h', q) { GrowBlock(h, g, q); }
    forall q: nat, r: nat | q in h'.blocks && r in h'.blocks ensures Apart(h', q, r) { GrowApart(h, g, q, r); }
  }

  lemma GrowEnds(h: Heap, g: nat, h': Heap, p: nat)
    requires Geo(h) && g >= 16 && g % 8 == 0 && h' == GrowBy(h, g) && p == h.brk + HEADER && p !in h.blocks
    ensures FIRST in h'.blocks && h'.brk % 8 == 0 && h'.last in h'.blocks && Next(h', h'.last) == h'.brk + HEADER
  {
    SumAligned(h.brk, g);
  }

  lemma EndFree(h: Heap)
    requires Geo(h)
    ensures h.brk + HEADER !in h.blocks
  {
    assert h.brk + HEADER in h.blocks ==> BlockOk(h, h.brk + HEADER);
  }

  lemma SumAligned(a: nat, b: nat)
    requires a % 8 == 0 && b % 8 == 0
    ensures (a + b) % 8 == 0 && (a >= b ==> (a - b) % 8 == 0)
  {
  }

  lemma GrowBlock(h: Heap, g: nat, q: nat)
    requires Geo(h) && g >= 16 && g % 8 == 0 && q in GrowBy(h, g).blocks
    ensures BlockOk(GrowBy(h, g), q)
  {
    if q in h.blocks && q != h.brk + HEADER {
      assert BlockOk(h, q);
    } else {
      assert BlockOk(h, h.last) && BlockOk(h, FIRST);
      SumAligned(g, HEADER);
      SumAligned(h.brk, HEADER);
    }
  }

  lemma GrowFlags(h: Heap, g: nat)
    requires Good(h) && g >= 16 && h.brk + HEADER !in h.blocks && Geo(GrowBy(h, g))
    ensures Flags(GrowBy(h, g), 0, 0)
  {
    var h', p := GrowBy(h, g), h.brk + HEADER;
    forall q: nat | q in h'.blocks ensures FlagsOk(h', q, 0, 0) {
      assert BlockOk(h', q);
      if q in h.blocks { assert FlagsOk(h, q, 0, 0) && BlockOk(h, q) && Apart(h, q, h.last) && Apart(h, h.last, q); }
      if Next(h', q) in h.blocks { assert BlockOk(h, Next(h', q)); }
    }
    assert BlockOk(h, FIRST);
  }

  lemma GrowApart(h: Heap, g: nat, q: nat, r: nat)
    requires Geo(h) && g >= 16 && q in GrowBy(h, g).blocks && r in GrowBy(h, g).blocks
    ensures Apart(GrowBy(h, g), q, r)
  {
    assert q in h.blocks ==> BlockOk(h, q);
    assert r in h.blocks ==> BlockOk(h, r);
    assert q in h.blocks && r in h.blocks ==> Apart(h, q, r);
  }

  lemma ExtendInv(h: Heap, p: nat, g: nat)
    requires Good(h) && UsedAt(h, p) && p == h.last && g % 8 == 0
    ensures var h' := Extend(h, p, g); Good(h') && UsedAt(h', p) && NextNotFree(h', p)
  {
    var h' := Extend(h, p, g);
    ExtendGeo(h, p, g);
    forall q: nat | q in h'.blocks ensures FlagsOk(h', q, 0, 0) {
      assert FlagsOk(h, q, 0, 0) && BlockOk(h, q) && Apart(h', q, p) && BlockOk(h', q) && BlockOk(h', p);
      assert Next(h', p) in h.blocks ==> BlockOk(h, Next(h', p));
    }
    SameListsOk(h, h', 0, 0);
    assert Next(h', p) in h.blocks ==> BlockOk(h, Next(h', p));
  }

  lemma ExtendGeo(h: Heap, p: nat, g: nat)
    requires Geo(h) && p == h.last && g % 8 == 0
    ensures Geo(Extend(h, p, g))
  {
    var h' := Extend(h, p, g);
    ExtendEnds(h, p, g, h');
    forall q: nat | q in h'.blocks ensures BlockOk(h', q) { ExtendBlock(h, p, g, q); }
    forall q: nat, r: nat | q in h'.blocks && r in h'.blocks ensures Apart(h', q, r) { ExtendApart(h, p, g, q, r); }
  }

  lemma ExtendEnds(h: Heap, p: nat, g: nat, h': Heap)
    requires Geo(h) && p == h.last && g % 8 == 0 && h' == Extend(h, p, g)
    ensures h'.blocks.Keys == h.blocks.Keys && FIRST in h'.blocks && h'.brk % 8 == 0
    ensures h'.last in h'.blocks && Next(h', h'.last) == h'.brk + HEADER
  {
    SumAligned(h.brk, g);
  }

  lemma ExtendBlock(h: Heap, p: nat, g: nat, q: nat)
    requires Geo(h) && p == h.last && g % 8 == 0 && q in h.blocks
    ensures BlockOk(Extend(h, p, g), q)
  {
    assert BlockOk(h, q) && Apart(h, q, p) && Apart(h, p, q) && BlockOk(h, p);
    SumAligned(h.blocks[p].size, g);
  }

  lemma ExtendApart(h: Heap, p: nat, g: nat, q: nat, r: nat)
    requires Geo(h) && p == h.last && q in h.blocks && r in h.blocks
    ensures Apart(Extend(h, p, g), q, r)
  {
    assert Apart(h, q, r) && BlockOk(h, r);
  }
}
