/** What the allocator promises: the invariant over every run, which blocks are live, and best fit. */
module RmTheorems {
  import opened RmHeap
  import opened RmInv

  // ---- best fit ----------------------------------------------------------------------------------

  /** Block `p` is free, fits, and no smaller free block fits. */
  ghost predicate BestFit(h: Heap, p: nat, need: nat) {
    && FreeAt(h, p) && need <= SizeAt(h, p)
    && forall q: nat :: FreeAt(h, q) && need <= SizeAt(h, q) ==> SizeAt(h, p) <= SizeAt(h, q)
  }

  /** The segregated lists are searched as if all free blocks were looked at: the block found is a smallest
      one that fits, and none is found only if none fits. */
  lemma SearchIsBestFit(h: Heap, need: nat)
    requires Good(h) && need >= MIN_BLOCK && need % 8 == 0
    ensures match Search(h, need)
            case At(i, k) => BestFit(h, h.lists[i][k], need)
            case Nowhere => forall q: nat :: FreeAt(h, q) ==> SizeAt(h, q) < need
  {
    NoZero(h);
    var at := Search(h, need);
    forall q: nat | FreeAt(h, q) && need <= SizeAt(h, q)
      ensures at.At? && SizeAt(h, h.lists[at.i][at.k]) <= SizeAt(h, q)
    { SearchBeats(h, need, q); }
    if at.At? { SearchFits(h, need); }
  }

  lemma NextSpotFirst(h: Heap, i: nat)
    requires |h.lists| == LISTS
    ensures forall j: nat :: i <= j < LISTS && h.lists[j] != [] ==> NextSpot(h, i).At? && NextSpot(h, i).i <= j
    ensures NextSpot(h, i).At? ==> NextSpot(h, i).k == 0
    decreases LISTS - i
  {
    if i < LISTS && h.lists[i] == [] { NextSpotFirst(h, i + 1); }
  }

  /** A listed block has at least the size its list is for. */
  lemma EntrySize(h: Heap, i: nat, k: nat)
    requires Good(h) && i < LISTS && k < |h.lists[i]|
    ensures var p := h.lists[i][k];
        FreeAt(h, p) && SizeAt(h, p) >= MIN_BLOCK && SizeAt(h, p) % 8 == 0 && Index(SizeAt(h, p)) == i
  {
    var p := h.lists[i][k];
    assert ListOk(h, i, 0) && p in h.lists[i] && EntryOk(h, i, p, 0) && BlockOk(h, p);
  }

  lemma SearchFits(h: Heap, need: nat)
    requires Good(h) && need >= MIN_BLOCK && need % 8 == 0 && Search(h, need).At?
    ensures var at := Search(h, need); FreeAt(h, h.lists[at.i][at.k]) && need <= SizeAt(h, h.lists[at.i][at.k])
  {
    var at, i := Search(h, need), Index(need);
    EntrySize(h, at.i, at.k);
    var s := SizeAt(h, h.lists[at.i][at.k]);
    if s < need { IndexOrdered(s, need); }
    IndexOrdered(need, need);
    if at.i == i && need > MAX_FIXED {
      assert ListOk(h, i, 0);
      PlaceSplits(h, h.lists[i], need);
    }
  }

  lemma SearchBeats(h: Heap, need: nat, q: nat)
    requires Good(h) && need >= MIN_BLOCK && need % 8 == 0 && FreeAt(h, q) && need <= SizeAt(h, q)
    ensures Search(h, need).At? && SizeAt(h, h.lists[Search(h, need).i][Search(h, need).k]) <= SizeAt(h, q)
  {
    NoZero(h);
    var at, i, j, sq := Search(h, need), Index(need), ListOf(h, q), SizeAt(h, q);
    assert q in h.lists[j] && BlockOk(h, q) && ListOk(h, j, 0) && ListOk(h, i, 0);
    var m: nat :| m < |h.lists[j]| && h.lists[j][m] == q;
    IndexOrdered(need, sq);
    IndexOrdered(need, need);
    NextSpotFirst(h, i + 1);
    if need > MAX_FIXED { PlaceSplits(h, h.lists[i], need); }
    assert at.At? && at.i <= j;
    EntrySize(h, at.i, at.k);
    var s := SizeAt(h, h.lists[at.i][at.k]);
    if s > sq {
      IndexOrdered(sq, s);
      assert at.i == j;
    }
  }
}
