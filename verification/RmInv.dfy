/** The invariant of the heap, and why every step of the allocator keeps it. */
module RmInv {
  import opened RmHeap

  /** Block `p` is aligned, and is followed by a block or by the end of the heap. */
  predicate BlockOk(h: Heap, p: nat)
    requires p in h.blocks
  {
    && p % 8 == 0 && FIRST <= p && h.blocks[p].size % 8 == 0 && MIN_BLOCK <= h.blocks[p].size
    && Next(h, p) <= h.brk + HEADER
    && (Next(h, p) in h.blocks || Next(h, p) == h.brk + HEADER)
  }

  predicate Apart(h: Heap, p: nat, q: nat)
    requires p in h.blocks && q in h.blocks
  {
    p < q ==> Next(h, p) <= q
  }

  /** The blocks tile the heap, and `last` is the last one. */
  ghost predicate Geo(h: Heap) {
    && FIRST in h.blocks && h.brk % 8 == 0
    && (forall p: nat {:trigger BlockOk(h, p)} :: p in h.blocks ==> BlockOk(h, p))
    && (forall p: nat, q: nat {:trigger Apart(h, p, q)} :: p in h.blocks && q in h.blocks ==> Apart(h, p, q))
    && h.last in h.blocks && Next(h, h.last) == h.brk + HEADER
  }

  /** No free block is followed by another, except that `y` may be; the block after `p` knows whether `p`
      is free, except for the one after `x`. */
  predicate FlagsOk(h: Heap, p: nat, x: nat, y: nat)
    requires p in h.blocks
  {
    var n := Next(h, p);
    n in h.blocks ==>
      && (h.blocks[p].free && h.blocks[n].free ==> n == y)
      && (p != x ==> h.blocks[n].pf == h.blocks[p].free)
  }

  ghost predicate Flags(h: Heap, x: nat, y: nat) {
    && (forall p: nat {:trigger FlagsOk(h, p, x, y)} :: p in h.blocks ==> FlagsOk(h, p, x, y))
    && (FIRST in h.blocks ==> !h.blocks[FIRST].pf)
  }

  predicate EntryOk(h: Heap, i: nat, p: nat, x: nat) { p != x && FreeAt(h, p) && ListOf(h, p) == i }

  predicate NoTwice(l: seq<nat>) { forall j: nat, k: nat :: j < k < |l| ==> l[j] != l[k] }

  predicate Ascending(h: Heap, l: seq<nat>) {
    forall j: nat, k: nat :: j < k < |l| ==> SizeAt(h, l[j]) <= SizeAt(h, l[k])
  }

  ghost predicate ListOk(h: Heap, i: nat, x: nat)
    requires i < |h.lists|
  {
    && (forall p: nat :: p in h.lists[i] ==> EntryOk(h, i, p, x))
    && NoTwice(h.lists[i])
    && (i >= 64 ==> Ascending(h, h.lists[i]))
  }

  /** Every free block but `x` is in the list its size belongs to, once, and nothing else is in a list.
      The lists of large blocks are sorted. */
  ghost predicate Lists(h: Heap, x: nat) {
    && |h.lists| == LISTS
    && (forall i: nat :: i < LISTS ==> ListOk(h, i, x))
    && (forall p: nat :: FreeAt(h, p) && p != x ==> p in h.lists[ListOf(h, p)])
  }

  /** `x` is the block in hand, which is in no list; `y` may be a second free block in a row. */
  ghost predicate Inv(h: Heap, x: nat, y: nat) { Geo(h) && Flags(h, x, y) && Lists(h, x) }

  ghost predicate Good(h: Heap) { Inv(h, 0, 0) }

  // ---- neighbours ------------------------------------------------------------------------------

  predicate NextNotFree(h: Heap, p: nat)
    requires p in h.blocks
  {
    !FreeAt(h, Next(h, p))
  }

  ghost predicate PrevNotFree(h: Heap, p: nat) { forall q: nat :: Before(h, q, p) ==> !h.blocks[q].free }

  /** Every block but the first has a block before it. */
  lemma PrevExists(h: Heap, p: nat)
    requires Geo(h) && p in h.blocks && p != FIRST
    ensures HasBefore(h, p)
  {
    assert BlockOk(h, p);
    PrevFrom(h, p, FIRST);
  }

  lemma {:induction false} PrevFrom(h: Heap, p: nat, q: nat)
    requires Geo(h) && p in h.blocks && q in h.blocks && q < p
    ensures HasBefore(h, p)
    decreases p - q
  {
    assert BlockOk(h, q) && BlockOk(h, p) && Apart(h, q, p);
    if Next(h, q) == p { assert Before(h, q, p); } else { PrevFrom(h, p, Next(h, q)); }
  }

  lemma PrevUnique(h: Heap, p: nat)
    requires Geo(h)
    ensures forall q: nat, r: nat :: Before(h, q, p) && Before(h, r, p) ==> q == r
  {
    forall q: nat, r: nat | Before(h, q, p) && Before(h, r, p) ensures q == r {
      assert Apart(h, q, r) && Apart(h, r, q) && BlockOk(h, q) && BlockOk(h, r);
    }
  }

  // ---- flags -----------------------------------------------------------------------------------

  /** The blocks are where they were. */
  ghost predicate SamePlaces(h: Heap, h': Heap) {
    && h'.blocks.Keys == h.blocks.Keys && h'.brk == h.brk && h'.last == h.last
    && (forall p: nat :: p in h.blocks ==> h'.blocks[p].size == h.blocks[p].size)
  }

  lemma SamePlacesGeo(h: Heap, h': Heap)
    requires SamePlaces(h, h') && Geo(h)
    ensures Geo(h')
  {
    forall p: nat | p in h'.blocks ensures BlockOk(h', p) { assert BlockOk(h, p); }
    forall p: nat, q: nat | p in h'.blocks && q in h'.blocks ensures Apart(h', p, q) { assert Apart(h, p, q); }
  }

  /** The lists depend on sizes and on which blocks are free. */
  lemma SameListsOk(h: Heap, h': Heap, x: nat, x': nat)
    requires Lists(h, x) && h'.lists == h.lists && (x' == 0 || x' == x)
    requires forall p: nat :: FreeAt(h, p) && p != x ==> p != x' && FreeAt(h', p) && SizeAt(h', p) == SizeAt(h, p)
    requires forall p: nat :: FreeAt(h', p) && p != x' ==> p != x && FreeAt(h, p)
    ensures Lists(h', x')
  {
    forall i: nat | i < LISTS ensures ListOk(h', i, x') {
      assert ListOk(h, i, x);
      forall p: nat | p in h'.lists[i] ensures EntryOk(h', i, p, x') && SizeAt(h', p) == SizeAt(h, p) {
        assert EntryOk(h, i, p, x);
      }
    }
  }

  /** Announcing makes the flag after `p` right. */
  lemma AnnounceInv(h: Heap, p: nat, x: nat, y: nat)
    requires Geo(h) && Flags(h, p, y) && Lists(h, x) && p in h.blocks
    ensures var h' := Announce(h, p, h.blocks[p].free);
            Inv(h', x, y) && Flags(h', 0, y) && SamePlaces(h, h') && h'.lists == h.lists
            && forall q: nat :: FreeAt(h', q) <==> FreeAt(h, q)
  {
    var h' := Announce(h, p, h.blocks[p].free);
    SamePlacesGeo(h, h');
    SameListsOk(h, h', x, x);
    assert BlockOk(h, p);
    forall q: nat | q in h'.blocks ensures FlagsOk(h', q, 0, y) {
      assert FlagsOk(h, q, p, y) && BlockOk(h, q);
      PrevUnique(h, Next(h, p));
      assert q != p ==> !Before(h, q, Next(h, p)) by { assert Before(h, p, Next(h, p)); }
    }
    FlagsSettled(h', x, y);
  }

  lemma FlagsSettled(h: Heap, x: nat, y: nat)
    requires Geo(h) && Flags(h, 0, y)
    ensures Flags(h, x, y)
  {
    NoZero(h);
    forall p: nat | p in h.blocks ensures FlagsOk(h, p, x, y) { assert FlagsOk(h, p, 0, y); }
  }

  lemma FlagsWeaken(h: Heap, x: nat, y: nat)
    requires Flags(h, x, 0) && Geo(h)
    ensures Flags(h, x, y)
  {
    NoZero(h);
    forall p: nat | p in h.blocks ensures FlagsOk(h, p, x, y) { assert FlagsOk(h, p, x, 0); }
  }

  /** Changing the state of `p` leaves the flag after it to be put right. */
  lemma SetStateFlags(h: Heap, p: nat, free: bool, y: nat)
    requires Geo(h) && Flags(h, p, y) && p in h.blocks
    requires free ==> h.blocks[p].free || (NextNotFree(h, p) && (y == p || PrevNotFree(h, p)))
    ensures var h' := SetBlock(h, p, h.blocks[p].(free := free));
            Geo(h') && Flags(h', p, y) && SamePlaces(h, h')
  {
    var h' := SetBlock(h, p, h.blocks[p].(free := free));
    SamePlacesGeo(h, h');
    forall q: nat | q in h'.blocks ensures FlagsOk(h', q, p, y) {
      assert FlagsOk(h, q, p, y) && BlockOk(h, q);
      assert Next(h, q) == p ==> Before(h, q, p);
    }
  }

  lemma MarkFreeInv(h: Heap, p: nat, y: nat)
    requires Inv(h, p, y) && p in h.blocks
    requires h.blocks[p].free || (NextNotFree(h, p) && (y == p || PrevNotFree(h, p)))
    ensures var h' := MarkFree(h, p);
            Inv(h', p, y) && Flags(h', 0, y) && SamePlaces(h, h') && h'.lists == h.lists
            && forall q: nat :: FreeAt(h', q) <==> FreeAt(h, q) || q == p
  {
    var h1 := SetBlock(h, p, h.blocks[p].(free := true));
    SetStateFlags(h, p, true, y);
    SameListsOk(h, h1, p, p);
    AnnounceInv(h1, p, p, y);
  }

  /** A free block in hand becomes a used one. */
  lemma MarkUsedInv(h: Heap, p: nat, y: nat)
    requires Inv(h, p, y) && p in h.blocks && (y == 0 || y == Next(h, p))
    ensures var h' := MarkUsed(h, p);
            Good(h') && SamePlaces(h, h') && h'.lists == h.lists
            && forall q: nat :: FreeAt(h', q) <==> FreeAt(h, q) && q != p
  {
    var h1 := SetBlock(h, p, h.blocks[p].(free := false));
    SetStateFlags(h, p, false, y);
    NoZero(h);
    SameListsOk(h, h1, p, 0);
    assert Flags(h1, p, 0) by {
      forall q: nat | q in h1.blocks ensures FlagsOk(h1, q, p, 0) {
        assert FlagsOk(h1, q, p, y);
        if y != 0 && Next(h1, q) == y && q != p {
          PrevUnique(h, y);
          assert Before(h, q, y) && Before(h, p, y);
        }
      }
    }
    AnnounceInv(h1, p, 0, 0);
  }

  lemma NoZero(h: Heap)
    requires Geo(h)
    ensures 0 !in h.blocks
  {
    assert 0 in h.blocks ==> BlockOk(h, 0);
  }

  // ---- lists -----------------------------------------------------------------------------------

  lemma DeleteOk(l: seq<nat>, k: nat)
    requires k < |l| && NoTwice(l)
    ensures NoTwice(Delete(l, k)) && forall p: nat :: p in Delete(l, k) <==> p in l && p != l[k]
  {
    var d := Delete(l, k);
    forall p: nat | p in l && p != l[k] ensures p in d {
      var j :| 0 <= j < |l| && l[j] == p;
      assert d[if j < k then j else j - 1] == p;
    }
  }

  lemma TakeInv(h: Heap, i: nat, k: nat)
    requires Good(h) && i < LISTS && k < |h.lists[i]|
    ensures var p := h.lists[i][k]; Inv(Take(h, i, k), p, 0) && FreeAt(h, p) && ListOf(h, p) == i
  {
    var h', p := Take(h, i, k), h.lists[i][k];
    NoZero(h);
    assert ListOk(h, i, 0) && p in h.lists[i] && EntryOk(h, i, p, 0);
    DeleteOk(h.lists[i], k);
    SamePlacesGeo(h, h');
    forall j: nat | j < LISTS ensures ListOk(h', j, p) {
      assert ListOk(h, j, 0);
      forall q: nat | q in h'.lists[j] ensures EntryOk(h', j, q, p) { assert EntryOk(h, j, q, 0); }
    }
    forall q: nat | FreeAt(h', q) && q != p ensures q in h'.lists[ListOf(h', q)] {
      assert ListOf(h', q) == ListOf(h, q) && FreeAt(h, q);
      assert q in h.lists[ListOf(h, q)];
    }
    forall q: nat | q in h.blocks ensures FlagsOk(h', q, p, 0) { assert FlagsOk(h, q, 0, 0); }
  }

  lemma OutListInv(h: Heap, p: nat)
    requires Good(h) && FreeAt(h, p)
    ensures Inv(OutList(h, p), p, 0) && OutList(h, p).blocks == h.blocks
  {
    NoZero(h);
    assert p in h.lists[ListOf(h, p)];
    TakeInv(h, ListOf(h, p), Find(h.lists[ListOf(h, p)], p));
  }

  /** The place of a size splits a sorted list. */
  lemma {:induction false} PlaceSplits(h: Heap, l: seq<nat>, size: nat)
    requires Ascending(h, l)
    ensures forall j: nat :: j < Place(h, l, size) ==> SizeAt(h, l[j]) < size
    ensures forall j: nat :: Place(h, l, size) <= j < |l| ==> size <= SizeAt(h, l[j])
  {
    if l != [] && SizeAt(h, l[0]) < size {
      forall j: nat, k: nat | j < k < |l[1..]| ensures SizeAt(h, l[1..][j]) <= SizeAt(h, l[1..][k]) {
        assert SizeAt(h, l[j + 1]) <= SizeAt(h, l[k + 1]);
      }
      PlaceSplits(h, l[1..], size);
      var k := Place(h, l[1..], size);
      forall j: nat | j < 1 + k ensures SizeAt(h, l[j]) < size { assert j > 0 ==> l[j] == l[1..][j - 1]; }
      forall j: nat | 1 + k <= j < |l| ensures size <= SizeAt(h, l[j]) { assert l[j] == l[1..][j - 1]; }
    }
  }

  lemma InsertOk(h: Heap, l: seq<nat>, k: nat, p: nat)
    requires k <= |l| && NoTwice(l) && p !in l
    ensures NoTwice(Insert(l, k, p)) && forall q: nat :: q in Insert(l, k, p) <==> q in l || q == p
    ensures (&& (forall j: nat :: j < k ==> SizeAt(h, l[j]) <= SizeAt(h, p))
             && (forall j: nat :: k <= j < |l| ==> SizeAt(h, p) <= SizeAt(h, l[j]))
             && Ascending(h, l)) ==> Ascending(h, Insert(l, k, p))
  {
    var d := Insert(l, k, p);
    assert d[k] == p;
    forall q: nat | q in l ensures q in d {
      var j :| 0 <= j < |l| && l[j] == q;
      assert d[if j < k then j else j + 1] == q;
    }
  }

  lemma InListInv(h: Heap, p: nat)
    requires Inv(h, p, 0) && Flags(h, 0, 0) && FreeAt(h, p)
    ensures Good(InList(h, p)) && InList(h, p).blocks == h.blocks
  {
    var h', i := InList(h, p), ListOf(h, p);
    var l := h.lists[i];
    var k := if SizeAt(h, p) <= MAX_FIXED then 0 else Place(h, l, SizeAt(h, p));
    NoZero(h);
    assert BlockOk(h, p) && ListOk(h, i, p);
    assert p in l ==> EntryOk(h, i, p, p);
    IndexOrdered(SizeAt(h, p), SizeAt(h, p));
    if i >= 64 { PlaceSplits(h, l, SizeAt(h, p)); }
    InsertOk(h, l, k, p);
    SamePlacesGeo(h, h');
    forall j: nat | j < LISTS ensures ListOk(h', j, 0) {
      assert ListOk(h, j, p);
      forall q: nat | q in h'.lists[j] ensures EntryOk(h', j, q, 0) { assert q != p ==> EntryOk(h, j, q, p); }
    }
    forall q: nat | FreeAt(h', q) ensures q in h'.lists[ListOf(h', q)] {
      assert ListOf(h', q) == ListOf(h, q);
      assert q != p ==> FreeAt(h, q) && q in h.lists[ListOf(h, q)];
    }
    forall q: nat | q in h.blocks ensures FlagsOk(h', q, 0, 0) { assert FlagsOk(h, q, 0, 0); }
  }

  // ---- joining neighbours ----------------------------------------------------------------------

  lemma JoinGeo(h: Heap, p: nat, n: nat)
    requires Geo(h) && Before(h, p, n) && n in h.blocks
    ensures Geo(Join(h, p, n)) && Next(Join(h, p, n), p) == Next(h, n) && p != n
  {
    var h' := Join(h, p, n);
    assert BlockOk(h, p) && BlockOk(h, n);
    forall q: nat | q in h'.blocks ensures BlockOk(h', q) {
      assert BlockOk(h, q);
      PrevUnique(h, n);
      assert Before(h, q, n) <==> q == p;
    }
    forall q: nat, r: nat | q in h'.blocks && r in h'.blocks ensures Apart(h', q, r) { JoinApart(h, p, n, q, r); }
    JoinLast(h, p, n);
  }

  lemma JoinApart(h: Heap, p: nat, n: nat, q: nat, r: nat)
    requires Geo(h) && Before(h, p, n) && n in h.blocks && q in h.blocks && r in h.blocks && q != n && r != n && p != n
    ensures Apart(Join(h, p, n), q, r)
  {
    assert Apart(h, q, r) && Apart(h, p, r) && Apart(h, n, r) && Apart(h, r, n) && BlockOk(h, r) && BlockOk(h, n);
  }

  lemma JoinLast(h: Heap, p: nat, n: nat)
    requires Geo(h) && Before(h, p, n) && n in h.blocks
    ensures var h' := Join(h, p, n); h'.last in h'.blocks && Next(h', h'.last) == h.brk + HEADER
  {
    assert BlockOk(h, p) && BlockOk(h, n) && BlockOk(h, h.last) && Apart(h, h.last, n) && Apart(h, n, h.last);
  }

  /** Joining two blocks, of which the free ones are in hand, leaves the flag after them to be announced. */
  lemma JoinInv(h: Heap, p: nat, n: nat, y: nat)
    requires Geo(h) && Flags(h, y, n) && Before(h, p, n) && n in h.blocks
    requires y == p || y == n
    requires h.blocks[p].free ==> NextNotFree(h, n) && PrevNotFree(h, p)
    ensures Geo(Join(h, p, n)) && Flags(Join(h, p, n), p, 0)
  {
    JoinGeo(h, p, n);
    var h' := Join(h, p, n);
    assert BlockOk(h, p) && BlockOk(h, n);
    assert FlagsOk(h, p, y, n) && FlagsOk(h, n, y, n);
    forall q: nat | q in h'.blocks ensures FlagsOk(h', q, p, 0) {
      assert FlagsOk(h, q, y, n) && BlockOk(h, q);
      PrevUnique(h, n);
      assert Before(h, q, n) <==> q == p;
      assert Next(h, q) == p ==> Before(h, q, p);
    }
  }

  /** Without the free block `n`, which is in no list. */
  lemma JoinLists(h: Heap, p: nat, n: nat, x: nat)
    requires Geo(h) && p in h.blocks && n in h.blocks && p != n && Lists(h, x)
    requires if h.blocks[p].free then x == p && !h.blocks[n].free else x == n
    ensures Lists(Join(h, p, n), if h.blocks[p].free then p else 0)
  {
    NoZero(h);
    var h' := Join(h, p, n);
    var x' := if h.blocks[p].free then p else 0;
    forall i: nat | i < LISTS ensures ListOk(h', i, x') {
      assert ListOk(h, i, x);
      forall q: nat | q in h'.lists[i] ensures EntryOk(h', i, q, x') && SizeAt(h', q) == SizeAt(h, q) {
        assert EntryOk(h, i, q, x);
      }
    }
    forall q: nat | FreeAt(h', q) && q != x' ensures q in h'.lists[ListOf(h', q)] {
      assert FreeAt(h, q) && q != x && ListOf(h', q) == ListOf(h, q);
    }
  }

  /** Joining a used block with the one after it. */
  lemma JoinNextInv(h: Heap, p: nat)
    requires Good(h) && UsedAt(h, p)
    ensures var h' := JoinNext(h, p);
            Good(h') && UsedAt(h', p) && NextNotFree(h', p) && h'.blocks[p].pf == h.blocks[p].pf
  {
    var n := Next(h, p);
    if FreeAt(h, n) {
      assert FlagsOk(h, n, 0, 0);
      OutListInv(h, n);
      var h1 := OutList(h, n);
      FlagsWeaken(h1, n, n);
      JoinInv(h1, p, n, n);
      JoinLists(h1, p, n, n);
      AnnounceInv(Join(h1, p, n), p, 0, 0);
    }
  }

  lemma NotBackward(h: Heap, p: nat)
    requires Good(h) && p in h.blocks
    ensures !Backward(h, p) ==> PrevNotFree(h, p)
    ensures Backward(h, p) ==> HasBefore(h, p) && FreeAt(h, PrevOf(h, p))
  {
    NoZero(h);
    if Backward(h, p) { PrevExists(h, p); }
    forall q: nat | Before(h, q, p) ensures h.blocks[q].free == Backward(h, p) {
      assert FlagsOk(h, q, 0, 0) && BlockOk(h, q);
    }
  }

  /** Joining a used block with the one before it, which leaves the result in hand. */
  lemma JoinPrevInv(h: Heap, p: nat)
    requires Good(h) && UsedAt(h, p) && NextNotFree(h, p)
    ensures var h', q := JoinPrev(h, p), Head(h, p);
            Inv(h', q, 0) && q in h'.blocks && (h'.blocks[q].free || (NextNotFree(h', q) && PrevNotFree(h', q)))
  {
    NoZero(h);
    NotBackward(h, p);
    if Backward(h, p) {
      var q := PrevOf(h, p);
      assert Before(h, q, p) && BlockOk(h, q);
      OutListInv(h, q);
      var h1 := OutList(h, q);
      FlagsWeaken(h1, q, p);
      forall a: nat | Before(h1, a, q) ensures !h1.blocks[a].free { assert FlagsOk(h, a, 0, 0); }
      JoinInv(h1, q, p, q);
      JoinLists(h1, q, p, q);
      AnnounceUsed(Join(h1, q, p), q);
    } else {
      forall a: nat | a in h.blocks ensures FlagsOk(h, a, p, 0) { assert FlagsOk(h, a, 0, 0); }
      forall i: nat | i < LISTS ensures ListOk(h, i, p) {
        assert ListOk(h, i, 0);
        forall a: nat | a in h.lists[i] ensures EntryOk(h, i, a, p) { assert EntryOk(h, i, a, 0); }
      }
    }
  }

  /** Announcing `p` as used while it is in hand. */
  lemma AnnounceUsed(h: Heap, p: nat)
    requires Inv(h, p, 0) && FreeAt(h, p)
    ensures var h' := Announce(h, p, false); Inv(h', p, 0) && FreeAt(h', p)
  {
    var h' := Announce(h, p, false);
    SamePlacesGeo(h, h');
    SameListsOk(h, h', p, p);
    assert BlockOk(h, p);
    forall q: nat | q in h'.blocks ensures FlagsOk(h', q, p, 0) {
      assert FlagsOk(h, q, p, 0) && BlockOk(h, q);
      PrevUnique(h, Next(h, p));
      assert q != p ==> !Before(h, q, Next(h, p)) by { assert Before(h, p, Next(h, p)); }
    }
  }

  lemma RetireInv(h: Heap, p: nat)
    requires Good(h) && UsedAt(h, p) && NextNotFree(h, p)
    ensures Good(Retire(h, p))
  {
    JoinPrevInv(h, p);
    MarkFreeInv(JoinPrev(h, p), Head(h, p), 0);
    InListInv(MarkFree(JoinPrev(h, p), Head(h, p)), Head(h, p));
  }

  lemma FreeInv(h: Heap, p: nat)
    requires Good(h) && UsedAt(h, p)
    ensures Good(Free(h, p))
  {
    JoinNextInv(h, p);
    RetireInv(JoinNext(h, p), p);
  }
}
