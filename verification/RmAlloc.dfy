/** The allocator itself, over one array of memory. Every method is proved to bring memory from one heap
    to the heap that the matching function of `RmHeap` gives, and to leave the bytes in use alone. */
module RmAlloc {
  import opened RmHeap
  import opened RmInv
  import opened RmSplit
  import opened RmTheorems
  import opened RmLive
  import opened RmRuns
  import opened RmExact
  import opened RmRaw

  method GetIndex(request: nat) returns (index: nat)
    ensures index == Index(Round(request))
  {
    var size := Round(request);
    if size <= MAX_FIXED { return (size - MIN_BLOCK) / 8; }
    var exp, num := MIN_EXP, 2 * 512;
    assert Pow2(9) == 512;
    while exp < MAX_EXP && num < size
      invariant MIN_EXP <= exp <= MAX_EXP && num == 2 * Pow2(exp)
      invariant ExpFrom(size, MIN_EXP) == ExpFrom(size, exp)
    {
      exp, num := exp + 1, 2 * num;
    }
    index := 64 + exp - MIN_EXP;
  }

  class Allocator {
    const mem: array<nat>
    var brk: nat
    var lastBlock: nat
    var splitSide: bool
    ghost var heap: Heap

    ghost predicate Valid()
      reads this, mem
    {
      && Holds(mem[..], heap, {}, Live(heap)) && Good(heap)
      && heap.brk == brk && heap.last == lastBlock && heap.side == splitSide
    }

    // ---- headers -------------------------------------------------------------------------------------

    /** Writes the header of `p`, which now says `b`. */
    method PutHeader(p: nat, v: nat, ghost b: Block, ghost h: Heap, ghost y: set<nat>, ghost l: map<nat, nat>)
      requires Holds(mem[..], h, y, l) && p in h.blocks && b.size == h.blocks[p].size && v == Enc(b)
      requires (b.free ==> h.blocks[p].free || p in y) && (p in l ==> !b.free) && (!b.free ==> Unlisted(h, p))
      modifies mem
      ensures Holds(mem[..], SetBlock(h, p, b), y, l) && Same(old(mem[..]), mem[..], l)
    {
      HeaderWrite(mem[..], h, y, l, p, b);
      mem[p - HEADER] := v;
    }

    /** Tells the block after `p`, if there is one, whether `p` is free. */
    method AnnounceToNext(p: nat, free: bool, ghost h: Heap, ghost y: set<nat>, ghost l: map<nat, nat>)
      requires Holds(mem[..], h, y, l) && p in h.blocks && h.brk == brk
      modifies mem
      ensures Holds(mem[..], Announce(h, p, free), y, l) && Same(old(mem[..]), mem[..], l)
    {
      ReadHeader(mem[..], h, y, l, p);
      var n := p + SizeBits(mem[p - HEADER]) + HEADER;
      if n < brk {
        ReadHeader(mem[..], h, y, l, n);
        SetsBits(h.blocks[n]);
        if !h.blocks[n].free { UsedUnlisted(h, n); }
        var v := mem[n - HEADER];
        PutHeader(n, if free then OrPrev(v) else AndNotPrev(v), h.blocks[n].(pf := free), h, y, l);
      }
    }

    /** Marks `p` as free: its own flag, its end pointer, the flag after it. */
    method MarkAsFree(p: nat, ghost h: Heap, ghost y: set<nat>, ghost l: map<nat, nat>)
      requires Holds(mem[..], h, y, l) && p in h.blocks && h.brk == brk && p !in l && Unlisted(h, p)
      modifies mem
      ensures Holds(mem[..], MarkFree(h, p), y - {p}, l) && Same(old(mem[..]), mem[..], l)
    {
      Loosen(mem[..], h, y, l, y + {p});
      ReadHeader(mem[..], h, y, l, p);
      SetsBits(h.blocks[p]);
      PutHeader(p, OrFree(mem[p - HEADER]), h.blocks[p].(free := true), h, y + {p}, l);
      ghost var h1 := SetBlock(h, p, h.blocks[p].(free := true));
      ReadHeader(mem[..], h1, y + {p}, l, p);
      EndWrite(mem[..], h1, y + {p}, l, p);
      mem[p + SizeBits(mem[p - HEADER]) - 4] := p;
      Loosen(mem[..], h1, y + {p} - {p}, l, y - {p});
      AnnounceToNext(p, true, h1, y - {p}, l);
    }

    /** Marks `p` as used: its own flag, the flag after it. */
    method MarkAsUsed(p: nat, ghost h: Heap, ghost y: set<nat>, ghost l: map<nat, nat>)
      requires Holds(mem[..], h, y, l) && p in h.blocks && h.brk == brk && Unlisted(h, p)
      modifies mem
      ensures Holds(mem[..], MarkUsed(h, p), y - {p}, l) && Same(old(mem[..]), mem[..], l)
    {
      ReadHeader(mem[..], h, y, l, p);
      SetsBits(h.blocks[p]);
      PutHeader(p, AndNotFree(mem[p - HEADER]), h.blocks[p].(free := false), h, y, l);
      ghost var h1 := SetBlock(h, p, h.blocks[p].(free := false));
      Loosen(mem[..], h1, y, l, y - {p});
      AnnounceToNext(p, false, h1, y - {p}, l);
    }

    // ---- free lists ------------------------------------------------------------------------------------

    /** Takes `p` out of its list, which it looks for from the head. */
    method OutList(p: nat, ghost h: Heap, ghost y: set<nat>, ghost l: map<nat, nat>)
      requires Holds(mem[..], h, y, l) && p in h.blocks && p in h.lists[ListOf(h, p)]
      modifies mem
      ensures Holds(mem[..], RmHeap.OutList(h, p), y, l) && Same(old(mem[..]), mem[..], l)
      ensures Unlisted(RmHeap.OutList(h, p), p)
    {
      ReadHeader(mem[..], h, y, l, p);
      var index := GetIndex(SizeBits(mem[p - HEADER]));
      Rounded(h.blocks[p].size);
      ghost var c, k := h.lists[index], 0;
      var prev := 0;
      while true
        invariant k <= Find(c, p) < |c| && prev == (if k == 0 then 0 else c[k - 1])
        invariant mem[..] == old(mem[..])
        decreases |c| - k
      {
        SlotReads(mem[..], h, y, l, index, k);
        assert c[k] in c;
        var slot := if prev == 0 then 4 * index else prev;
        if mem[slot] == p {
          FindIs(c, p, k);
          Unlink(mem[..], h, y, l, index, k);
          mem[slot] := mem[p];
          break;
        }
        prev := mem[slot];
        k := k + 1;
        if prev == 0 { break; }
      }
    }

    /** Puts `p` in its list, at the front or, if it is large, before the first block not smaller. */
    method InList(p: nat, ghost h: Heap, ghost y: set<nat>, ghost l: map<nat, nat>)
      requires Holds(mem[..], h, y, l) && FreeAt(h, p) && Unlisted(h, p) && p !in l
      modifies mem
      ensures Holds(mem[..], RmHeap.InList(h, p), y, l) && Same(old(mem[..]), mem[..], l)
    {
      ReadHeader(mem[..], h, y, l, p);
      var size := SizeBits(mem[p - HEADER]);
      var index := GetIndex(size);
      Rounded(size);
      ghost var c, k := h.lists[index], 0;
      LinkWrite(mem[..], h, y, l, p, 0);
      mem[p] := 0;
      SlotReads(mem[..], h, y, l, index, 0);
      LinkWrite(mem[..], h, y, l, p, mem[4 * index]);
      mem[p] := mem[4 * index];
      var prev := 0;
      if size > MAX_FIXED {
        prev, k := FindPlace(p, size, index, h, y, l);
      }
      SlotReads(mem[..], h, y, l, index, k);
      Link(mem[..], h, y, l, index, k, p);
      mem[if prev == 0 then 4 * index else prev] := p;
    }

    /** Walks down list `index` with the link of `p`, past the blocks smaller than `size`. */
    method FindPlace(p: nat, size: nat, index: nat, ghost h: Heap, ghost y: set<nat>, ghost l: map<nat, nat>)
      returns (prev: nat, ghost k: nat)
      requires Holds(mem[..], h, y, l) && FreeAt(h, p) && Unlisted(h, p) && p !in l && index < LISTS
      requires Word(mem[..], p) == LinkTo(h.lists[index], 0) && p < mem.Length
      modifies mem
      ensures Holds(mem[..], h, y, l) && Same(old(mem[..]), mem[..], l)
      ensures k == Place(h, h.lists[index], size) && prev == (if k == 0 then 0 else h.lists[index][k - 1])
      ensures Word(mem[..], p) == LinkTo(h.lists[index], k)
    {
      ghost var c := h.lists[index];
      prev, k := 0, 0;
      while mem[p] != 0
        invariant Holds(mem[..], h, y, l) && Same(old(mem[..]), mem[..], l)
        invariant k <= |c| && prev == (if k == 0 then 0 else c[k - 1]) && Word(mem[..], p) == LinkTo(c, k)
        invariant k + Place(h, c[k..], size) == Place(h, c, size)
        decreases |c| - k
      {
        ListedBlock(mem[..], h, y, l, index, k);
        assert c[k..][0] == c[k] && c[k..][1..] == c[k + 1..];
        if SizeBits(mem[mem[p] - HEADER]) >= size { break; }
        prev := mem[p];
        LinkWrite(mem[..], h, y, l, p, mem[mem[p]]);
        mem[p] := mem[mem[p]];
        k := k + 1;
      }
      if k < |c| { ListedBlock(mem[..], h, y, l, index, k); }
    }

    // ---- joining neighbours ----------------------------------------------------------------------------

    /** Writes that `p` has taken in `n`, the block after it, and tells the block after that. */
    method JoinBlocks(p: nat, n: nat, size: nat, free: bool, ghost h: Heap, ghost y: set<nat>, ghost l: map<nat, nat>)
      requires Holds(mem[..], h, y, l) && Before(h, p, n) && n in h.blocks && Unlisted(h, p) && Unlisted(h, n)
          && n !in l
      requires h.brk == brk && size == h.blocks[p].size + HEADER + h.blocks[n].size
      requires free ==> p !in l
      modifies mem
      ensures Same(old(mem[..]), mem[..], l)
      ensures Holds(mem[..], Announce(Join(h, p, n), p, free), if free then y - {p} else y + {p}, l)
    {
      ReadHeader(mem[..], h, y, l, p);
      SetsBits(h.blocks[p]);
      JoinWrite(mem[..], h, y, l, p, n);
      ghost var h1, b := Join(h, p, n), h.blocks[p].(size := size);
      assert PutSize(Enc(h.blocks[p]), size) == Enc(b) && h1.blocks[p] == b;
      mem[p - HEADER] := PutSize(mem[p - HEADER], size);
      ReadHeader(mem[..], h1, y + {p}, l, p);
      if free {
        JoinedUnlisted(h, p, n);
        EndWrite(mem[..], h1, y + {p}, l, p);
        mem[p + size - 4] := p;
        Loosen(mem[..], h1, y + {p} - {p}, l, y - {p});
        AnnounceToNext(p, true, h1, y - {p}, l);
      } else {
        AnnounceToNext(p, false, h1, y + {p}, l);
      }
    }

    /** Joins `p` with the block after it if that is free. */
    method CoalesceForward(p: nat, ghost h: Heap, ghost y: set<nat>, ghost l: map<nat, nat>)
      requires Holds(mem[..], h, y, l) && p in h.blocks && Unlisted(h, p) && (FreeAt(h, p) ==> p !in l) && h.brk == brk
      requires FreeAt(h, Next(h, p)) ==> Next(h, p) in h.lists[ListOf(h, Next(h, p))]
      modifies mem, this`lastBlock
      ensures Holds(mem[..], JoinNext(h, p), y, l) && Same(old(mem[..]), mem[..], l)
      ensures lastBlock == if FreeAt(h, Next(h, p)) && old(lastBlock) == Next(h, p) then p else old(lastBlock)
    {
      ReadHeader(mem[..], h, y, l, p);
      var size, free := SizeBits(mem[p - HEADER]), FreeBit(mem[p - HEADER]);
      var n := p + size + HEADER;
      if n < brk {
        ReadHeader(mem[..], h, y, l, n);
        if FreeBit(mem[n - HEADER]) {
          var total := size + HEADER + SizeBits(mem[n - HEADER]);
          OutList(n, h, y, l);
          ghost var h1 := RmHeap.OutList(h, n);
          StillUnlisted(h, n, p);
          JoinBlocks(p, n, total, free, h1, y, l);
          Loosen(mem[..], JoinNext(h, p), if free then y - {p} else y + {p}, l, y);
          if lastBlock == n { lastBlock := p; }
        }
      }
    }

    /** Joins `p` with the block before it if that is free, and gives the result. */
    method CoalesceBackward(p: nat, ghost h: Heap, ghost y: set<nat>, ghost l: map<nat, nat>) returns (q: nat)
      requires Holds(mem[..], h, y, l) && p in h.blocks && Unlisted(h, p) && p !in l && h.brk == brk
      requires Backward(h, p) ==> HasBefore(h, p) && PrevListed(h, p) && PrevOf(h, p) !in y
      modifies mem, this`lastBlock
      ensures q == Head(h, p) && Same(old(mem[..]), mem[..], l)
      ensures Holds(mem[..], JoinPrev(h, p), if FreeAt(h, p) then y else y + {q}, l)
      ensures Unlisted(JoinPrev(h, p), q) && q !in l && (FreeAt(h, p) || q != p ==> FreeAt(JoinPrev(h, p), q))
      ensures lastBlock == if old(lastBlock) == p then q else old(lastBlock)
    {
      ReadHeader(mem[..], h, y, l, p);
      var size, free := SizeBits(mem[p - HEADER]), FreeBit(mem[p - HEADER]);
      q := p;
      if p - HEADER == BASE || !PrevBit(mem[p - HEADER]) {
        Loosen(mem[..], h, y, l, y + {p});
        return;
      }
      PrevPointer(mem[..], h, y, l, p);
      q := mem[p - 12];
      ReadHeader(mem[..], h, y, l, q);
      var total := size + HEADER + SizeBits(mem[q - HEADER]);
      OutList(q, h, y, l);
      ghost var h1 := RmHeap.OutList(h, q);
      StillUnlisted(h, q, p);
      JoinBlocks(q, p, total, free, h1, y, l);
      Loosen(mem[..], JoinPrev(h, p), if free then y - {q} else y + {q}, l, if free then y else y + {q});
      JoinedUnlisted(h1, q, p);
      if lastBlock == p { lastBlock := q; }
    }

    // ---- splitting -------------------------------------------------------------------------------------

    /** Writes the headers of the two parts of `p`: first the new one at `r`, then that of `p`. */
    method CutHeaders(p: nat, first: nat, r: nat, second: nat, ghost h: Heap, ghost l: map<nat, nat>)
      requires Holds(mem[..], h, {}, l) && p in h.blocks && Unlisted(h, p) && first % 8 == 0 && second % 8 == 0
      requires MIN_BLOCK <= first && MIN_BLOCK <= second && r == p + first + HEADER
          && r + second == p + h.blocks[p].size
      requires p in l ==> !h.blocks[p].free && l[p] <= first
      modifies mem
      ensures Holds(mem[..], Cut(h, p, h.blocks[p].(size := first), r, Block(second, false, false)), {p}, l)
      ensures Same(old(mem[..]), mem[..], l) && r !in h.blocks && r !in l
    {
      ghost var b, c := h.blocks[p].(size := first), Block(second, false, false);
      CutShape(h, p, first, r, second);
      CutWrite(mem[..], h, {}, l, p, b, r, c);
      assert {} + {p} == {p};
      mem[r - HEADER] := second;
      ReadHeader(mem[..], h, {p}, l, p);
      SetsBits(h.blocks[p]);
      mem[p - HEADER] := PutSize(mem[p - HEADER], first);
    }

    /** Keeps the first `need` bytes of `p`, and gives the rest, `r`. */
    method SplitOffRight(p: nat, need: nat, join: bool, ghost h: Heap, ghost l: map<nat, nat>) returns (r: nat)
      requires Holds(mem[..], h, {}, l) && Splittable(h, p, need, l) && h.brk == brk
          && (FreeAt(h, p) ==> lastBlock == h.last)
      modifies mem, this`lastBlock
      ensures r == p + need + HEADER && r in RightCut(h, p, need).blocks
      ensures Holds(mem[..], ReleaseNext(RightCut(h, p, need), r, join), {p}, l)
      ensures Same(old(mem[..]), mem[..], l) && lastBlock == Max(old(lastBlock), r)
    {
      r := CutRight(p, need, h, l);
      ghost var m := mem[..];
      ReleaseRight(r, join, RightCut(h, p, need), {p}, l);
      SameTrans(old(mem[..]), m, mem[..], l);
      if r > lastBlock { lastBlock := r; }
    }

    /** Cuts `p` after `need` bytes. */
    method CutRight(p: nat, need: nat, ghost h: Heap, ghost l: map<nat, nat>) returns (r: nat)
      requires Holds(mem[..], h, {}, l) && Splittable(h, p, need, l) && h.brk == brk
          && (FreeAt(h, p) ==> lastBlock == h.last)
      modifies mem
      ensures r == p + need + HEADER && r != p && r !in l && Same(old(mem[..]), mem[..], l)
      ensures var g := RightCut(h, p, need);
              Holds(mem[..], g, {p}, l) && r in g.blocks && Unlisted(g, r) && NextNotFree(g, r) && g.brk == brk
    {
      ReadHeader(mem[..], h, {}, l, p);
      var size, free := SizeBits(mem[p - HEADER]), FreeBit(mem[p - HEADER]);
      r := p + need + HEADER;
      CutHeaders(p, need, r, size - need - HEADER, h, l);
      ghost var h1 := Cut(h, p, h.blocks[p].(size := need), r, Block(size - need - HEADER, false, false));
      if p == lastBlock && free {
        AnnounceToNext(p, true, h1, {p}, l);
      }
      RightCutShape(h, p, need, r, h1);
    }

    /** Marks `r` as free, joins it if asked, and puts it in its list. */
    method ReleaseRight(r: nat, join: bool, ghost h: Heap, ghost y: set<nat>, ghost l: map<nat, nat>)
      requires Holds(mem[..], h, y, l) && r in h.blocks && Unlisted(h, r) && r !in l && h.brk == brk
          && NextNotFree(h, r)
      requires r !in y
      modifies mem, this`lastBlock
      ensures Holds(mem[..], ReleaseNext(h, r, join), y, l) && Same(old(mem[..]), mem[..], l)
      ensures lastBlock == old(lastBlock)
    {
      MarkAsFree(r, h, y, l);
      ghost var h1 := MarkFree(h, r);
      MarkedNext(h, r);
      assert Unlisted(h1, r) && !FreeAt(h1, Next(h1, r)) by { NextMarked(h, r); }
      Loosen(mem[..], h1, y - {r}, l, y);
      if join { CoalesceForward(r, h1, y, l); }
      InList(r, h1, y, l);
    }

    /** Keeps the last `need` bytes of `p`. */
    method SplitOffLeft(p: nat, need: nat, join: bool, ghost h: Heap, ghost l: map<nat, nat>) returns (r: nat)
      requires Holds(mem[..], h, {}, l) && Splittable(h, p, need, l) && h.brk == brk && p !in l
      requires join && Backward(h, p) ==> HasBefore(h, p) && PrevListed(h, p)
      modifies mem, this`lastBlock
      ensures r == p + h.blocks[p].size - need
      ensures Holds(mem[..], ReleasePrev(LeftCut(h, p, need), p, join), {}, l) && Same(old(mem[..]), mem[..], l)
      ensures lastBlock == Max(old(lastBlock), r)
    {
      ReadHeader(mem[..], h, {}, l, p);
      var size := SizeBits(mem[p - HEADER]);
      r := p + size - need;
      CutHeaders(p, size - need - HEADER, r, need, h, l);
      LeftCutShape(h, p, need, r);
      ghost var m := mem[..];
      ReleaseLeft(p, join, LeftCut(h, p, need), l);
      SameTrans(old(mem[..]), m, mem[..], l);
      if r > lastBlock { lastBlock := r; }
    }

    /** Marks `p` as free, joins it with the block before it if asked, and puts it in its list. */
    method ReleaseLeft(p: nat, join: bool, ghost h: Heap, ghost l: map<nat, nat>)
      requires Holds(mem[..], h, {p}, l) && p in h.blocks && Unlisted(h, p) && p !in l && h.brk == brk
      requires join && Backward(h, p) ==> HasBefore(h, p) && PrevListed(h, p)
      modifies mem, this`lastBlock
      ensures Holds(mem[..], ReleasePrev(h, p, join), {}, l) && Same(old(mem[..]), mem[..], l)
      ensures lastBlock == old(lastBlock) || (old(lastBlock) == p && lastBlock < p)
    {
      MarkAsFree(p, h, {p}, l);
      assert {p} - {p} == {};
      ghost var h1 := MarkFree(h, p);
      MarkedPrev(h, p);
      var q := p;
      if join { q := CoalesceBackward(p, h1, {}, l); }
      InList(q, if join then JoinPrev(h1, p) else h1, {}, l);
    }

    /** Splits `p` if the rest is large enough, on alternating sides, and gives the part that is kept. */
    method Split(p: nat, need: nat, join: bool, ghost h: Heap, ghost l: map<nat, nat>) returns (a: nat)
      requires Holds(mem[..], h, {}, l) && p in h.blocks && (Splits(h, p, need) ==> Splittable(h, p, need, l))
      requires h.brk == brk && h.side == splitSide && (FreeAt(h, p) ==> lastBlock == h.last) && (splitSide ==> p !in l)
      requires join && Backward(h, p) ==> HasBefore(h, p) && PrevListed(h, p)
      modifies mem, this`lastBlock, this`splitSide
      ensures a == Kept(h, p, need) && Same(old(mem[..]), mem[..], l)
      ensures Holds(mem[..], RmHeap.Split(h, p, need, join), {a}, l)
      ensures splitSide == RmHeap.Split(h, p, need, join).side
      ensures lastBlock == if Splits(h, p, need) then Max(old(lastBlock), CutPoint(h, p, need)) else old(lastBlock)
    {
      ReadHeader(mem[..], h, {}, l, p);
      a := p;
      if SizeBits(mem[p - HEADER]) > need + HEADER + MIN_BLOCK {
        a := SplitOff(p, need, join, h, l);
        splitSide := !splitSide;
      } else {
        Loosen(mem[..], h, {}, l, {a});
      }
    }

    /** Splits the rest off, on the side whose turn it is. */
    method SplitOff(p: nat, need: nat, join: bool, ghost h: Heap, ghost l: map<nat, nat>) returns (a: nat)
      requires Holds(mem[..], h, {}, l) && Splittable(h, p, need, l) && h.brk == brk && h.side == splitSide
      requires (FreeAt(h, p) ==> lastBlock == h.last) && (splitSide ==> p !in l)
      requires join && Backward(h, p) ==> HasBefore(h, p) && PrevListed(h, p)
      modifies mem, this`lastBlock
      ensures a == Kept(h, p, need) && Same(old(mem[..]), mem[..], l)
      ensures Holds(mem[..], RmHeap.Split(h, p, need, join), {a}, l)
      ensures lastBlock == Max(old(lastBlock), CutPoint(h, p, need))
    {
      if splitSide {
        a := SplitOffLeft(p, need, join, h, l);
        SideLoose(mem[..], ReleasePrev(LeftCut(h, p, need), p, join), l, a, !h.side);
      } else {
        var r := SplitOffRight(p, need, join, h, l);
        a := p;
        SideHolds(mem[..], ReleaseNext(RightCut(h, p, need), r, join), {p}, l, !h.side);
      }
    }

    // ---- searching -------------------------------------------------------------------------------------

    /** Takes the block at position `k` of list `index` out; `prev` is the one before it, if any. */
    method TakeAt(index: nat, prev: nat, ghost k: nat, ghost h: Heap, ghost l: map<nat, nat>) returns (p: nat)
      requires Holds(mem[..], h, {}, l) && index < LISTS && k < |h.lists[index]|
      requires prev == if k == 0 then 0 else h.lists[index][k - 1]
      modifies mem
      ensures p == h.lists[index][k] && Holds(mem[..], Take(h, index, k), {}, l) && Same(old(mem[..]), mem[..], l)
    {
      SlotReads(mem[..], h, {}, l, index, k);
      Unlink(mem[..], h, {}, l, index, k);
      var slot := if prev == 0 then 4 * index else prev;
      p := mem[slot];
      mem[slot] := mem[p];
    }

    /** Looks in the list for blocks of `need` bytes. */
    method TakeFit(need: nat, index: nat, ghost h: Heap, ghost l: map<nat, nat>) returns (p: nat)
      requires Holds(mem[..], h, {}, l) && need >= MIN_BLOCK && index == Index(need)
      modifies mem
      ensures var c := h.lists[index]; var k := if need <= MAX_FIXED then 0 else Place(h, c, need);
              if k < |c| then p == c[k] && p != 0 && Holds(mem[..], Take(h, index, k), {}, l) && Same(old(mem[..]),
                  mem[..], l)
              else p == 0 && mem[..] == old(mem[..])
    {
      ghost var c, k := h.lists[index], 0;
      SlotReads(mem[..], h, {}, l, index, 0);
      p := mem[4 * index];
      var prev := 0;
      while need > MAX_FIXED && p != 0
        invariant k <= |c| && prev == (if k == 0 then 0 else c[k - 1]) && p == LinkTo(c, k) && (k < |c| ==> p != 0)
        invariant need <= MAX_FIXED ==> k == 0
        invariant need > MAX_FIXED ==> k + Place(h, c[k..], need) == Place(h, c, need)
        invariant mem[..] == old(mem[..])
        decreases |c| - k
      {
        ListedBlock(mem[..], h, {}, l, index, k);
        assert c[k..][0] == c[k] && c[k..][1..] == c[k + 1..];
        if SizeBits(mem[p - HEADER]) >= need { break; }
        SlotReads(mem[..], h, {}, l, index, k + 1);
        prev, p, k := p, mem[p], k + 1;
      }
      if p != 0 {
        if need > MAX_FIXED { ListedBlock(mem[..], h, {}, l, index, k); }
        p := TakeAt(index, prev, k, h, l);
      }
    }

    /** Takes the first block of the first list that is not empty, after list `from`. */
    method TakeLarger(from: nat, ghost h: Heap, ghost l: map<nat, nat>) returns (p: nat)
      requires Holds(mem[..], h, {}, l) && from < LISTS
      modifies mem
      ensures match NextSpot(h, from + 1)
              case At(i, k) => p == h.lists[i][k] && p != 0 && Holds(mem[..], Take(h, i, k), {}, l)
                  && Same(old(mem[..]), mem[..], l)
              case Nowhere => p == 0 && mem[..] == old(mem[..])
    {
      p := 0;
      var index, last := from + 1, LISTS - 1;
      while index <= last
        invariant from < index <= LISTS && p == 0
        invariant NextSpot(h, index) == NextSpot(h, from + 1)
        invariant mem[..] == old(mem[..])
      {
        SlotReads(mem[..], h, {}, l, index, 0);
        if mem[4 * index] != 0 {
          p := TakeAt(index, 0, 0, h, l);
          return;
        }
        index := index + 1;
      }
    }

    /** Extends the heap by whole pages, in one new block, unless memory is exhausted. */
    method GrowHeap(need: nat, ghost h: Heap, ghost l: map<nat, nat>) returns (p: nat)
      requires Holds(mem[..], h, {}, l) && need >= MIN_BLOCK && h.brk == brk && h.last == lastBlock
      modifies mem, this`brk
      ensures if h.brk + Pages(need + HEADER) <= mem.Length then
                p == h.brk + HEADER && Holds(mem[..], Grow(h, need), {}, l) && brk == Grow(h, need).brk
                && Same(old(mem[..]), mem[..], l)
              else p == 0 && brk == h.brk && mem[..] == old(mem[..])
    {
      var g := Pages(need + HEADER);
      PagesFit(need + HEADER);
      if brk + g > mem.Length { return 0; }
      p := brk + HEADER;
      ghost var h1 := SetBlock(h, p, Block(g - HEADER, false, false)).(brk := h.brk + g, last := p);
      GrowWrite(mem[..], h, {}, l, g, false, h1);
      EndFree(h);
      mem[brk] := g - HEADER;
      brk := brk + g;
      ReadHeader(mem[..], h1, {}, l, lastBlock);
      GrowIs(h, g, h1);
      if FreeBit(mem[lastBlock - HEADER]) { AnnounceToNext(lastBlock, true, h1, {}, l); }
    }

    // ---- malloc ----------------------------------------------------------------------------------------

    /** The block that a request is served from: out of a list, or new at the end of the heap. */
    method Obtain(need: nat, ghost h: Heap, ghost l: map<nat, nat>) returns (p: nat, grown: bool)
      requires Holds(mem[..], h, {}, l) && Good(h) && need >= MIN_BLOCK && need % 8 == 0 && h.brk == brk
          && h.last == lastBlock
      modifies mem, this`brk
      ensures Room(h, need, mem.Length) ==>
                && (Source(h, need).0, p, grown) == Source(h, need) && p != 0
                && Holds(mem[..], Source(h, need).0, {}, l) && Same(old(mem[..]), mem[..], l)
      ensures !Room(h, need, mem.Length) ==> p == 0 && mem[..] == old(mem[..])
      ensures brk == if Room(h, need, mem.Length) then Source(h, need).0.brk else h.brk
      ensures Obtained(h, need, mem.Length, p, grown, brk)
    {
      grown := false;
      Rounded(need);
      var index := GetIndex(need);
      p := TakeFit(need, index, h, l);
      if p == 0 { p := TakeLarger(index, h, l); }
      if p == 0 {
        grown := true;
        p := GrowHeap(need, h, l);
      }
      ObtainedIs(h, need, mem.Length, p, grown, brk);
    }

    /** Serves a request of `need` bytes from heap `h`. */
    method MallocBlock(need: nat, ghost h: Heap, ghost l: map<nat, nat>) returns (a: nat)
      requires Holds(mem[..], h, {}, l) && Good(h) && need >= MIN_BLOCK && need % 8 == 0
      requires h.brk == brk && h.last == lastBlock && h.side == splitSide
      modifies mem, this`brk, this`lastBlock, this`splitSide
      ensures Room(h, need, mem.Length) ==>
                && Source(h, Round(need)).1 in Source(h, Round(need)).0.blocks && a == RmHeap.Malloc(h, need).1
                    && a != 0
                && Stands(RmHeap.Malloc(h, need).0, l) && Same(old(mem[..]), mem[..], l)
      ensures !Room(h, need, mem.Length) ==> a == 0 && mem[..] == old(mem[..]) && Stands(h, l)
    {
      Rounded(need);
      var p, grown := Obtain(need, h, l);
      MallocMeans(h, need);
      if p == 0 { return 0; }
      ghost var (g, p', grown') := Source(h, need);
      ghost var s := RmHeap.Split(g, p, need, grown);
      MallocPlan(h, need, l, g, p, grown, s, Kept(g, p, need));
      a := Split(p, need, grown, g, l);
      HandOut(a, s, RmHeap.Malloc(h, need).0, l);
    }

    /** The variables and memory represent `h`. */
    ghost predicate Stands(h: Heap, l: map<nat, nat>)
      reads this, mem
    {
      Holds(mem[..], h, {}, l) && h.brk == brk && h.last == lastBlock && h.side == splitSide
    }

    /** Marks block `a` as used. */
    method HandOut(a: nat, ghost h: Heap, ghost h': Heap, ghost l: map<nat, nat>)
      requires Holds(mem[..], h, {a}, l) && h' == Hand(h, a) && Good(h') && UsedAt(h', a)
      requires h.brk == brk && h.side == splitSide && Max(lastBlock, a) == Max(h.last, a)
      modifies mem, this`lastBlock
      ensures Stands(h', l) && Same(old(mem[..]), mem[..], l)
    {
      HandFacts(h, a);
      MarkAsUsed(a, h, {a}, l);
      assert {a} - {a} == {};
      LastHolds(mem[..], MarkUsed(h, a), {}, l, h');
      if a > lastBlock { lastBlock := a; }
    }

    // ---- the three operations --------------------------------------------------------------------------

    /** Allocates a block of at least `size` bytes, or gives 0 if memory is exhausted. */
    method Malloc(size: nat) returns (a: nat)
      requires Valid()
      modifies this, mem
      ensures Valid() && Same(old(mem[..]), mem[..], Live(old(heap)))
      ensures Room(old(heap), Round(size), mem.Length) ==>
                Source(old(heap), Round(size)).1 in Source(old(heap), Round(size)).0.blocks
                && (heap, a) == RmHeap.Malloc(old(heap), size) && a != 0
      ensures !Room(old(heap), Round(size), mem.Length) ==> a == 0 && heap == old(heap) && mem[..] == old(mem[..])
      ensures a == 0 <==> NoneFits(old(heap), Round(size)) && old(brk) + Pages(Round(size) + HEADER) > mem.Length
      ensures a != 0 ==> Serves(old(heap), Round(size), heap, a) && Round(size) <= SizeAt(heap, a) <= Round(size) + 16
      ensures a != 0 ==> !UsedAt(old(heap), a) && a % 8 == 0 && Live(heap) == Live(old(heap))[a := SizeAt(heap, a)]
    {
      RoundFits(size);
      RoomIs(heap, Round(size), mem.Length);
      a := MallocBlock(Round(size), heap, Live(heap));
      if a != 0 {
        MallocMeans(heap, size);
        ghost var h := heap;
        heap := RmHeap.Malloc(h, size).0;
        MallocExactly(h, size, Round(size), heap, a);
        Reguard(mem[..], heap, {}, Live(h), Live(heap));
      }
    }

    /** Frees block `p` of heap `h`. */
    method FreeBlock(p: nat, ghost h: Heap, ghost l: map<nat, nat>)
      requires Stands(h, l) && Good(h) && UsedAt(h, p) && p !in l
      modifies mem, this`lastBlock
      ensures Stands(RmHeap.Free(h, p), l) && Same(old(mem[..]), mem[..], l)
    {
      FreeFacts(h, p);
      UsedIsUnlisted(h, p);
      CoalesceForward(p, h, {}, l);
      ghost var h1 := JoinNext(h, p);
      var q := CoalesceBackward(p, h1, {}, l);
      ghost var h2 := JoinPrev(h1, p);
      assert {} + {q} == {q} && {q} - {q} == {};
      MarkAsFree(q, h2, {q}, l);
      MarkedUnlisted(h2, q);
      InList(q, MarkFree(h2, q), {}, l);
    }

    /** Frees block `p`; the null pointer is ignored. */
    method Free(p: nat)
      requires Valid() && (p == 0 || UsedAt(heap, p))
      modifies this, mem
      ensures Valid()
      ensures if p == 0 then heap == old(heap) && mem[..] == old(mem[..])
              else UsedAt(old(heap), p) && |old(heap).lists| == LISTS && heap == RmHeap.Free(old(heap), p)
                   && Same(old(mem[..]), mem[..], Live(old(heap)) - {p})
      ensures p != 0 ==> Live(heap) == Live(old(heap)) - {p} && brk == old(brk) && splitSide == old(splitSide)
    {
      if p == 0 { return; }
      NoZero(heap);
      FreeUsed(p);
    }

    method FreeUsed(p: nat)
      requires Valid() && UsedAt(heap, p)
      modifies this, mem
      ensures Valid() && heap == RmHeap.Free(old(heap), p) && Same(old(mem[..]), mem[..], Live(old(heap)) - {p})
      ensures Live(heap) == Live(old(heap)) - {p} && brk == old(brk) && splitSide == old(splitSide)
    {
      ghost var l := Live(heap) - {p};
      Reguard(mem[..], heap, {}, Live(heap), l);
      FreeExactly(heap, p, RmHeap.Free(heap, p));
      FreeBlock(p, heap, l);
      heap := RmHeap.Free(heap, p);
    }

    // ---- realloc ---------------------------------------------------------------------------------------

    /** Grows `p`, the last block, to `need` bytes at the end of the heap. */
    method ExtendBlock(p: nat, need: nat, g: nat, ghost h: Heap, ghost l: map<nat, nat>)
      requires Stands(h, l) && Good(h) && UsedAt(h, p) && p == h.last && g % 8 == 0 && h.brk + g <= mem.Length
      requires MIN_BLOCK <= need <= h.blocks[p].size + g && need % 8 == 0 && (p in l ==> l[p] <= need)
      modifies this`brk, this`lastBlock, this`splitSide, mem
      ensures Stands(RmHeap.Split(Extend(h, p, g).(side := false), p, need, false), l) && Same(old(mem[..]), mem[..], l)
    {
      UsedIsUnlisted(h, p);
      ReadHeader(mem[..], h, {}, l, p);
      SetsBits(h.blocks[p]);
      ExtendWrite(mem[..], h, {}, l, p, g);
      ghost var h1 := Extend(h, p, g);
      ghost var h2, size := h1.(side := false), h.blocks[p].size + g;
      assert h.blocks[p].(size := size) == h1.blocks[p];
      mem[p - HEADER] := PutSize(mem[p - HEADER], SizeBits(mem[p - HEADER]) + g);
      brk := brk + g;
      splitSide := false;
      ExtendFacts(h, p, g, need, h2);
      SideHolds(mem[..], h1, {}, l, false);
      var a := Split(p, need, false, h2, l);
      ghost var s := RmHeap.Split(h2, p, need, false);
      Loosen(mem[..], s, {p}, l, {});
    }

    /** Copies `n` bytes of block `p` to the start of block `a`. */
    method CopyBytes(a: nat, p: nat, n: nat, ghost h: Heap, ghost l: map<nat, nat>)
      requires Holds(mem[..], h, {}, l) && UsedAt(h, a) && UsedAt(h, p) && a != p && a !in l && p in l
      requires n <= h.blocks[a].size && n == l[p]
      modifies mem
      ensures Holds(mem[..], h, {}, l) && Same(old(mem[..]), mem[..], l)
      ensures Copied(old(mem[..]), mem[..], p, a, n)
    {
      ReadHeader(mem[..], h, {}, l, a);
      ReadHeader(mem[..], h, {}, l, p);
      var i := 0;
      while i < n
        invariant 0 <= i <= n && Holds(mem[..], h, {}, l) && Same(old(mem[..]), mem[..], l)
        invariant Copied(old(mem[..]), mem[..], p, a, i)
      {
        ghost var m := mem[..];
        DataWrite(m, h, l, a, a + i, mem[p + i]);
        assert SameBytes(old(mem[..]), m, p, n);
        assert Word(m, p + i) == Word(old(mem[..]), p + i);
        mem[a + i] := mem[p + i];
        CopiedMore(old(mem[..]), m, mem[..], p, a, i);
        i := i + 1;
      }
    }

    /** Moves the contents of `p` to a new block. */
    method MoveBlock(p: nat, need: nat, size: nat, ghost h: Heap, ghost l: map<nat, nat>) returns (a: nat)
      requires Stands(h, l) && Good(h) && UsedAt(h, p) && p in l && l[p] == size <= need && need % 8 == 0
          && need >= MIN_BLOCK
      modifies this`brk, this`lastBlock, this`splitSide, mem
      ensures a == Move(h, p, need, mem.Length).1
      ensures a == 0 ==> Move(h, p, need, mem.Length).0 == h && Stands(h, l) && mem[..] == old(mem[..])
      ensures a != 0 ==> Stands(Move(h, p, need, mem.Length).0, (l - {p})[a := size])
      ensures a != 0 ==> Same(old(mem[..]), mem[..], l - {p}) && Copied(old(mem[..]), mem[..], p, a, size)
    {
      MoveNeeds(h, p, need);
      a := MallocBlock(need, h, l);
      if a == 0 { return; }
      ghost var h1, m := RmHeap.Malloc(h, need).0, mem[..];
      CopyBytes(a, p, size, h1, l);
      ghost var l', m' := (l - {p})[a := size], mem[..];
      Reguard(m', h1, {}, l, l');
      FreeBlock(p, h1, l');
      MoveSame(old(mem[..]), m, m', mem[..], l, p, a, size);
    }

    /** Resizes `p`, of `was` bytes, to `need`, taking in the block after it if that is free. */
    method Enlarge(p: nat, need: nat, was: nat, ghost h: Heap, ghost l: map<nat, nat>) returns (a: nat)
      requires Stands(h, l) && Good(h) && UsedAt(h, p) && p in l && l[p] == was == h.blocks[p].size < need
          && need % 8 == 0
      requires need >= MIN_BLOCK
      modifies this`brk, this`lastBlock, this`splitSide, mem
      ensures a == RmHeap.Regrow(JoinNext(h, p), p, need, was, mem.Length).1
      ensures Stands(RmHeap.Regrow(JoinNext(h, p), p, need, was, mem.Length).0, if a == 0 then l
          else (l - {p})[a := was])
      ensures Same(old(mem[..]), mem[..], l - {p}) && Copied(old(mem[..]), mem[..], p, if a == 0 then p else a, was)
    {
      FreeFacts(h, p);
      UsedIsUnlisted(h, p);
      JoinNextInv(h, p);
      JoinNextLive(h, p);
      CoalesceForward(p, h, {}, l);
      ghost var m := mem[..];
      a := EnlargeJoined(p, need, was, JoinNext(h, p), l);
      ThenCopied(old(mem[..]), m, mem[..], l, p, if a == 0 then p else a, was);
    }

    /** The rest: if that is not enough, `p` grows at the end of the heap or moves elsewhere. */
    method EnlargeJoined(p: nat, need: nat, was: nat, ghost h: Heap, ghost l: map<nat, nat>) returns (a: nat)
      requires Stands(h, l) && Good(h) && UsedAt(h, p) && p in l && l[p] == was <= h.blocks[p].size && was < need
          && need % 8 == 0
      requires need >= MIN_BLOCK
      modifies this`brk, this`lastBlock, this`splitSide, mem
      ensures a == RmHeap.Regrow(h, p, need, was, mem.Length).1
      ensures Stands(RmHeap.Regrow(h, p, need, was, mem.Length).0, if a == 0 then l else (l - {p})[a := was])
      ensures Same(old(mem[..]), mem[..], l - {p}) && Copied(old(mem[..]), mem[..], p, if a == 0 then p else a, was)
    {
      PutBack(l, p);
      NoZero(h);
      ReadHeader(mem[..], h, {}, l, p);
      var size := SizeBits(mem[p - HEADER]);
      a := p;
      if size > was {
        AnnounceAgain(h, p);
        AnnounceToNext(p, false, h, {}, l);
      }
      if size < need {
        if p == lastBlock {
          var g := Pages(need - was);
          PagesFit(need - was);
          if brk + g > mem.Length { a := 0; } else { ExtendBlock(p, need, g, h, l); }
        } else {
          a := MoveBlock(p, need, was, h, l);
          if a != 0 { return; }
        }
      }
      KeptInPlace(old(mem[..]), mem[..], l, p);
    }

    /** What resizing block `p` of heap `h` leads to. */
    ghost predicate Reallocated(h: Heap, p: nat, size: nat, h': Heap, a: nat) {
      p in h.blocks && |h.lists| == LISTS && (h', a) == RmHeap.Realloc(h, p, size, mem.Length)
    }

    /** Resizes block `p`, keeping its contents. The result is 0 if memory is exhausted, after freeing the block for
        size 0, and for the null pointer, which leaves all as it is. */
    method Realloc(p: nat, size: nat) returns (a: nat)
      requires Valid() && (p == 0 || UsedAt(heap, p))
      modifies this, mem
      ensures Valid()
      ensures p == 0 ==> a == 0 && heap == old(heap) && mem[..] == old(mem[..])
      ensures p != 0 ==> UsedAt(old(heap), p) && Reallocated(old(heap), p, size, heap, a)
      ensures p != 0 ==> Same(old(mem[..]), mem[..], Live(old(heap)) - {p})
      ensures p != 0 && size > 0 ==> Copied(old(mem[..]), mem[..], p, if a == 0 then p else a, SizeAt(old(heap), p))
      ensures p != 0 && size > 0 ==> ResizeDoes(old(heap), p, Round(size), mem.Length, heap, a)
      ensures p != 0 && size == 0 ==> a == 0 && Live(heap) == Live(old(heap)) - {p} && brk == old(brk)
    {
      if p == 0 { return 0; }
      a := ReallocUsed(p, size);
    }

    method ReallocUsed(p: nat, size: nat) returns (a: nat)
      requires Valid() && UsedAt(heap, p)
      modifies this, mem
      ensures Valid() && Reallocated(old(heap), p, size, heap, a)
      ensures Same(old(mem[..]), mem[..], Live(old(heap)) - {p})
      ensures size > 0 ==> Copied(old(mem[..]), mem[..], p, if a == 0 then p else a, SizeAt(old(heap), p))
      ensures size > 0 ==> ResizeDoes(old(heap), p, Round(size), mem.Length, heap, a)
      ensures size == 0 ==> a == 0 && Live(heap) == Live(old(heap)) - {p} && brk == old(brk)
    {
      ReallocMeans(heap, p, size, mem.Length);
      if size == 0 {
        FreeUsed(p);
        a := 0;
      } else {
        ghost var h := heap;
        a := ReallocUp(p, size, h, Live(h));
        ReallocExactly(h, p, size, mem.Length, Round(size), heap, a);
      }
    }

    method ReallocUp(p: nat, size: nat, ghost h: Heap, ghost l: map<nat, nat>) returns (a: nat)
      requires Valid() && h == heap && l == Live(h) && UsedAt(h, p) && size > 0
      requires var (h', a') := RmHeap.Realloc(h, p, size, mem.Length); Resized(h, p, size, h', a')
      modifies this, mem
      ensures Valid() && Reallocated(h, p, size, heap, a) && Same(old(mem[..]), mem[..], l - {p})
      ensures Copied(old(mem[..]), mem[..], p, if a == 0 then p else a, SizeAt(h, p))
    {
      RoundFits(size);
      var need := Round(size);
      ReadHeader(mem[..], h, {}, l, p);
      var was := SizeBits(mem[p - HEADER]);
      a := p;
      if need > was {
        a := Enlarge(p, need, was, h, l);
        heap := RmHeap.Realloc(h, p, size, mem.Length).0;
        GuardsLive(heap, mem[..], if a == 0 then l else (l - {p})[a := was]);
      }
    }

    /** A client writes a byte of a block it was given. */
    method Write(p: nat, i: nat, v: nat)
      requires Valid() && UsedAt(heap, p) && i < SizeAt(heap, p)
      modifies mem
      ensures Valid() && Byte(mem[..], p, i) == v && Same(old(mem[..]), mem[..], Live(heap) - {p})
    {
      Reguard(mem[..], heap, {}, Live(heap), Live(heap) - {p});
      DataWrite(mem[..], heap, Live(heap) - {p}, p, p + i, v);
      mem[p + i] := v;
      Reguard(mem[..], heap, {}, Live(heap) - {p}, Live(heap));
    }

    /** The heap at start: list heads, all empty, and one free block. Fresh memory is zero. */
    constructor (limit: nat)
      requires limit >= INITIAL
      ensures Valid() && heap == InitHeap() && fresh(mem) && mem.Length == limit
      ensures brk == INITIAL && !splitSide && Live(heap) == map[] && heap.blocks.Keys == {FIRST}
    {
      mem := new nat[limit](_ => 0);
      brk, lastBlock, splitSide := INITIAL, FIRST, false;
      heap := InitHeap();
      new;
      ghost var h0 := BareHeap();
      BareGood();
      mem[FIRST - HEADER] := INITIAL - BASE - HEADER;
      BareHolds(mem[..], h0);
      MarkAsFree(FIRST, h0, {}, map[]);
      assert {} - {FIRST} == {};
      MarkedUnlisted(h0, FIRST);
      InList(FIRST, MarkFree(h0, FIRST), {}, map[]);
      BareToInit();
      InitGood();
      Reguard(mem[..], heap, {}, map[], Live(heap));
    }
  }

  /** Block `p` may be split so that `need` bytes are kept. */
  ghost predicate Splittable(h: Heap, p: nat, need: nat, l: map<nat, nat>) {
    && |h.lists| == LISTS && p in h.blocks && Splits(h, p, need) && need % 8 == 0 && need >= MIN_BLOCK
    && Unlisted(h, p) && NextNotFree(h, p) && (p in l ==> UsedAt(h, p) && l[p] <= need)
  }

  lemma NextMarked(h: Heap, r: nat)
    requires r in h.blocks && NextNotFree(h, r) && |h.lists| == LISTS && Unlisted(h, r)
    ensures var h1 := MarkFree(h, r); FreeAt(h1, r) && !FreeAt(h1, Next(h1, r)) && Unlisted(h1, r) && h1.brk == h.brk
  {
    var h1 := MarkFree(h, r);
    forall i: nat | i < LISTS ensures r !in h1.lists[i] { assert r !in h.lists[i]; }
  }

  lemma CutShape(h: Heap, p: nat, first: nat, r: nat, second: nat)
    requires Geo(h) && p in h.blocks && first % 8 == 0 && second % 8 == 0 && MIN_BLOCK <= first && MIN_BLOCK <= second
    requires r == p + first + HEADER && r + second == p + h.blocks[p].size
    ensures r !in h.blocks
    ensures forall b: Block, c: Block {:trigger Cut(h, p, b, r, c)} :: b.size == first && c.size == second ==>
        Geo(Cut(h, p, b, r, c))
  {
    assert BlockOk(h, p);
    CutGeo(h, p, r);
    forall b: Block, c: Block | b.size == first && c.size == second ensures Geo(Cut(h, p, b, r, c)) {
      SamePlacesGeo(CutAt(h, p, r), Cut(h, p, b, r, c));
    }
  }

  lemma RightCutShape(h: Heap, p: nat, need: nat, r: nat, h1: Heap)
    requires |h.lists| == LISTS && p in h.blocks && Splits(h, p, need) && need >= MIN_BLOCK
        && r == p + need + HEADER && NextNotFree(h, p)
    requires h1 == Cut(h, p, h.blocks[p].(size := need), r, Block(h.blocks[p].size - need - HEADER, false, false))
    requires r !in h.blocks && Unlisted(h, p) && ListsIn(h)
    ensures RightCut(h, p, need) == if p == h.last && h.blocks[p].free then Announce(h1, p, true) else h1
    ensures var g := RightCut(h, p, need);
        r in g.blocks && Unlisted(g, r) && NextNotFree(g, r) && g.brk == h.brk && r != p
  {
    UsedUnlisted(h, r);
    var g := RightCut(h, p, need);
    forall i: nat | i < LISTS ensures r !in g.lists[i] { assert r !in h.lists[i]; }
    assert Next(g, r) == Next(h, p);
  }

  lemma SideLoose(m: seq<nat>, h: Heap, l: map<nat, nat>, a: nat, side: bool)
    requires Holds(m, h, {}, l)
    ensures Holds(m, h.(side := side), {a}, l)
  {
    Loosen(m, h, {}, l, {a});
    SideHolds(m, h, {a}, l, side);
  }

  lemma SideHolds(m: seq<nat>, h: Heap, y: set<nat>, l: map<nat, nat>, side: bool)
    requires Holds(m, h, y, l)
    ensures Holds(m, h.(side := side), y, l)
  {
    var h' := h.(side := side);
    SamePlacesGeo(h, h');
    forall i: nat | i < LISTS ensures LinksOk(m, i, h'.lists[i]) { assert LinksOk(m, i, h.lists[i]); }
    forall i: nat, q: nat | i < LISTS && q in h'.lists[i] ensures EntryIn(h', i, q) { assert EntryIn(h, i, q); }
    forall p: nat | p in h'.blocks ensures HeaderOk(m, h', p) && EndOk(m, h', p, y) {
      assert HeaderOk(m, h, p) && EndOk(m, h, p, y);
    }
  }

  lemma Rounded(size: nat)
    requires size % 8 == 0 && size >= MIN_BLOCK
    ensures Round(size) == size
  {
  }

  /** Where the words that lead through list `i` are, and what they say. */
  lemma SlotReads(m: seq<nat>, h: Heap, y: set<nat>, l: map<nat, nat>, i: nat, k: nat)
    requires Holds(m, h, y, l) && i < LISTS && k <= |h.lists[i]|
    ensures Slot(h, i, k) < |m| && m[Slot(h, i, k)] == LinkTo(h.lists[i], k) && 4 * i < |m|
    ensures k > 0 ==> h.lists[i][k - 1] != 0
    ensures k < |h.lists[i]| ==> h.lists[i][k] != 0 && h.lists[i][k] < |m|
  {
    var c := h.lists[i];
    assert BlockOk(h, FIRST) && LinksOk(m, i, c);
    if k > 0 {
      assert c[k - 1] in c && EntryIn(h, i, c[k - 1]);
      ReadHeader(m, h, y, l, c[k - 1]);
      assert Word(m, c[k - 1]) == LinkTo(c, k);
    }
    if k < |c| {
      assert c[k] in c && EntryIn(h, i, c[k]);
      ReadHeader(m, h, y, l, c[k]);
    }
  }

  lemma ListedBlock(m: seq<nat>, h: Heap, y: set<nat>, l: map<nat, nat>, i: nat, k: nat)
    requires Holds(m, h, y, l) && i < LISTS && k < |h.lists[i]|
    ensures var p := h.lists[i][k];
            && FreeAt(h, p) && HEADER < p < |m| && SizeBits(m[p - HEADER]) == h.blocks[p].size
            && m[p] == LinkTo(h.lists[i], k + 1)
  {
    var p := h.lists[i][k];
    assert p in h.lists[i] && EntryIn(h, i, p);
    SlotReads(m, h, y, l, i, k + 1);
    ReadHeader(m, h, y, l, p);
  }

  lemma {:induction false} FindIs(c: seq<nat>, p: nat, k: nat)
    requires k < |c| && c[k] == p && NoTwice(c)
    ensures Find(c, p) == k
  {
    var f := Find(c, p);
    assert f < |c| && c[f] == p;
  }

  lemma JoinedUnlisted(h: Heap, p: nat, n: nat)
    requires p in h.blocks && n in h.blocks && |h.lists| == LISTS && Unlisted(h, p)
    ensures Unlisted(Join(h, p, n), p)
  {
    forall i: nat | i < LISTS ensures p !in Join(h, p, n).lists[i] { assert p !in h.lists[i]; }
  }

  lemma StillUnlisted(h: Heap, n: nat, p: nat)
    requires |h.lists| == LISTS && Unlisted(h, p) && n in h.lists[ListOf(h, n)]
    ensures Unlisted(RmHeap.OutList(h, n), p)
  {
    var c := h.lists[ListOf(h, n)];
    forall i: nat | i < LISTS ensures p !in RmHeap.OutList(h, n).lists[i] {
      assert p !in h.lists[i];
      assert p in Delete(c, Find(c, n)) ==> p in c;
    }
  }

  /** The block before `p` is free, and in its list. */
  ghost predicate PrevListed(h: Heap, p: nat)
    requires HasBefore(h, p) && |h.lists| == LISTS
  {
    var q := PrevOf(h, p);
    FreeAt(h, q) && q in h.lists[ListOf(h, q)]
  }

  /** The word in front of the header of `p` is the end pointer of the free block before it. */
  lemma PrevPointer(m: seq<nat>, h: Heap, y: set<nat>, l: map<nat, nat>, p: nat)
    requires Holds(m, h, y, l) && p in h.blocks && HasBefore(h, p) && FreeAt(h, PrevOf(h, p)) && PrevOf(h, p) !in y
    ensures 12 <= p < |m| && m[p - 12] == PrevOf(h, p) && Before(h, PrevOf(h, p), p)
    ensures PrevOf(h, p) != p && PrevOf(h, p) !in l && (Backward(h, p) ==> Head(h, p) == PrevOf(h, p))
  {
    var q := PrevOf(h, p);
    assert Before(h, q, p) && EndOk(m, h, q, y);
    ReadHeader(m, h, y, l, p);
    ReadHeader(m, h, y, l, q);
  }

  lemma PrevStays(h: Heap, g: Heap, p: nat)
    requires Geo(h) && HasBefore(h, p) && |h.lists| == LISTS && PrevListed(h, p) && g.lists == h.lists
    requires var q := PrevOf(h, p); q in g.blocks && g.blocks[q] == h.blocks[q]
    requires forall a: nat :: Before(g, a, p) ==> Before(h, a, p)
    ensures HasBefore(g, p) && PrevListed(g, p)
  {
    assert Before(g, PrevOf(h, p), p);
    PrevUnique(h, p);
  }

  lemma LeftCutShape(h: Heap, p: nat, need: nat, r: nat)
    requires Geo(h) && |h.lists| == LISTS && p in h.blocks && Splits(h, p, need) && need >= MIN_BLOCK
        && r == p + h.blocks[p].size - need
    requires Unlisted(h, p) && r !in h.blocks
    ensures var g := LeftCut(h, p, need);
            && g == Cut(h, p, h.blocks[p].(size := h.blocks[p].size - need - HEADER), r, Block(need, false, false))
            && p in g.blocks && Unlisted(g, p) && g.brk == h.brk && Backward(g, p) == Backward(h, p)
            && (HasBefore(h, p) && PrevListed(h, p) ==> HasBefore(g, p) && PrevListed(g, p))
  {
    var g := LeftCut(h, p, need);
    forall i: nat | i < LISTS ensures p !in g.lists[i] { assert p !in h.lists[i]; }
    if HasBefore(h, p) && PrevListed(h, p) {
      assert Before(h, PrevOf(h, p), p);
      PrevStays(h, g, p);
    }
  }

  /** Marking `p` as free does not change the block before it. */
  lemma MarkedPrev(h: Heap, p: nat)
    requires Geo(h) && |h.lists| == LISTS && p in h.blocks && Unlisted(h, p)
    ensures var h1 := MarkFree(h, p);
            && FreeAt(h1, p) && Unlisted(h1, p) && h1.brk == h.brk && Backward(h1, p) == Backward(h, p)
            && (HasBefore(h, p) && PrevListed(h, p) ==> HasBefore(h1, p) && PrevListed(h1, p))
  {
    var h1 := MarkFree(h, p);
    forall i: nat | i < LISTS ensures p !in h1.lists[i] { assert p !in h.lists[i]; }
    if HasBefore(h, p) && PrevListed(h, p) {
      assert Before(h, PrevOf(h, p), p);
      PrevStays(h, h1, p);
    }
  }

  lemma GrowIs(h: Heap, g: nat, h1: Heap)
    requires Geo(h) && g >= HEADER && h.brk + HEADER !in h.blocks
    requires h1 == SetBlock(h, h.brk + HEADER, Block(g - HEADER, false, false)).(brk := h.brk + g,
        last := h.brk + HEADER)
    ensures h.last in h1.blocks && h1.blocks[h.last] == h.blocks[h.last]
    ensures GrowBy(h, g) == if FreeAt(h, h.last) then Announce(h1, h.last, true) else h1
  {
    var p := h.brk + HEADER;
    assert Next(h1, h.last) == p && h1.blocks[p] == Block(g - HEADER, false, false);
    assert h1.blocks[p := Block(g - HEADER, false, true)] == h.blocks[p := Block(g - HEADER, false, true)];
  }

  /** What the block that serves a request is like. */
  lemma SourceReady(h: Heap, need: nat, l: map<nat, nat>)
    requires Good(h) && Guards(h, l) && need >= MIN_BLOCK && need % 8 == 0
    ensures var (g, p, grown) := Source(h, need);
            && p in g.blocks && p !in l && g.side == h.side && (FreeAt(g, p) ==> g.last == h.last)
            && (Splits(g, p, need) ==> Splittable(g, p, need, l))
            && (grown && Backward(g, p) ==> HasBefore(g, p) && PrevListed(g, p))
  {
    var (g, p, grown) := Source(h, need);
    match Search(h, need)
    case At(i, k) =>
      TakeInv(h, i, k);
      TakenAlone(h, p);
      TakeUnlisted(h, i, k);
    case Nowhere =>
      GrowInv(h, need);
      NotBackward(g, p);
      UsedIsUnlisted(g, p);
      NoZero(g);
  }

  lemma TakeUnlisted(h: Heap, i: nat, k: nat)
    requires Good(h) && i < LISTS && k < |h.lists[i]|
    ensures Unlisted(Take(h, i, k), h.lists[i][k])
  {
    TakeInv(h, i, k);
    var g, p := Take(h, i, k), h.lists[i][k];
    forall j: nat | j < LISTS ensures p !in g.lists[j] {
      assert ListOk(g, j, p) && (p in g.lists[j] ==> EntryOk(g, j, p, p));
    }
  }

  lemma UsedIsUnlisted(h: Heap, p: nat)
    requires Good(h) && UsedAt(h, p)
    ensures Unlisted(h, p)
  {
    forall i: nat | i < LISTS ensures p !in h.lists[i] {
      assert ListOk(h, i, 0) && (p in h.lists[i] ==> EntryOk(h, i, p, 0));
    }
  }

  /** `last` after a split. */
  lemma SplitLast(h: Heap, p: nat, need: nat, join: bool)
    requires p in h.blocks && |h.lists| == LISTS && need >= MIN_BLOCK && NextNotFree(h, p)
    ensures RmHeap.Split(h, p, need, join).last == if Splits(h, p, need) then Max(h.last, CutPoint(h, p, need))
        else h.last
  {
    if Splits(h, p, need) {
      if h.side {
        var r := p + h.blocks[p].size - need;
        assert r > p;
      } else {
        var r := p + need + HEADER;
        var g := RightCut(h, p, need);
        assert Next(g, r) == Next(h, p);
        MarkedNext(g, r);
      }
    }
  }

  /** What is left to do after the split: marking the block as used. */
  lemma HandLast(h: Heap, need: nat)
    requires Good(h) && need >= MIN_BLOCK && need % 8 == 0
    ensures var (g, p, grown) := Source(h, need);
            p in g.blocks && NextNotFree(g, p) && (grown ==> h.last < p && g.last == p) && (!grown ==> g.last == h.last)
            && (Splits(g, p, need) ==> p < CutPoint(g, p, need)) && Kept(g, p, need) >= p
            && (Splits(g, p, need) ==> Kept(g, p, need) <= CutPoint(g, p, need))
                && (!Splits(g, p, need) ==> Kept(g, p, need) == p)
  {
    SourceReady(h, need, map[]);
    ServedInv(h, need);
    var (g, p, grown) := Source(h, need);
    if Search(h, need).At? {
      TakenAlone(h, p) by { TakeInv(h, Search(h, need).i, Search(h, need).k); }
    } else {
      GrowInv(h, need);
      assert BlockOk(h, h.last);
    }
  }

  lemma HandFacts(h: Heap, a: nat)
    requires Good(Hand(h, a)) && UsedAt(Hand(h, a), a) && |h.lists| == LISTS
    ensures a in h.blocks && Unlisted(h, a)
  {
    UsedIsUnlisted(Hand(h, a), a);
    forall i: nat | i < LISTS ensures a !in h.lists[i] { assert a !in Hand(h, a).lists[i]; }
  }

  lemma LastHolds(m: seq<nat>, h: Heap, y: set<nat>, l: map<nat, nat>, h': Heap)
    requires Holds(m, h, y, l) && h' == h.(last := h'.last) && Geo(h')
    ensures Holds(m, h', y, l)
  {
    forall i: nat | i < LISTS ensures LinksOk(m, i, h'.lists[i]) { assert LinksOk(m, i, h.lists[i]); }
    forall i: nat, q: nat | i < LISTS && q in h'.lists[i] ensures EntryIn(h', i, q) { assert EntryIn(h, i, q); }
    forall p: nat | p in h'.blocks ensures HeaderOk(m, h', p) && EndOk(m, h', p, y) {
      assert HeaderOk(m, h, p) && EndOk(m, h, p, y);
    }
  }

  lemma MarkedUnlisted(h: Heap, p: nat)
    requires p in h.blocks && |h.lists| == LISTS && Unlisted(h, p)
    ensures FreeAt(MarkFree(h, p), p) && Unlisted(MarkFree(h, p), p)
  {
    forall i: nat | i < LISTS ensures p !in MarkFree(h, p).lists[i] { assert p !in h.lists[i]; }
  }

  /** What freeing relies on. */
  lemma FreeFacts(h: Heap, p: nat)
    requires Good(h) && UsedAt(h, p)
    ensures FreeAt(h, Next(h, p)) ==> Next(h, p) in h.lists[ListOf(h, Next(h, p))]
    ensures var h1 := JoinNext(h, p);
            && UsedAt(h1, p) && Unlisted(h1, p) && h1.brk == h.brk && h1.side == h.side
            && (Backward(h1, p) ==> HasBefore(h1, p) && PrevListed(h1, p))
            && h1.last == (if FreeAt(h, Next(h, p)) && h.last == Next(h, p) then p else h.last)
            && Retire(h1, p).last == (if h1.last == p then Head(h1, p) else h1.last)
            && Retire(h1, p).brk == h.brk && Retire(h1, p).side == h.side
  {
    NoZero(h);
    JoinNextInv(h, p);
    var h1 := JoinNext(h, p);
    UsedIsUnlisted(h1, p);
    NotBackward(h1, p);
    NoZero(h1);
    RetireFacts(h1, p);
  }

  lemma RetireFacts(h: Heap, p: nat)
    requires p in h.blocks && |h.lists| == LISTS
    ensures Retire(h, p).last == (if h.last == p then Head(h, p) else h.last)
    ensures Retire(h, p).brk == h.brk && Retire(h, p).side == h.side
  {
  }

  /** Everything a request relies on once its block has been found. */
  lemma MallocPlan(h: Heap, need: nat, l: map<nat, nat>, g: Heap, p: nat, grown: bool, s: Heap, a: nat)
    requires Good(h) && Guards(h, l) && need >= MIN_BLOCK && need % 8 == 0 && (g, p, grown) == Source(h, need)
    requires p in g.blocks && |g.lists| == LISTS && s == RmHeap.Split(g, p, need, grown) && a == Kept(g, p, need)
    ensures p !in l && g.side == h.side && (FreeAt(g, p) ==> g.last == h.last)
    ensures Splits(g, p, need) ==> Splittable(g, p, need, l)
    ensures grown && Backward(g, p) ==> HasBefore(g, p) && PrevListed(g, p)
    ensures s.brk == g.brk && Max(if Splits(g, p, need) then Max(h.last, CutPoint(g, p, need)) else h.last, a) ==
        Max(s.last, a)
    ensures Round(need) == need && Source(h, need).1 in Source(h, need).0.blocks
    ensures var (h', a') := RmHeap.Malloc(h, need); h' == Hand(s, a) && a' == a && Good(h') && UsedAt(h', a) && a != 0
  {
    Rounded(need);
    SourceReady(h, need, l);
    HandLast(h, need);
    MallocMeans(h, need);
    SplitLast(g, p, need, grown);
    NoZero(RmHeap.Malloc(h, need).0);
    SplitBrk(g, p, need, grown);
  }

  /** A client may write what it likes into a block in use. */
  lemma DataWrite(m: seq<nat>, h: Heap, l: map<nat, nat>, p: nat, w: nat, v: nat)
    requires Holds(m, h, {}, l) && UsedAt(h, p) && p !in l && p <= w < p + h.blocks[p].size
    ensures w < |m| && Holds(m[w := v], h, {}, l) && Same(m, m[w := v], l)
  {
    ReadHeader(m, h, {}, l, p);
    assert HeaderOk(m, h, p);
    assert h.blocks[p := h.blocks[p]] == h.blocks;
    UsedUnlisted(h, p);
    WriteIn(m, h, {}, l, p, w, v, h, {});
  }

  lemma ExtendFacts(h: Heap, p: nat, g: nat, need: nat, h2: Heap)
    requires Good(h) && UsedAt(h, p) && p == h.last && g % 8 == 0 && h2 == Extend(h, p, g).(side := false)
    requires MIN_BLOCK <= need <= h.blocks[p].size + g && need % 8 == 0
    ensures Good(h2) && UsedAt(h2, p) && Unlisted(h2, p) && NextNotFree(h2, p) && h2.last == h.last
    ensures var s := RmHeap.Split(h2, p, need, false);
            Good(s) && UsedAt(s, p) && s.brk == h.brk + g
                && s.last == if Splits(h2, p, need) then Max(h2.last, CutPoint(h2, p, need)) else h2.last
  {
    ExtendInv(h, p, g);
    SideInv(Extend(h, p, g), false);
    UsedIsUnlisted(h2, p);
    var s := RmHeap.Split(h2, p, need, false);
    KeptMeans(h2, p, need, false, s, p);
    SplitBrk(h2, p, need, false);
    SplitLast(h2, p, need, false);
  }

  lemma CopiedMore(m0: seq<nat>, m: seq<nat>, m': seq<nat>, p: nat, a: nat, i: nat)
    requires Copied(m0, m, p, a, i) && a + i < |m| && m' == m[a + i := Word(m0, p + i)]
    ensures Copied(m0, m', p, a, i + 1)
  {
    forall j: nat | j < i + 1 ensures Byte(m', a, j) == Byte(m0, p, j) {
      assert j < i ==> Byte(m, a, j) == Byte(m0, p, j);
    }
  }

  lemma SameCopied(m: seq<nat>, m': seq<nat>, p: nat, n: nat)
    requires SameBytes(m, m', p, n)
    ensures Copied(m, m', p, p, n)
  {
    forall i: nat | i < n ensures Byte(m', p, i) == Byte(m, p, i) { assert Word(m', p + i) == Word(m, p + i); }
  }

  /** What moving `p` to `a` keeps, from the state before to the one after `p` has been freed. */
  lemma MoveSame(m0: seq<nat>, m1: seq<nat>, m2: seq<nat>, m3: seq<nat>, l: map<nat, nat>, p: nat, a: nat, size: nat)
    requires Same(m0, m1, l) && Same(m1, m2, l) && Same(m2, m3, (l - {p})[a := size]) && p in l && a !in l
        && l[p] == size
    requires Copied(m1, m2, p, a, size)
    ensures Same(m0, m3, l - {p}) && Copied(m0, m3, p, a, size)
  {
    forall q: nat | q in l - {p} ensures SameBytes(m0, m3, q, l[q]) {
      assert SameBytes(m0, m1, q, l[q]) && SameBytes(m1, m2, q, l[q]) && q in (l - {p})[a := size]
          && SameBytes(m2, m3, q, l[q]);
    }
    assert a in (l - {p})[a := size];
    SameCopied(m2, m3, a, size);
    SameCopied(m0, m1, p, size);
    forall i: nat | i < size ensures Byte(m3, a, i) == Byte(m0, p, i) {
      assert Byte(m3, a, i) == Byte(m2, a, i) == Byte(m1, p, i) == Byte(m0, p, i);
    }
  }

  lemma PutBack(l: map<nat, nat>, p: nat)
    requires p in l
    ensures (l - {p})[p := l[p]] == l
  {
  }

  lemma AnnounceAgain(h: Heap, p: nat)
    requires Good(h) && UsedAt(h, p)
    ensures Announce(h, p, false) == h
  {
    NoZero(h);
    assert FlagsOk(h, p, 0, 0);
    var n := Next(h, p);
    assert n in h.blocks ==> h.blocks[n := h.blocks[n].(pf := false)] == h.blocks;
  }

  lemma KeptInPlace(m: seq<nat>, m': seq<nat>, l: map<nat, nat>, p: nat)
    requires Same(m, m', l) && p in l
    ensures Same(m, m', l - {p}) && Copied(m, m', p, p, l[p])
  {
    SameCopied(m, m', p, l[p]);
    forall q: nat | q in l - {p} ensures SameBytes(m, m', q, l[q]) { assert q in l; }
  }

  lemma ThenCopied(m0: seq<nat>, m1: seq<nat>, m2: seq<nat>, l: map<nat, nat>, p: nat, a: nat, n: nat)
    requires Same(m0, m1, l) && Same(m1, m2, l - {p}) && p in l && l[p] == n && Copied(m1, m2, p, a, n)
    ensures Same(m0, m2, l - {p}) && Copied(m0, m2, p, a, n)
  {
    KeptInPlace(m0, m1, l, p);
    SameTrans(m0, m1, m2, l - {p});
    forall i: nat | i < n ensures Byte(m2, a, i) == Byte(m0, p, i) {
      assert Byte(m2, a, i) == Byte(m1, p, i) == Byte(m0, p, i);
    }
  }

  lemma GuardsLive(h: Heap, m: seq<nat>, l: map<nat, nat>)
    requires Holds(m, h, {}, l)
    ensures Holds(m, h, {}, Live(h))
  {
    Reguard(m, h, {}, l, Live(h));
  }

  // ---- the heap at start -------------------------------------------------------------------------------

  /** The heap before its one block is marked as free. */
  function BareHeap(): Heap {
    Heap(map[FIRST := Block(INITIAL - BASE - HEADER, false, false)], seq(LISTS, i => []), FIRST, false, INITIAL)
  }

  lemma BareGood()
    ensures Geo(BareHeap()) && ListsIn(BareHeap()) && Unlisted(BareHeap(), FIRST)
  {
    assert BareHeap().blocks.Keys == {FIRST};
  }

  lemma BareHolds(m: seq<nat>, h: Heap)
    requires h == BareHeap() && |m| >= INITIAL && (forall w: nat :: w < |m| && w != FIRST - HEADER ==> m[w] == 0)
    requires m[FIRST - HEADER] == INITIAL - BASE - HEADER
    ensures Holds(m, h, {}, map[])
  {
    BareGood();
    forall i: nat | i < LISTS ensures LinksOk(m, i, h.lists[i]) { assert m[4 * i] == 0; }
  }

  lemma BareToInit()
    ensures var h := MarkFree(BareHeap(), FIRST); |h.lists| == LISTS && RmHeap.InList(h, FIRST) == InitHeap()
  {
    var h := MarkFree(BareHeap(), FIRST);
    assert Next(BareHeap(), FIRST) !in BareHeap().blocks;
    assert h.blocks == InitHeap().blocks;
    var i := Index(INITIAL - BASE - HEADER);
    assert h.lists == seq(LISTS, j => []) && h.lists[i] == [] && ListOf(h, FIRST) == i;
    assert Insert([], 0, FIRST) == [FIRST];
    assert RmHeap.InList(h, FIRST) == SetList(h, i, [FIRST]);
    assert RmHeap.InList(h, FIRST).lists == InitHeap().lists;
  }
}
