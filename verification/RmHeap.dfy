/** The heap of the reactive memory allocator as a value: the blocks that tile it, with the state flags
    in their headers, and the lists of free blocks by size class. Addresses are byte offsets from the
    start of the heap, and a block is named by the address of its payload. */
module RmHeap {

  /** Sizes in bytes, for 32-bit words. */
  const HEADER: nat := 8
  const MIN_BLOCK: nat := 8
  const MAX_FIXED: nat := 512
  const MIN_EXP: nat := 9
  const MAX_EXP: nat := 25
  const GROWSIZE: nat := 4096
  const LISTS: nat := 81
  const BASE: nat := 328
  const FIRST: nat := 336
  const INITIAL: nat := 8696

  /** A header: payload size, is the block free, is the block before it free. */
  datatype Block = Block(size: nat, free: bool, pf: bool)

  datatype Heap = Heap(blocks: map<nat, Block>, lists: seq<seq<nat>>, last: nat, side: bool, brk: nat)

  // ---- sizes -----------------------------------------------------------------------------------

  function Round(size: nat): nat {
    if size < MIN_BLOCK then MIN_BLOCK else (size + 7) / 8 * 8
  }

  /** The least multiple of the page size that is not less than `n`. */
  function Pages(n: nat): nat { (n + GROWSIZE - 1) / GROWSIZE * GROWSIZE }

  function Pow2(e: nat): nat { if e == 0 then 1 else 2 * Pow2(e - 1) }

  /** The exponent of the class of a large size, counting from `e`. */
  function ExpFrom(size: nat, e: nat): (r: nat)
    requires e <= MAX_EXP
    ensures e <= r <= MAX_EXP
    decreases MAX_EXP - e
  {
    if e == MAX_EXP || 2 * Pow2(e) >= size then e else ExpFrom(size, e + 1)
  }

  /** The list for blocks of a (rounded) size. */
  function Index(size: nat): (i: nat)
    requires size >= MIN_BLOCK
    ensures i < LISTS
  {
    if size <= MAX_FIXED then (size - MIN_BLOCK) / 8 else 64 + ExpFrom(size, MIN_EXP) - MIN_EXP
  }

  lemma {:induction false} ExpFromFits(size: nat, e: nat)
    requires e <= MAX_EXP
    ensures ExpFrom(size, e) < MAX_EXP ==> size <= 2 * Pow2(ExpFrom(size, e))
    ensures forall f: nat :: e <= f < ExpFrom(size, e) ==> 2 * Pow2(f) < size
    decreases MAX_EXP - e
  {
    if e < MAX_EXP && 2 * Pow2(e) < size { ExpFromFits(size, e + 1); }
  }

  /** Classes are ordered: a larger size is never in an earlier list, and small classes hold one size. */
  lemma IndexOrdered(s: nat, t: nat)
    requires MIN_BLOCK <= s <= t
    ensures Index(s) <= Index(t)
    ensures t <= MAX_FIXED && s % 8 == 0 && t % 8 == 0 && Index(s) == Index(t) ==> s == t
    ensures Index(t) >= 64 <==> t > MAX_FIXED
  {
    ExpFromFits(s, MIN_EXP);
    ExpFromFits(t, MIN_EXP);
    var es, et := ExpFrom(s, MIN_EXP), ExpFrom(t, MIN_EXP);
    assert s > MAX_FIXED && et < es ==> 2 * Pow2(et) < s;
  }

  // ---- blocks ----------------------------------------------------------------------------------

  function Next(h: Heap, p: nat): nat
    requires p in h.blocks
  {
    p + h.blocks[p].size + HEADER
  }

  function SizeAt(h: Heap, p: nat): nat { if p in h.blocks then h.blocks[p].size else 0 }

  predicate FreeAt(h: Heap, p: nat) { p in h.blocks && h.blocks[p].free }

  predicate UsedAt(h: Heap, p: nat) { p in h.blocks && !h.blocks[p].free }

  function SetBlock(h: Heap, p: nat, b: Block): Heap { h.(blocks := h.blocks[p := b]) }

  /** Tells the block after `p` whether `p` is free. */
  function Announce(h: Heap, p: nat, free: bool): Heap
    requires p in h.blocks
  {
    var n := Next(h, p);
    if n in h.blocks then SetBlock(h, n, h.blocks[n].(pf := free)) else h
  }

  function MarkFree(h: Heap, p: nat): Heap
    requires p in h.blocks
  {
    Announce(SetBlock(h, p, h.blocks[p].(free := true)), p, true)
  }

  function MarkUsed(h: Heap, p: nat): Heap
    requires p in h.blocks
  {
    Announce(SetBlock(h, p, h.blocks[p].(free := false)), p, false)
  }

  // ---- lists -----------------------------------------------------------------------------------

  /** The position of the first block of `l` that has at least `size` bytes. */
  function Place(h: Heap, l: seq<nat>, size: nat): (k: nat)
    ensures k <= |l|
  {
    if l == [] || SizeAt(h, l[0]) >= size then 0 else 1 + Place(h, l[1..], size)
  }

  function Insert(l: seq<nat>, k: nat, p: nat): seq<nat>
    requires k <= |l|
  {
    l[..k] + [p] + l[k..]
  }

  function Delete(l: seq<nat>, k: nat): seq<nat>
    requires k < |l|
  {
    l[..k] + l[k + 1..]
  }

  function Find(l: seq<nat>, p: nat): (k: nat)
    ensures k <= |l| && (k < |l| ==> l[k] == p) && (k == |l| <==> p !in l)
  {
    if l == [] || l[0] == p then 0 else 1 + Find(l[1..], p)
  }

  /** The list that block `p` belongs in. */
  function ListOf(h: Heap, p: nat): nat { Index(if SizeAt(h, p) < MIN_BLOCK then MIN_BLOCK else SizeAt(h, p)) }

  function SetList(h: Heap, i: nat, l: seq<nat>): Heap
    requires i < |h.lists|
  {
    h.(lists := h.lists[i := l])
  }

  /** Takes the block at position `k` of list `i` out. */
  function Take(h: Heap, i: nat, k: nat): Heap
    requires i < |h.lists| && k < |h.lists[i]|
  {
    SetList(h, i, Delete(h.lists[i], k))
  }

  function OutList(h: Heap, p: nat): Heap
    requires |h.lists| == LISTS
  {
    var l := h.lists[ListOf(h, p)];
    if p in l then Take(h, ListOf(h, p), Find(l, p)) else h
  }

  /** Large blocks are inserted before the first one that is not smaller, small ones at the front. */
  function InList(h: Heap, p: nat): Heap
    requires |h.lists| == LISTS
  {
    var l := h.lists[ListOf(h, p)];
    SetList(h, ListOf(h, p), Insert(l, if SizeAt(h, p) <= MAX_FIXED then 0 else Place(h, l, SizeAt(h, p)), p))
  }

  // ---- joining neighbours ----------------------------------------------------------------------

  /** Block `n`, right after `p`, becomes part of `p`, whose flags stay. */
  function Join(h: Heap, p: nat, n: nat): Heap
    requires p in h.blocks && n in h.blocks
  {
    var b := h.blocks[p].(size := h.blocks[p].size + HEADER + h.blocks[n].size);
    h.(blocks := (h.blocks - {n})[p := b], last := if h.last == n then p else h.last)
  }

  /** Joins `p` with the block after it if that is free. */
  function JoinNext(h: Heap, p: nat): (h': Heap)
    requires p in h.blocks && |h.lists| == LISTS
    ensures |h'.lists| == LISTS && p in h'.blocks
  {
    var n := Next(h, p);
    if FreeAt(h, n) then Announce(Join(OutList(h, n), p, n), p, h.blocks[p].free) else h
  }

  /** `q` is the block before `p`. */
  predicate Before(h: Heap, q: nat, p: nat) { q in h.blocks && Next(h, q) == p }

  ghost predicate HasBefore(h: Heap, p: nat) { exists q :: Before(h, q, p) }

  ghost function PrevOf(h: Heap, p: nat): (q: nat)
    requires HasBefore(h, p)
    ensures Before(h, q, p)
  {
    var q :| Before(h, q, p); q
  }

  /** Does the header of `p` say that there is a free block before it? */
  predicate Backward(h: Heap, p: nat)
    requires p in h.blocks
  {
    p != FIRST && h.blocks[p].pf
  }

  /** The payload that `p` ends up in when it is joined with the block before it if that is free. */
  ghost function Head(h: Heap, p: nat): nat
    requires p in h.blocks
  {
    if Backward(h, p) && HasBefore(h, p) then PrevOf(h, p) else p
  }

  ghost function JoinPrev(h: Heap, p: nat): (h': Heap)
    requires p in h.blocks && |h.lists| == LISTS
    ensures |h'.lists| == LISTS && Head(h, p) in h'.blocks
  {
    var q := Head(h, p);
    if q == p then h else Announce(Join(OutList(h, q), q, p), q, h.blocks[p].free)
  }

  // ---- splitting -------------------------------------------------------------------------------

  function Max(a: nat, b: nat): nat { if a < b then b else a }

  /** Block `p` becomes two, `p` and `r`, with the given headers. */
  function Cut(h: Heap, p: nat, b: Block, r: nat, c: Block): Heap {
    SetBlock(SetBlock(h, p, b), r, c).(last := Max(h.last, r))
  }

  /** `p` cut so that its first `need` bytes, or its last, are a block of their own. */
  function RightCut(h: Heap, p: nat, need: nat): Heap
    requires p in h.blocks && h.blocks[p].size > need + 16
  {
    var b := h.blocks[p];
    Cut(h, p, b.(size := need), p + need + HEADER, Block(b.size - need - HEADER, false, p == h.last && b.free))
  }

  function LeftCut(h: Heap, p: nat, need: nat): Heap
    requires p in h.blocks && h.blocks[p].size > need + 16
  {
    var b := h.blocks[p];
    Cut(h, p, b.(size := b.size - need - HEADER), p + b.size - need, Block(need, false, false))
  }

  /** Makes `p` free, with or without joining it with the block after it. */
  function ReleaseNext(h: Heap, p: nat, join: bool): (h': Heap)
    requires p in h.blocks && |h.lists| == LISTS
    ensures |h'.lists| == LISTS
  {
    var h1 := MarkFree(h, p);
    InList(if join then JoinNext(h1, p) else h1, p)
  }

  /** Makes `p` free, with or without joining it with the block before it. */
  ghost function ReleasePrev(h: Heap, p: nat, join: bool): (h': Heap)
    requires p in h.blocks && |h.lists| == LISTS
    ensures |h'.lists| == LISTS
  {
    var h1 := MarkFree(h, p);
    if join then InList(JoinPrev(h1, p), Head(h1, p)) else InList(h1, p)
  }

  /** Keeps the first `need` bytes of `p`; the rest becomes a free block. */
  function SplitRight(h: Heap, p: nat, need: nat, join: bool): (h': Heap)
    requires p in h.blocks && |h.lists| == LISTS && h.blocks[p].size > need + 16
    ensures |h'.lists| == LISTS
  {
    ReleaseNext(RightCut(h, p, need), p + need + HEADER, join).(side := !h.side)
  }

  /** Keeps the last `need` bytes of `p`; the rest becomes a free block. */
  ghost function SplitLeft(h: Heap, p: nat, need: nat, join: bool): (h': Heap)
    requires p in h.blocks && |h.lists| == LISTS && h.blocks[p].size > need + 16
    ensures |h'.lists| == LISTS
  {
    ReleasePrev(LeftCut(h, p, need), p, join).(side := !h.side)
  }

  predicate Splits(h: Heap, p: nat, need: nat)
    requires p in h.blocks
  {
    h.blocks[p].size > need + HEADER + MIN_BLOCK
  }

  /** Splits `p` if the rest is large enough, on alternating sides. */
  ghost function Split(h: Heap, p: nat, need: nat, join: bool): (h': Heap)
    requires p in h.blocks && |h.lists| == LISTS
    ensures |h'.lists| == LISTS
  {
    if !Splits(h, p, need) then h
    else if h.side then SplitLeft(h, p, need, join) else SplitRight(h, p, need, join)
  }

  /** The part of `p` that `Split` keeps. */
  function Kept(h: Heap, p: nat, need: nat): nat
    requires p in h.blocks
  {
    if Splits(h, p, need) && h.side then p + h.blocks[p].size - need else p
  }

  // ---- malloc, free and realloc ------------------------------------------------------------------

  datatype Spot = Nowhere | At(i: nat, k: nat)

  /** The first block of the first list that is not empty, from list `i` on. */
  function NextSpot(h: Heap, i: nat): (at: Spot)
    requires |h.lists| == LISTS
    ensures at.At? ==> i <= at.i < LISTS && at.k < |h.lists[at.i]|
    decreases LISTS - i
  {
    if i >= LISTS then Nowhere else if h.lists[i] != [] then At(i, 0) else NextSpot(h, i + 1)
  }

  /** Where the block for a request of (rounded) size `need` is taken from. */
  function Search(h: Heap, need: nat): (at: Spot)
    requires |h.lists| == LISTS && need >= MIN_BLOCK
    ensures at.At? ==> at.i < LISTS && at.k < |h.lists[at.i]|
  {
    var i := Index(need);
    var k := if need <= MAX_FIXED then 0 else Place(h, h.lists[i], need);
    if k < |h.lists[i]| then At(i, k) else NextSpot(h, i + 1)
  }

  /** Extends the heap by `g` bytes, in one new block at its end. */
  function GrowBy(h: Heap, g: nat): Heap
    requires g >= HEADER
  {
    var p := h.brk + HEADER;
    SetBlock(h, p, Block(g - HEADER, false, FreeAt(h, h.last))).(brk := h.brk + g, last := p)
  }

  /** Extends the heap by whole pages. */
  function Grow(h: Heap, need: nat): Heap { GrowBy(h, Pages(need + HEADER)) }

  /** `a` is in use from now on. */
  function Hand(h: Heap, a: nat): Heap {
    var h1 := if a in h.blocks then MarkUsed(h, a) else h;
    h1.(last := Max(h1.last, a))
  }

  /** The heap and the block from which a request of `need` bytes is served, and whether it is new. */
  function Source(h: Heap, need: nat): (src: (Heap, nat, bool))
    requires |h.lists| == LISTS && need >= MIN_BLOCK
    ensures |src.0.lists| == LISTS
  {
    match Search(h, need)
    case At(i, k) => (Take(h, i, k), h.lists[i][k], false)
    case Nowhere => (Grow(h, need), h.brk + HEADER, true)
  }

  /** Can the heap be extended to serve a request of `need` bytes, should no free block be found? */
  predicate Room(h: Heap, need: nat, limit: nat)
    requires |h.lists| == LISTS && need >= MIN_BLOCK
  {
    Search(h, need).Nowhere? ==> h.brk + Pages(need + HEADER) <= limit
  }

  /** The heap after a request that can be served, and the block that serves it. */
  ghost function Malloc(h: Heap, size: nat): (r: (Heap, nat))
    requires |h.lists| == LISTS && Source(h, Round(size)).1 in Source(h, Round(size)).0.blocks
    ensures |r.0.lists| == LISTS
  {
    var need := Round(size);
    var (h1, p, join) := Source(h, need);
    var a := Kept(h1, p, need);
    (Hand(Split(h1, p, need, join), a), a)
  }

  /** Joins `p` with the block before it if that is free, and puts the result in its list. */
  ghost function Retire(h: Heap, p: nat): (h': Heap)
    requires p in h.blocks && |h.lists| == LISTS
    ensures |h'.lists| == LISTS
  {
    InList(MarkFree(JoinPrev(h, p), Head(h, p)), Head(h, p))
  }

  ghost function Free(h: Heap, p: nat): (h': Heap)
    requires p in h.blocks && |h.lists| == LISTS
    ensures |h'.lists| == LISTS
  {
    Retire(JoinNext(h, p), p)
  }

  /** Extends the heap by `g` bytes, all in block `p`. */
  function Extend(h: Heap, p: nat, g: nat): Heap
    requires p in h.blocks
  {
    SetBlock(h, p, h.blocks[p].(size := h.blocks[p].size + g)).(brk := h.brk + g)
  }

  /** The heap after a resize request, and the block that serves it: 0 stands for the null pointer. */
  ghost function Realloc(h: Heap, p: nat, size: nat, limit: nat): (r: (Heap, nat))
    requires p in h.blocks && |h.lists| == LISTS
    ensures |r.0.lists| == LISTS
  {
    if size == 0 then (Free(h, p), 0)
    else if Round(size) <= h.blocks[p].size then (h, p)
    else Regrow(JoinNext(h, p), p, Round(size), h.blocks[p].size, limit)
  }

  /** Resizing `p`, which had `was` bytes and has been joined with the block after it, to `need` bytes. */
  ghost function Regrow(h: Heap, p: nat, need: nat, was: nat, limit: nat): (r: (Heap, nat))
    requires p in h.blocks && |h.lists| == LISTS && need > was && need >= MIN_BLOCK
    ensures |r.0.lists| == LISTS
  {
    var g := Pages(need - was);
    if h.blocks[p].size >= need then (h, p)
    else if p == h.last then
      if h.brk + g > limit then (h, 0) else (Split(Extend(h, p, g).(side := false), p, need, false), p)
    else Move(h, p, need, limit)
  }

  /** Serving the request from another block, and freeing `p`. */
  ghost function Move(h: Heap, p: nat, need: nat, limit: nat): (r: (Heap, nat))
    requires p in h.blocks && |h.lists| == LISTS && need >= MIN_BLOCK
    ensures |r.0.lists| == LISTS
  {
    if !Room(h, need, limit) || Source(h, Round(need)).1 !in Source(h, Round(need)).0.blocks then (h, 0)
    else
      var (h1, a) := Malloc(h, need);
      (if p in h1.blocks then Free(h1, p) else h1, a)
  }

  // ---- the heap at start ---------------------------------------------------------------------------

  /** One free block after the list heads. */
  function InitHeap(): Heap {
    var size := INITIAL - BASE - HEADER;
    Heap(map[FIRST := Block(size, true, false)], seq(LISTS, i => if i == Index(size) then [FIRST] else []), FIRST,
        false, INITIAL)
  }

  // ---- live blocks -----------------------------------------------------------------------------------

  /** The blocks in use and their sizes. */
  function Live(h: Heap): map<nat, nat> { map p | p in h.blocks && !h.blocks[p].free :: h.blocks[p].size }

  /** What clients ask for. */
  datatype Request = Obtain(size: nat) | Dispose(p: nat) | Resize(p: nat, size: nat)
}
