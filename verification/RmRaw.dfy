/** The heap as raw memory: headers with two stolen bits, end pointers at the end of free blocks, and
    free lists linked through the first word of each free block. `m[w]` is the word at byte offset `w`. */
module RmRaw {
  import opened RmHeap
  import opened RmInv
  import opened RmSplit

  function Word(m: seq<nat>, w: nat): nat { if w < |m| then m[w] else 0 }

  function Enc(b: Block): nat { b.size + (if b.free then 1 else 0) + (if b.pf then 2 else 0) }

  function SizeBits(v: nat): nat { v - v % 4 }
  predicate FreeBit(v: nat) { v % 2 == 1 }
  predicate PrevBit(v: nat) { v / 2 % 2 == 1 }

  lemma Decodes(b: Block)
    requires b.size % 8 == 0
    ensures SizeBits(Enc(b)) == b.size && FreeBit(Enc(b)) == b.free && PrevBit(Enc(b)) == b.pf
  {
    Bits(b.size / 8);
    assert b.size == 8 * (b.size / 8);
  }

  lemma Bits(k: nat)
    ensures 8 * k % 4 == 0 && (8 * k + 1) % 4 == 1 && (8 * k + 2) % 4 == 2 && (8 * k + 3) % 4 == 3
    ensures 8 * k % 2 == 0 && (8 * k + 1) % 2 == 1 && (8 * k + 2) % 2 == 0 && (8 * k + 3) % 2 == 1
    ensures 8 * k / 2 % 2 == 0 && (8 * k + 1) / 2 % 2 == 0 && (8 * k + 2) / 2 % 2 == 1 && (8 * k + 3) / 2 % 2 == 1
  {
    Rest4(8 * k, 2 * k, 0);
    Rest4(8 * k + 1, 2 * k, 1);
    Rest4(8 * k + 2, 2 * k, 2);
    Rest4(8 * k + 3, 2 * k, 3);
    Rest2(8 * k, 4 * k, 0);
    Rest2(8 * k + 1, 4 * k, 1);
    Rest2(8 * k + 2, 4 * k + 1, 0);
    Rest2(8 * k + 3, 4 * k + 1, 1);
    Rest2(4 * k, 2 * k, 0);
    Rest2(4 * k + 1, 2 * k, 1);
  }

  lemma Rest2(v: nat, q: nat, r: nat)
    requires v == 2 * q + r && r < 2
    ensures v / 2 == q && v % 2 == r
  {
  }

  lemma Rest4(v: nat, q: nat, r: nat)
    requires v == 4 * q + r && r < 4
    ensures v % 4 == r
  {
  }

  predicate HeaderOk(m: seq<nat>, h: Heap, p: nat)
    requires p in h.blocks
  {
    p >= HEADER && Word(m, p - HEADER) == Enc(h.blocks[p])
  }

  predicate EndOk(m: seq<nat>, h: Heap, p: nat, y: set<nat>)
    requires p in h.blocks
  {
    h.blocks[p].free && p !in y ==> p + h.blocks[p].size >= 4 && Word(m, p + h.blocks[p].size - 4) == p
  }

  /** The word after position `k` of list `l`: the address of the next block, or 0. */
  function LinkTo(l: seq<nat>, k: nat): nat { if k < |l| then l[k] else 0 }

  predicate ChainOk(m: seq<nat>, l: seq<nat>) {
    forall j: nat {:trigger l[j]} :: j < |l| ==> Word(m, l[j]) == LinkTo(l, j + 1)
  }

  predicate LinksOk(m: seq<nat>, i: nat, l: seq<nat>) { Word(m, 4 * i) == LinkTo(l, 0) && ChainOk(m, l) }

  /** Memory `m` represents `h`, but the end pointers of the blocks in `y` may be missing. */
  ghost predicate Rep(m: seq<nat>, h: Heap, y: set<nat>) {
    && h.brk <= |m| && |h.lists| == LISTS
    && (forall p: nat {:trigger HeaderOk(m, h, p)} :: p in h.blocks ==> HeaderOk(m, h, p))
    && (forall p: nat {:trigger EndOk(m, h, p, y)} :: p in h.blocks ==> EndOk(m, h, p, y))
    && (forall i: nat {:trigger LinksOk(m, i, h.lists[i])} :: i < LISTS ==> LinksOk(m, i, h.lists[i]))
  }

  /** The lists hold blocks of the right size, none of them twice. */
  predicate EntryIn(h: Heap, i: nat, q: nat) { FreeAt(h, q) && ListOf(h, q) == i }

  ghost predicate ListsIn(h: Heap) {
    && |h.lists| == LISTS
    && (forall i: nat {:trigger h.lists[i]} :: i < LISTS ==>
        NoTwice(h.lists[i]) && forall q: nat :: q in h.lists[i] ==> EntryIn(h, i, q))
  }

  ghost predicate Unlisted(h: Heap, p: nat)
    requires |h.lists| == LISTS
  {
    forall i: nat {:trigger h.lists[i]} :: i < LISTS ==> p !in h.lists[i]
  }

  /** `l` gives blocks in use, and how many of their bytes matter. */
  ghost predicate Guards(h: Heap, l: map<nat, nat>) {
    forall q: nat {:trigger q in l} :: q in l ==> UsedAt(h, q) && l[q] <= h.blocks[q].size
  }

  /** The byte at offset `i` of block `p`. */
  function Byte(m: seq<nat>, p: nat, i: nat): nat { Word(m, p + i) }

  /** The first `n` bytes of `p` are those of `a` afterwards. */
  predicate Copied(m: seq<nat>, m': seq<nat>, p: nat, a: nat, n: nat) {
    forall i: nat :: i < n ==> Byte(m', a, i) == Byte(m, p, i)
  }

  /** No word of which a byte is among the `n` bytes from `p` on has changed. */
  ghost predicate SameBytes(m: seq<nat>, m': seq<nat>, p: nat, n: nat) {
    forall w: nat {:trigger Word(m', w)} :: Overlaps(w, p, n) ==> Word(m', w) == Word(m, w)
  }

  /** One of the four bytes of the word at `w` is among the `n` bytes from `p` on. */
  predicate Overlaps(w: nat, p: nat, n: nat) { p < w + 4 && w < p + n }

  /** The bytes that matter are as they were. */
  ghost predicate Same(m: seq<nat>, m': seq<nat>, l: map<nat, nat>) {
    |m'| == |m| && forall q: nat {:trigger q in l} :: q in l ==> SameBytes(m, m', q, l[q])
  }

  /** Everything the allocator relies on half-way through an operation. */
  ghost predicate Holds(m: seq<nat>, h: Heap, y: set<nat>, l: map<nat, nat>) {
    Rep(m, h, y) && Geo(h) && ListsIn(h) && Guards(h, l)
  }

  // ---- where words are -----------------------------------------------------------------------------

  /** A word of block `p`, header included. */
  predicate Inside(h: Heap, p: nat, w: nat)
    requires p in h.blocks
  {
    p <= w + HEADER && w < p + h.blocks[p].size
  }

  lemma InsideOne(h: Heap, p: nat, q: nat, w: nat)
    requires Geo(h) && p in h.blocks && q in h.blocks && p != q && Inside(h, p, w)
    ensures !Inside(h, q, w)
  {
    assert Apart(h, p, q) && Apart(h, q, p);
  }

  lemma InsideHeap(h: Heap, p: nat, w: nat)
    requires Geo(h) && p in h.blocks && Inside(h, p, w)
    ensures BASE <= w < h.brk
  {
    assert BlockOk(h, p);
  }

  // ---- writing one word ------------------------------------------------------------------------------

  /** A write inside block `p` leaves the headers and end pointers of the others, and the lists that `p` is
      not in. */
  lemma OthersKept(m: seq<nat>, h: Heap, y: set<nat>, l: map<nat, nat>, p: nat, w: nat, v: nat)
    requires Holds(m, h, y, l) && p in h.blocks && Inside(h, p, w)
    ensures w < |m|
    ensures var m' := m[w := v];
            && (forall q: nat :: q in h.blocks && q != p ==>
                HeaderOk(m', h, q) && EndOk(m', h, q, y) && Word(m', q) == Word(m, q))
            && (forall i: nat :: i < LISTS ==> Word(m', 4 * i) == Word(m, 4 * i))
  {
    InsideHeap(h, p, w);
    forall q: nat | q in h.blocks && q != p
      ensures HeaderOk(m[w := v], h, q) && EndOk(m[w := v], h, q, y) && Word(m[w := v], q) == Word(m, q)
    {
      assert HeaderOk(m, h, q) && EndOk(m, h, q, y) && BlockOk(h, q);
      InsideOne(h, p, q, w);
      assert Inside(h, q, q - HEADER) && Inside(h, q, q) && Inside(h, q, q + h.blocks[q].size - 4);
    }
  }

  lemma InsideGuard(h: Heap, l: map<nat, nat>, p: nat, w: nat)
    requires Geo(h) && Guards(h, l) && p in h.blocks && Inside(h, p, w) && (p !in l || w + 4 <= p || p + l[p] <= w)
    ensures forall q: nat {:trigger q in l} :: q in l ==> !Overlaps(w, q, l[q])
  {
    forall q: nat | q in l ensures !Overlaps(w, q, l[q]) {
      if q != p { assert Apart(h, p, q) && Apart(h, q, p); }
    }
  }

  /** A block keeps its place, and its header changes from `h` to `h'`. */
  ghost predicate Rewritten(h: Heap, h': Heap, p: nat) {
    && p in h.blocks && p in h'.blocks && h'.blocks[p].size == h.blocks[p].size
    && h' == h.(blocks := h.blocks[p := h'.blocks[p]])
  }

  lemma RewrittenShape(h: Heap, h': Heap, p: nat, l: map<nat, nat>)
    requires Geo(h) && ListsIn(h) && Guards(h, l) && Rewritten(h, h', p) && (p in l ==> !h'.blocks[p].free)
    requires !h'.blocks[p].free ==> Unlisted(h, p)
    ensures Geo(h') && ListsIn(h') && Guards(h', l)
  {
    SamePlacesGeo(h, h');
    forall i: nat, q: nat | i < LISTS && q in h'.lists[i] ensures EntryIn(h', i, q) { assert EntryIn(h, i, q); }
  }

  /** A write inside block `p`, but not to the link of a listed block nor to bytes that matter. */
  lemma WriteIn(m: seq<nat>, h: Heap, y: set<nat>, l: map<nat, nat>, p: nat, w: nat, v: nat, h': Heap, y': set<nat>)
    requires Holds(m, h, y, l) && Rewritten(h, h', p) && Inside(h, p, w) && w < |m| && (w != p || Unlisted(h, p))
    requires !h'.blocks[p].free ==> Unlisted(h, p)
    requires HeaderOk(m[w := v], h', p) && EndOk(m[w := v], h', p, y')
    requires (p !in l || w + 4 <= p || p + l[p] <= w) && (p in l ==> !h'.blocks[p].free) && y - {p} <= y'
    ensures Holds(m[w := v], h', y', l) && Same(m, m[w := v], l)
  {
    var m' := m[w := v];
    OthersKept(m, h, y, l, p, w, v);
    RewrittenShape(h, h', p, l);
    InsideGuard(h, l, p, w);
    forall q: nat | q in h'.blocks ensures HeaderOk(m', h', q) && EndOk(m', h', q, y') {
      if q != p { assert HeaderOk(m', h, q) && EndOk(m', h, q, y); }
    }
    forall i: nat | i < LISTS ensures LinksOk(m', i, h'.lists[i]) {
      assert LinksOk(m, i, h.lists[i]);
      forall j: nat | j < |h.lists[i]| ensures Word(m', h.lists[i][j]) == Word(m, h.lists[i][j]) {
        var q := h.lists[i][j];
        assert q in h.lists[i] && EntryIn(h, i, q);
        assert w == p ==> q != p;
        if q == p { assert Word(m', p) == Word(m, p); }
      }
    }
    forall q: nat | q in l ensures SameBytes(m, m', q, l[q]) {}
  }

  lemma HeaderWrite(m: seq<nat>, h: Heap, y: set<nat>, l: map<nat, nat>, p: nat, b: Block)
    requires Holds(m, h, y, l) && p in h.blocks && b.size == h.blocks[p].size
    requires (b.free ==> h.blocks[p].free || p in y) && (p in l ==> !b.free) && (!b.free ==> Unlisted(h, p))
    ensures HEADER <= p < |m| + HEADER
    ensures var m' := m[p - HEADER := Enc(b)]; Holds(m', SetBlock(h, p, b), y, l) && Same(m, m', l)
  {
    assert BlockOk(h, p);
    InsideHeap(h, p, p - HEADER);
    assert EndOk(m, h, p, y);
    WriteIn(m, h, y, l, p, p - HEADER, Enc(b), SetBlock(h, p, b), y);
  }

  lemma EndWrite(m: seq<nat>, h: Heap, y: set<nat>, l: map<nat, nat>, p: nat)
    requires Holds(m, h, y, l) && p in h.blocks && p !in l && (h.blocks[p].free || Unlisted(h, p))
    ensures 4 <= p + h.blocks[p].size < |m| + 4
    ensures var m' := m[p + h.blocks[p].size - 4 := p]; Holds(m', h, y - {p}, l) && Same(m, m', l)
  {
    var w := p + h.blocks[p].size - 4;
    assert BlockOk(h, p) && HeaderOk(m, h, p);
    InsideHeap(h, p, w);
    assert h.blocks[p := h.blocks[p]] == h.blocks;
    WriteIn(m, h, y, l, p, w, p, h, y - {p});
  }

  lemma LinkWrite(m: seq<nat>, h: Heap, y: set<nat>, l: map<nat, nat>, p: nat, v: nat)
    requires Holds(m, h, y, l) && p in h.blocks && p !in l && Unlisted(h, p)
    ensures p < |m|
    ensures var m' := m[p := v]; Holds(m', h, y, l) && Same(m, m', l)
  {
    assert BlockOk(h, p) && HeaderOk(m, h, p) && EndOk(m, h, p, y);
    InsideHeap(h, p, p);
    assert h.blocks[p := h.blocks[p]] == h.blocks;
    WriteIn(m, h, y, l, p, p, v, h, y);
  }

  // ---- moving block boundaries -----------------------------------------------------------------------

  /** Block `q` and its link are the same. */
  predicate Stays(m: seq<nat>, h: Heap, m': seq<nat>, h': Heap, q: nat) {
    FreeAt(h', q) && SizeAt(h', q) == SizeAt(h, q) && Word(m', q) == Word(m, q)
  }

  /** The blocks in lists stay, and so do the lists. */
  lemma ListsStay(m: seq<nat>, h: Heap, m': seq<nat>, h': Heap)
    requires |h.lists| == LISTS && h'.lists == h.lists && ListsIn(h)
    requires forall i: nat {:trigger LinksOk(m, i, h.lists[i])} :: i < LISTS ==> LinksOk(m, i, h.lists[i])
    requires forall i: nat :: i < LISTS ==> Word(m', 4 * i) == Word(m, 4 * i)
    requires forall i: nat, q: nat {:trigger EntryIn(h, i, q)} :: i < LISTS && q in h.lists[i] ==>
        Stays(m, h, m', h', q)
    ensures ListsIn(h') && forall i: nat {:trigger LinksOk(m', i, h'.lists[i])} :: i < LISTS ==>
        LinksOk(m', i, h'.lists[i])
  {
    forall i: nat | i < LISTS ensures LinksOk(m', i, h'.lists[i]) {
      assert LinksOk(m, i, h.lists[i]);
      var l := h.lists[i];
      forall j: nat | j < |l| ensures Word(m', l[j]) == LinkTo(l, j + 1) {
        assert l[j] in l && EntryIn(h, i, l[j]);
      }
    }
    forall i: nat, q: nat | i < LISTS && q in h'.lists[i] ensures EntryIn(h', i, q) { assert EntryIn(h, i, q); }
  }

  /** Writing the size of two joined blocks in the header of the first. */
  lemma JoinWrite(m: seq<nat>, h: Heap, y: set<nat>, l: map<nat, nat>, p: nat, n: nat)
    requires Holds(m, h, y, l) && Before(h, p, n) && n in h.blocks && Unlisted(h, p) && Unlisted(h, n) && n !in l
    ensures HEADER <= p < |m| + HEADER && n != p
    ensures var h' := Join(h, p, n); var m' := m[p - HEADER := Enc(h'.blocks[p])];
        Holds(m', h', y + {p}, l) && Same(m, m', l)
  {
    assert BlockOk(h, p);
    InsideHeap(h, p, p - HEADER);
    var h' := Join(h, p, n);
    var m' := m[p - HEADER := Enc(h'.blocks[p])];
    OthersKept(m, h, y, l, p, p - HEADER, Enc(h'.blocks[p]));
    JoinGeo(h, p, n);
    forall q: nat | q in h'.blocks ensures HeaderOk(m', h', q) && EndOk(m', h', q, y + {p}) {
      if q != p { assert HeaderOk(m', h, q) && EndOk(m', h, q, y); }
    }
    forall i: nat, q: nat | i < LISTS && q in h.lists[i] ensures Stays(m, h, m', h', q) { assert EntryIn(h, i, q); }
    ListsStay(m, h, m', h');
    InsideGuard(h, l, p, p - HEADER);
    forall q: nat | q in l ensures SameBytes(m, m', q, l[q]) {}
  }

  /** Writing the header of a block cut off from `p`, and then that of `p`. */
  lemma CutWrite(m: seq<nat>, h: Heap, y: set<nat>, l: map<nat, nat>, p: nat, b: Block, r: nat, c: Block)
    requires Holds(m, h, y, l) && p in h.blocks && Unlisted(h, p)
    requires Geo(Cut(h, p, b, r, c)) && r !in h.blocks && p + 16 <= r < p + h.blocks[p].size && !c.free
    requires p in l ==> !b.free && l[p] <= b.size && p + b.size == r - HEADER
    ensures p < r - HEADER + 1 <= |m|
    ensures var m1 := m[r - HEADER := Enc(c)]; HEADER <= p < |m| && Holds(m1, h, y + {p}, l) && Same(m, m1, l)
    ensures var m2 := m[r - HEADER := Enc(c)][p - HEADER := Enc(b)];
        Holds(m2, Cut(h, p, b, r, c), y + {p}, l) && Same(m, m2, l)
  {
    assert BlockOk(h, p) && HeaderOk(m, h, p);
    InsideHeap(h, p, r - HEADER);
    assert h.blocks[p := h.blocks[p]] == h.blocks;
    var m1 := m[r - HEADER := Enc(c)];
    WriteIn(m, h, y, l, p, r - HEADER, Enc(c), h, y + {p});
    CutHeader(m1, h, y + {p}, l, p, b, r, c);
  }

  lemma CutHeader(m: seq<nat>, h: Heap, y: set<nat>, l: map<nat, nat>, p: nat, b: Block, r: nat, c: Block)
    requires Holds(m, h, y, l) && p in y && p in h.blocks && Unlisted(h, p)
    requires Geo(Cut(h, p, b, r, c)) && r !in h.blocks && p + 16 <= r < p + h.blocks[p].size && !c.free
    requires Word(m, r - HEADER) == Enc(c)
    requires p in l ==> !b.free && l[p] <= b.size
    ensures HEADER <= p < |m|
    ensures var m' := m[p - HEADER := Enc(b)]; Holds(m', Cut(h, p, b, r, c), y, l) && Same(m, m', l)
  {
    assert BlockOk(h, p);
    InsideHeap(h, p, p);
    InsideHeap(h, p, p - HEADER);
    var h' := Cut(h, p, b, r, c);
    var m' := m[p - HEADER := Enc(b)];
    OthersKept(m, h, y, l, p, p - HEADER, Enc(b));
    CutHeaders(m', h, y, p, b, r, c);
    CutGuards(h, l, p, b, r, c);
    forall i: nat, q: nat | i < LISTS && q in h.lists[i] ensures Stays(m, h, m', h', q) { assert EntryIn(h, i, q); }
    ListsStay(m, h, m', h');
    InsideGuard(h, l, p, p - HEADER);
    forall q: nat | q in l ensures SameBytes(m, m', q, l[q]) {}
  }

  lemma CutHeaders(m: seq<nat>, h: Heap, y: set<nat>, p: nat, b: Block, r: nat, c: Block)
    requires p in y && p in h.blocks && r !in h.blocks && HEADER <= p < r && p - HEADER < |m| && !c.free
    requires m[p - HEADER] == Enc(b) && Word(m, r - HEADER) == Enc(c)
    requires forall q: nat :: q in h.blocks && q != p ==> HeaderOk(m, h, q) && EndOk(m, h, q, y)
    ensures forall q: nat :: q in Cut(h, p, b, r, c).blocks ==>
        HeaderOk(m, Cut(h, p, b, r, c), q) && EndOk(m, Cut(h, p, b, r, c), q, y)
  {
    var h' := Cut(h, p, b, r, c);
    forall q: nat | q in h'.blocks ensures HeaderOk(m, h', q) && EndOk(m, h', q, y) {
      if q != p && q != r { assert HeaderOk(m, h, q) && EndOk(m, h, q, y); }
    }
  }

  lemma CutGuards(h: Heap, l: map<nat, nat>, p: nat, b: Block, r: nat, c: Block)
    requires Guards(h, l) && p in h.blocks && r !in h.blocks && (p in l ==> !b.free && l[p] <= b.size)
    ensures Guards(Cut(h, p, b, r, c), l)
  {
  }

  /** Writing the header of a block at the new end of the heap. */
  lemma GrowWrite(m: seq<nat>, h: Heap, y: set<nat>, l: map<nat, nat>, g: nat, pf: bool, h': Heap)
    requires Holds(m, h, y, l) && g >= 16 && g % 8 == 0 && h.brk + g <= |m|
    requires h' == SetBlock(h, h.brk + HEADER, Block(g - HEADER, false, pf)).(brk := h.brk + g, last := h.brk + HEADER)
    ensures var m' := m[h.brk := Enc(Block(g - HEADER, false, pf))]; Holds(m', h', y, l) && Same(m, m', l)
  {
    var m' := m[h.brk := Enc(Block(g - HEADER, false, pf))];
    EndFree(h);
    GrowShape(h, g, pf, h');
    forall q: nat | q in h.blocks ensures HeaderOk(m', h', q) && EndOk(m', h', q, y) && Word(m', q) == Word(m, q) {
      assert HeaderOk(m, h, q) && EndOk(m, h, q, y) && BlockOk(h, q);
    }
    assert BlockOk(h, FIRST);
    forall i: nat | i < LISTS ensures Word(m', 4 * i) == Word(m, 4 * i) {}
    forall i: nat, q: nat | i < LISTS && q in h.lists[i] ensures Stays(m, h, m', h', q) { assert EntryIn(h, i, q); }
    ListsStay(m, h, m', h');
    forall q: nat | q in l ensures SameBytes(m, m', q, l[q]) { assert BlockOk(h, q); }
  }

  lemma GrowShape(h: Heap, g: nat, pf: bool, h': Heap)
    requires Geo(h) && g >= 16 && g % 8 == 0
    requires h' == SetBlock(h, h.brk + HEADER, Block(g - HEADER, false, pf)).(brk := h.brk + g, last := h.brk + HEADER)
    ensures Geo(h') && h.brk + HEADER !in h.blocks
  {
    GrowGeo(h, g);
    SamePlacesGeo(GrowBy(h, g), h');
  }

  /** Writing the new size of the last block when the heap is extended. */
  lemma ExtendWrite(m: seq<nat>, h: Heap, y: set<nat>, l: map<nat, nat>, p: nat, g: nat)
    requires Holds(m, h, y, l) && UsedAt(h, p) && p == h.last && g % 8 == 0 && h.brk + g <= |m| && Unlisted(h, p)
    ensures HEADER <= p < |m| + HEADER
    ensures var h' := Extend(h, p, g); var m' := m[p - HEADER := Enc(h'.blocks[p])];
        Holds(m', h', y, l) && Same(m, m', l)
  {
    assert BlockOk(h, p);
    InsideHeap(h, p, p - HEADER);
    var h' := Extend(h, p, g);
    var m' := m[p - HEADER := Enc(h'.blocks[p])];
    OthersKept(m, h, y, l, p, p - HEADER, Enc(h'.blocks[p]));
    ExtendGeo(h, p, g);
    forall q: nat | q in h'.blocks ensures HeaderOk(m', h', q) && EndOk(m', h', q, y) {
      if q != p { assert HeaderOk(m', h, q) && EndOk(m', h, q, y); }
    }
    forall i: nat, q: nat | i < LISTS && q in h.lists[i] ensures Stays(m, h, m', h', q) { assert EntryIn(h, i, q); }
    ListsStay(m, h, m', h');
    InsideGuard(h, l, p, p - HEADER);
    forall q: nat | q in l ensures SameBytes(m, m', q, l[q]) {}
  }

  lemma UsedUnlisted(h: Heap, p: nat)
    requires ListsIn(h) && !FreeAt(h, p)
    ensures Unlisted(h, p)
  {
    forall i: nat | i < LISTS ensures p !in h.lists[i] { assert p in h.lists[i] ==> EntryIn(h, i, p); }
  }

  // ---- linking and unlinking -------------------------------------------------------------------------

  /** The word that leads to position `k` of list `i`. */
  function Slot(h: Heap, i: nat, k: nat): nat
    requires i < |h.lists| && k <= |h.lists[i]|
  {
    if k == 0 then 4 * i else h.lists[i][k - 1]
  }

  /** Writing that word leaves everything else as it is. */
  lemma SlotWrite(m: seq<nat>, h: Heap, y: set<nat>, l: map<nat, nat>, i: nat, k: nat, v: nat)
    requires Holds(m, h, y, l) && i < LISTS && k <= |h.lists[i]|
    ensures Slot(h, i, k) < |m|
    ensures var m' := m[Slot(h, i, k) := v];
            && (forall q: nat :: q in h.blocks ==> HeaderOk(m', h, q) && EndOk(m', h, q, y))
            && (forall q: nat :: q in h.blocks && (k > 0 ==> q != h.lists[i][k - 1]) ==> Word(m', q) == Word(m, q))
            && (forall j: nat :: j < LISTS && (k > 0 || j != i) ==> Word(m', 4 * j) == Word(m, 4 * j))
            && Same(m, m', l)
  {
    var w := Slot(h, i, k);
    assert BlockOk(h, FIRST);
    if k == 0 {
      var m' := m[w := v];
      forall q: nat | q in h.blocks ensures HeaderOk(m', h, q) && EndOk(m', h, q, y) && Word(m', q) == Word(m, q) {
        assert HeaderOk(m, h, q) && EndOk(m, h, q, y) && BlockOk(h, q);
      }
      forall q: nat | q in l ensures SameBytes(m, m', q, l[q]) { assert BlockOk(h, q); }
    } else {
      assert w in h.lists[i] && EntryIn(h, i, w);
      SlotInside(m, h, y, l, w, v);
    }
  }

  lemma SlotInside(m: seq<nat>, h: Heap, y: set<nat>, l: map<nat, nat>, p: nat, v: nat)
    requires Holds(m, h, y, l) && FreeAt(h, p)
    ensures p < |m|
    ensures var m' := m[p := v];
            && (forall q: nat :: q in h.blocks ==>
                HeaderOk(m', h, q) && EndOk(m', h, q, y) && (q != p ==> Word(m', q) == Word(m, q)))
            && (forall j: nat :: j < LISTS ==> Word(m', 4 * j) == Word(m, 4 * j))
            && Same(m, m', l)
  {
    assert BlockOk(h, p) && HeaderOk(m, h, p) && EndOk(m, h, p, y);
    OthersKept(m, h, y, l, p, p, v);
    assert p !in l;
    InsideGuard(h, l, p, p);
    forall q: nat | q in l ensures SameBytes(m, m[p := v], q, l[q]) {}
  }

  /** The other lists do not change when one word of list `i` does. */
  lemma OtherChains(m: seq<nat>, h: Heap, m': seq<nat>, i: nat, k: nat, j: nat)
    requires ListsIn(h) && i < LISTS && k <= |h.lists[i]| && j < LISTS && j != i && LinksOk(m, j, h.lists[j])
    requires forall q: nat :: q in h.blocks && (k > 0 ==> q != h.lists[i][k - 1]) ==> Word(m', q) == Word(m, q)
    requires Word(m', 4 * j) == Word(m, 4 * j)
    ensures LinksOk(m', j, h.lists[j])
  {
    var l := h.lists[j];
    assert k > 0 ==> h.lists[i][k - 1] in h.lists[i] && EntryIn(h, i, h.lists[i][k - 1]);
    forall a: nat | a < |l| ensures Word(m', l[a]) == LinkTo(l, a + 1) {
      assert l[a] in l && EntryIn(h, j, l[a]);
    }
  }

  /** Only list `i` and the word that leads to its position `k` have changed. */
  lemma Relisted(m: seq<nat>, h: Heap, y: set<nat>, l: map<nat, nat>, m': seq<nat>, i: nat, k: nat, c: seq<nat>,
      h': Heap)
    requires Holds(m, h, y, l) && i < LISTS && k <= |h.lists[i]| && h' == SetList(h, i, c) && |m'| == |m|
    requires forall q: nat :: q in h.blocks ==> HeaderOk(m', h, q) && EndOk(m', h, q, y)
    requires forall q: nat :: q in h.blocks && (k > 0 ==> q != h.lists[i][k - 1]) ==> Word(m', q) == Word(m, q)
    requires forall j: nat :: j < LISTS && (k > 0 || j != i) ==> Word(m', 4 * j) == Word(m, 4 * j)
    requires LinksOk(m', i, c) && ListsIn(h')
    ensures Holds(m', h', y, l)
  {
    SamePlacesGeo(h, h');
    forall j: nat | j < LISTS ensures LinksOk(m', j, h'.lists[j]) {
      if j != i { assert LinksOk(m, j, h.lists[j]); OtherChains(m, h, m', i, k, j); }
    }
    forall q: nat | q in h'.blocks ensures HeaderOk(m', h', q) && EndOk(m', h', q, y) {
      assert HeaderOk(m', h, q) && EndOk(m', h, q, y);
    }
  }

  /** Taking the block at position `k` of list `i` out, by copying its link over the word that leads to it. */
  lemma Unlink(m: seq<nat>, h: Heap, y: set<nat>, l: map<nat, nat>, i: nat, k: nat)
    requires Holds(m, h, y, l) && i < LISTS && k < |h.lists[i]|
    ensures Slot(h, i, k) < |m|
    ensures var p := h.lists[i][k]; var m' := m[Slot(h, i, k) := Word(m, p)];
            Holds(m', Take(h, i, k), y, l) && Same(m, m', l) && Unlisted(Take(h, i, k), p)
                && Word(m, p) == LinkTo(h.lists[i], k + 1)
  {
    var c, p := h.lists[i], h.lists[i][k];
    SlotWrite(m, h, y, l, i, k, Word(m, p));
    assert LinksOk(m, i, c) && NoTwice(c) && Word(m, c[k]) == LinkTo(c, k + 1);
    var m' := m[Slot(h, i, k) := Word(m, p)];
    UnlinkChain(m, h, m', i, k);
    TakeShape(h, i, k);
    Relisted(m, h, y, l, m', i, k, Delete(c, k), Take(h, i, k));
  }

  /** Putting block `p`, whose link is already right, at position `k` of list `i`. */
  lemma Link(m: seq<nat>, h: Heap, y: set<nat>, l: map<nat, nat>, i: nat, k: nat, p: nat)
    requires Holds(m, h, y, l) && i < LISTS && k <= |h.lists[i]| && EntryIn(h, i, p) && Unlisted(h, p)
    requires Word(m, p) == LinkTo(h.lists[i], k)
    ensures Slot(h, i, k) < |m|
    ensures var m' := m[Slot(h, i, k) := p]; Holds(m', SetList(h, i, Insert(h.lists[i], k, p)), y, l) && Same(m, m', l)
  {
    var c := h.lists[i];
    SlotWrite(m, h, y, l, i, k, p);
    assert LinksOk(m, i, c) && NoTwice(c);
    var m' := m[Slot(h, i, k) := p];
    LinkChain(m, h, m', i, k, p);
    InsertShape(h, i, k, p);
    Relisted(m, h, y, l, m', i, k, Insert(c, k, p), SetList(h, i, Insert(c, k, p)));
  }

  lemma InsertShape(h: Heap, i: nat, k: nat, p: nat)
    requires ListsIn(h) && i < LISTS && k <= |h.lists[i]| && EntryIn(h, i, p) && Unlisted(h, p)
    ensures ListsIn(SetList(h, i, Insert(h.lists[i], k, p)))
  {
    var h' := SetList(h, i, Insert(h.lists[i], k, p));
    InsertOk(h, h.lists[i], k, p);
    forall j: nat, q: nat | j < LISTS && q in h'.lists[j] ensures EntryIn(h', j, q) {
      assert q != p ==> q in h.lists[j] && EntryIn(h, j, q);
    }
    forall j: nat | j < LISTS ensures NoTwice(h'.lists[j]) { assert NoTwice(h.lists[j]); }
  }

  lemma LinkChain(m: seq<nat>, h: Heap, m': seq<nat>, i: nat, k: nat, p: nat)
    requires ListsIn(h) && i < LISTS && k <= |h.lists[i]| && LinksOk(m, i, h.lists[i]) && Slot(h, i, k) < |m|
    requires FreeAt(h, p) && Unlisted(h, p) && Word(m, p) == LinkTo(h.lists[i], k) && m' == m[Slot(h, i, k) := p]
    requires forall q: nat :: q in h.blocks && (k > 0 ==> q != h.lists[i][k - 1]) ==> Word(m', q) == Word(m, q)
    requires k > 0 ==> Word(m', 4 * i) == Word(m, 4 * i)
    ensures LinksOk(m', i, Insert(h.lists[i], k, p))
  {
    var c := h.lists[i];
    var d := Insert(c, k, p);
    assert NoTwice(c) && p !in c && (k > 0 ==> c[k - 1] in c);
    forall j: nat | j < |d| ensures Word(m', d[j]) == LinkTo(d, j + 1) {
      InsertLinks(c, k, p, j);
      if j != k {
        var a := if j < k then j else j - 1;
        assert c[a] in c && EntryIn(h, i, c[a]) && Word(m, c[a]) == LinkTo(c, a + 1);
        assert a + 1 == k || Word(m', c[a]) == Word(m, c[a]);
      }
    }
  }

  lemma InsertLinks(c: seq<nat>, k: nat, p: nat, j: nat)
    requires k <= |c| && j <= |c|
    ensures var d := Insert(c, k, p);
            && d[k] == p && LinkTo(d, k + 1) == LinkTo(c, k)
            && (j < k ==> d[j] == c[j] && LinkTo(d, j + 1) == if j + 1 == k then p else LinkTo(c, j + 1))
            && (j > k ==> d[j] == c[j - 1] && LinkTo(d, j + 1) == LinkTo(c, j))
  {
  }

  lemma TakeShape(h: Heap, i: nat, k: nat)
    requires ListsIn(h) && i < LISTS && k < |h.lists[i]|
    ensures ListsIn(Take(h, i, k)) && Unlisted(Take(h, i, k), h.lists[i][k])
  {
    var h', p := Take(h, i, k), h.lists[i][k];
    DeleteOk(h.lists[i], k);
    assert p in h.lists[i] && EntryIn(h, i, p);
    forall j: nat, q: nat | j < LISTS && q in h'.lists[j] ensures EntryIn(h', j, q) {
      assert q in h.lists[j] && EntryIn(h, j, q);
    }
    forall j: nat | j < LISTS ensures NoTwice(h'.lists[j]) && p !in h'.lists[j] {
      assert NoTwice(h.lists[j]) && (p in h.lists[j] ==> EntryIn(h, j, p));
    }
  }

  lemma UnlinkChain(m: seq<nat>, h: Heap, m': seq<nat>, i: nat, k: nat)
    requires ListsIn(h) && i < LISTS && k < |h.lists[i]| && LinksOk(m, i, h.lists[i]) && Slot(h, i, k) < |m|
    requires m' == m[Slot(h, i, k) := Word(m, h.lists[i][k])]
    requires forall q: nat :: q in h.blocks && (k > 0 ==> q != h.lists[i][k - 1]) ==> Word(m', q) == Word(m, q)
    requires k > 0 ==> Word(m', 4 * i) == Word(m, 4 * i)
    ensures LinksOk(m', i, Delete(h.lists[i], k))
  {
    var c := h.lists[i];
    var d := Delete(c, k);
    assert Word(m, c[k]) == LinkTo(c, k + 1) && NoTwice(c);
    forall j: nat | j < |d| ensures Word(m', d[j]) == LinkTo(d, j + 1) { UnlinkAt(m, h, m', i, k, j); }
  }

  lemma UnlinkAt(m: seq<nat>, h: Heap, m': seq<nat>, i: nat, k: nat, j: nat)
    requires ListsIn(h) && i < LISTS && k < |h.lists[i]| && LinksOk(m, i, h.lists[i]) && Slot(h, i, k) < |m|
    requires m' == m[Slot(h, i, k) := Word(m, h.lists[i][k])] && NoTwice(h.lists[i])
    requires forall q: nat :: q in h.blocks && (k > 0 ==> q != h.lists[i][k - 1]) ==> Word(m', q) == Word(m, q)
    requires j + 1 < |h.lists[i]|
    ensures Word(m', Delete(h.lists[i], k)[j]) == LinkTo(Delete(h.lists[i], k), j + 1)
  {
    var c := h.lists[i];
    DeleteLinks(c, k, j);
    var a := if j < k then j else j + 1;
    assert c[a] in c && EntryIn(h, i, c[a]) && Word(m, c[a]) == LinkTo(c, a + 1) && Word(m, c[k]) == LinkTo(c, k + 1);
    assert a + 1 == k || Word(m', c[a]) == Word(m, c[a]);
  }

  lemma DeleteLinks(c: seq<nat>, k: nat, j: nat)
    requires k < |c| && j + 1 < |c|
    ensures var d, a := Delete(c, k), if j < k then j else j + 1;
            d[j] == c[a] && LinkTo(d, j + 1) == LinkTo(c, if j + 1 == k then k + 1 else a + 1)
  {
  }

  // ---- loosening and tightening ----------------------------------------------------------------------

  lemma Loosen(m: seq<nat>, h: Heap, y: set<nat>, l: map<nat, nat>, y': set<nat>)
    requires Holds(m, h, y, l)
    requires forall p: nat :: p in h.blocks && p in y && p !in y' ==> !h.blocks[p].free
    ensures Holds(m, h, y', l)
  {
    forall p: nat | p in h.blocks ensures EndOk(m, h, p, y') { assert EndOk(m, h, p, y); }
  }

  lemma Reguard(m: seq<nat>, h: Heap, y: set<nat>, l: map<nat, nat>, l': map<nat, nat>)
    requires Holds(m, h, y, l) && Guards(h, l')
    ensures Holds(m, h, y, l')
  {
  }

  lemma SameTrans(m: seq<nat>, m': seq<nat>, m'': seq<nat>, l: map<nat, nat>)
    requires Same(m, m', l) && Same(m', m'', l)
    ensures Same(m, m'', l)
  {
    forall q: nat | q in l ensures SameBytes(m, m'', q, l[q]) {
      assert SameBytes(m, m', q, l[q]) && SameBytes(m', m'', q, l[q]);
    }
  }

  // ---- reading and setting bits ----------------------------------------------------------------------

  function OrFree(v: nat): nat { if FreeBit(v) then v else v + 1 }
  function AndNotFree(v: nat): nat { if FreeBit(v) then v - 1 else v }
  function OrPrev(v: nat): nat { if PrevBit(v) then v else v + 2 }
  function AndNotPrev(v: nat): nat { if PrevBit(v) && v >= 2 then v - 2 else v }
  function PutSize(v: nat, size: nat): nat { size + v % 4 }

  lemma SetsBits(b: Block)
    requires b.size % 8 == 0
    ensures OrFree(Enc(b)) == Enc(b.(free := true)) && AndNotFree(Enc(b)) == Enc(b.(free := false))
    ensures OrPrev(Enc(b)) == Enc(b.(pf := true)) && AndNotPrev(Enc(b)) == Enc(b.(pf := false))
    ensures forall n: nat {:trigger b.(size := n)} :: PutSize(Enc(b), n) == Enc(b.(size := n))
  {
    Decodes(b);
    Bits(b.size / 8);
    assert b.size == 8 * (b.size / 8);
  }

  /** What the header of a block says. */
  lemma ReadHeader(m: seq<nat>, h: Heap, y: set<nat>, l: map<nat, nat>, p: nat)
    requires Holds(m, h, y, l) && p in h.blocks
    ensures HEADER <= p && p + h.blocks[p].size <= h.brk <= |m| && p % 8 == 0 && FIRST <= p
    ensures m[p - HEADER] == Enc(h.blocks[p]) && SizeBits(m[p - HEADER]) == h.blocks[p].size
    ensures FreeBit(m[p - HEADER]) == h.blocks[p].free && PrevBit(m[p - HEADER]) == h.blocks[p].pf
    ensures h.blocks[p].size % 8 == 0 && MIN_BLOCK <= h.blocks[p].size
    ensures Next(h, p) in h.blocks <==> Next(h, p) < h.brk
  {
    assert BlockOk(h, p) && HeaderOk(m, h, p);
    Decodes(h.blocks[p]);
    if Next(h, p) in h.blocks { assert BlockOk(h, Next(h, p)); }
  }
}
