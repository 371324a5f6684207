/** Pools of fixed-size blocks carved out of pages, and the iterator over the blocks in use. `mem` holds the
    pointer at the start of each page, to the next page, and of each free block, to the next free block. */
module Pool {
  import opened Counting

  const LINK_SIZE: nat := 4
  const NULL: nat := 0

  // ---- addresses ---------------------------------------------------------------------------------------------------

  /** `n` addresses from `a` on, `step` bytes apart. */
  function From(a: nat, n: nat, step: nat): seq<nat>
    decreases n
  {
    if n == 0 then [] else [a] + From(a + step, n - 1, step)
  }

  lemma {:induction false} FromAt(a: nat, n: nat, step: nat, i: nat)
    requires i < n
    ensures |From(a, n, step)| == n && From(a, n, step)[i] == a + i * step
    decreases n
  {
    if i > 0 {
      FromAt(a + step, n - 1, step, i - 1);
      assert step + (i - 1) * step == i * step;
    } else if n > 1 {
      FromAt(a + step, n - 1, step, 0);
    }
  }

  lemma {:induction false} FromIn(a: nat, n: nat, step: nat)
    requires step > 0
    ensures |From(a, n, step)| == n && NoTwice(From(a, n, step))
    ensures forall b: nat :: b in From(a, n, step) ==> a <= b && b + step <= a + n * step
    ensures forall b: nat, c: nat :: b in From(a, n, step) && c in From(a, n, step) && b < c ==> b + step <= c
    decreases n
  {
    if n > 0 {
      FromIn(a + step, n - 1, step);
      assert step + (n - 1) * step == n * step;
      NoTwiceSum([a], From(a + step, n - 1, step));
    }
  }

  /** The list with one address more. */
  lemma {:induction false} FromNext(a: nat, n: nat, step: nat)
    ensures From(a, n + 1, step) == From(a, n, step) + [a + n * step]
    decreases n
  {
    if n > 0 {
      FromNext(a + step, n - 1, step);
      assert step + (n - 1) * step == n * step;
    }
  }

  /** The blocks of a page, and of a chain of pages, in the order of the chain. */
  function PageBlocks(p: nat, n: nat, step: nat): seq<nat> { From(p + LINK_SIZE, n, step) }

  function Blocks(pages: seq<nat>, n: nat, step: nat): seq<nat> {
    if pages == [] then [] else PageBlocks(pages[0], n, step) + Blocks(pages[1..], n, step)
  }

  /** Pages do not overlap. */
  predicate ApartFrom(p: nat, q: nat, n: nat, step: nat) {
    p + LINK_SIZE + n * step <= q || q + LINK_SIZE + n * step <= p
  }

  ghost predicate PagesOk(pages: seq<nat>, n: nat, step: nat) {
    && n >= 2 && step >= LINK_SIZE
    && (forall i: nat :: i < |pages| ==> pages[i] > 0)
    && forall i: nat, j: nat :: i < j < |pages| ==> ApartFrom(pages[i], pages[j], n, step)
  }

  lemma TailOk(pages: seq<nat>, n: nat, step: nat)
    requires PagesOk(pages, n, step) && pages != []
    ensures PagesOk(pages[1..], n, step)
  {
    forall i: nat, j: nat | i < j < |pages[1..]| ensures ApartFrom(pages[1..][i], pages[1..][j], n, step) {
      assert ApartFrom(pages[i + 1], pages[j + 1], n, step);
    }
  }

  /** Every block lies inside one of the pages. */
  lemma {:induction false} BlockInPage(pages: seq<nat>, n: nat, step: nat, b: nat) returns (i: nat)
    requires PagesOk(pages, n, step) && b in Blocks(pages, n, step)
    ensures i < |pages| && b in PageBlocks(pages[i], n, step)
    ensures pages[i] + LINK_SIZE <= b && b + step <= pages[i] + LINK_SIZE + n * step
  {
    FromIn(pages[0] + LINK_SIZE, n, step);
    if b in PageBlocks(pages[0], n, step) { i := 0; } else {
      TailOk(pages, n, step);
      i := BlockInPage(pages[1..], n, step, b);
      i := i + 1;
    }
  }

  /** Blocks never overlap, and each is listed once. */
  lemma {:induction false} BlocksApart(pages: seq<nat>, n: nat, step: nat)
    requires PagesOk(pages, n, step)
    ensures NoTwice(Blocks(pages, n, step))
    ensures forall b: nat, c: nat :: b in Blocks(pages, n, step) && c in Blocks(pages, n, step) && b < c ==>
        b + step <= c
  {
    if pages != [] {
      TailOk(pages, n, step);
      BlocksApart(pages[1..], n, step);
      FromIn(pages[0] + LINK_SIZE, n, step);
      forall b: nat, c: nat | b in PageBlocks(pages[0], n, step) && c in Blocks(pages[1..], n, step)
        ensures b + step <= c || c + step <= b
      { AcrossPages(pages, n, step, b, c); }
      NoTwiceSum(PageBlocks(pages[0], n, step), Blocks(pages[1..], n, step));
    }
  }

  lemma AcrossPages(pages: seq<nat>, n: nat, step: nat, b: nat, c: nat)
    requires PagesOk(pages, n, step) && pages != [] && b in PageBlocks(pages[0], n, step)
        && c in Blocks(pages[1..], n, step)
    ensures b + step <= c || c + step <= b
  {
    TailOk(pages, n, step);
    FromIn(pages[0] + LINK_SIZE, n, step);
    var i := BlockInPage(pages[1..], n, step, c);
    assert ApartFrom(pages[0], pages[i + 1], n, step);
  }

  // ---- chains -----------------------------------------------------------------------------------

  function LinkTo(l: seq<nat>, k: nat): nat { if k < |l| then l[k] else NULL }

  /** The addresses of `l` are linked in this order, and the last one to `NULL`. */
  predicate Chain(mem: map<nat, nat>, l: seq<nat>) {
    forall k: nat :: k < |l| ==> l[k] != NULL && l[k] in mem && mem[l[k]] == LinkTo(l, k + 1)
  }

  lemma ChainFrame(mem: map<nat, nat>, l: seq<nat>, a: nat, v: nat)
    requires Chain(mem, l) && a !in l
    ensures Chain(mem[a := v], l)
  {
  }

  lemma ChainFront(mem: map<nat, nat>, l: seq<nat>, a: nat)
    requires Chain(mem, l) && a !in l && a != NULL
    ensures Chain(mem[a := LinkTo(l, 0)], [a] + l)
  {
  }

  lemma NoneLeft(mem: map<nat, nat>, l: seq<nat>)
    requires Chain(mem, l) && LinkTo(l, 0) == NULL
    ensures l == []
  {
  }

  lemma ChainTail(mem: map<nat, nat>, l: seq<nat>)
    requires Chain(mem, l) && NoTwice(l) && l != []
    ensures Chain(mem, l[1..]) && NoTwice(l[1..]) && mem[l[0]] == LinkTo(l[1..], 0)
    ensures l == [l[0]] + l[1..] && forall x: nat :: x in l <==> x == l[0] || x in l[1..]
    ensures l[0] !in l[1..]
  {
    forall k: nat | k < |l[1..]| ensures l[1..][k] == l[k + 1] && mem[l[k + 1]] == LinkTo(l[1..], k + 1) {}
  }

  // ---- the pool ---------------------------------------------------------------------------------

  class Pool {
    const pageSize: nat
    const blockSize: nat
    var firstPage: nat
    var freeList: nat
    var mem: map<nat, nat>
    ghost var pages: seq<nat>
    ghost var free: seq<nat>

    /** All blocks, free and in use. */
    ghost function All(): seq<nat>
      reads this
    {
      Blocks(pages, pageSize, blockSize)
    }

    ghost predicate InUse(b: nat)
      reads this
    {
      b in All() && b !in free
    }

    ghost predicate Valid()
      reads this
    {
      && PagesOk(pages, pageSize, blockSize)
      && Chain(mem, pages) && firstPage == LinkTo(pages, 0)
      && Chain(mem, free) && freeList == LinkTo(free, 0)
      && NoTwice(free) && forall b: nat :: b in free ==> b in All()
    }

    constructor (pageSize: nat, blockSize: nat)
      requires pageSize >= 2 && blockSize >= LINK_SIZE
      ensures Valid() && All() == [] && free == [] && this.pageSize == pageSize && this.blockSize == blockSize
    {
      this.pageSize, this.blockSize := pageSize, blockSize;
      firstPage, freeList, mem, pages, free := NULL, NULL, map[], [], [];
    }

    /** Gives a block back. */
    method Free(b: nat)
      requires Valid() && InUse(b)
      modifies this
      ensures Valid() && free == [b] + old(free) && pages == old(pages)
    {
      NotAPage(pages, pageSize, blockSize, b);
      ChainFrame(mem, pages, b, freeList);
      ChainFront(mem, free, b);
      mem := mem[b := freeList];
      freeList := b;
      free := [b] + free;
    }

    /** Takes a free block, or the first block of a new page, which the operating system puts at `at`, or null if there
        is neither. */
    method Alloc(at: nat) returns (b: nat)
      requires Valid() && (at != NULL ==> forall i: nat :: i < |pages| ==> ApartFrom(at, pages[i], pageSize, blockSize))
      modifies this
      ensures Valid() && (b == NULL <==> old(free) == [] && at == NULL)
      ensures b == NULL ==> pages == old(pages) && free == old(free)
      ensures b != NULL ==> !old(InUse(b)) && InUse(b)
      ensures forall c: nat :: c != b ==> (InUse(c) <==> old(InUse(c)))
      ensures b != NULL ==>
                if old(free) == [] then pages == [at] + old(pages) else pages == old(pages) && free == old(free)[1..]
    {
      FreeNotNull(pages, pageSize, blockSize, free);
      if freeList != NULL { b := TakeFree(); } else { b := AllocPage(at); }
    }

    method TakeFree() returns (b: nat)
      requires Valid() && freeList != NULL
      modifies this`freeList, this`free
      ensures Valid() && old(free) == [b] + free && !old(InUse(b)) && InUse(b)
      ensures forall c: nat :: c != b ==> (InUse(c) <==> old(InUse(c)))
    {
      b := freeList;
      ChainTail(mem, free);
      freeList := mem[freeList];
      free := free[1..];
    }

    method AllocPage(at: nat) returns (b: nat)
      requires Valid() && freeList == NULL
      requires at != NULL ==> forall i: nat :: i < |pages| ==> ApartFrom(at, pages[i], pageSize, blockSize)
      modifies this
      ensures Valid() && old(free) == [] && (b == NULL <==> at == NULL)
      ensures b == NULL ==> pages == old(pages) && free == old(free)
      ensures b != NULL ==> !old(InUse(b)) && InUse(b) && pages == [at] + old(pages)
      ensures forall c: nat :: c != b ==> (InUse(c) <==> old(InUse(c)))
    {
      NoneLeft(mem, free);
      b := AddPage(at);
      if b != NULL { NewPageUse(at, old(pages), pageSize, blockSize, free); }
    }

    /** Chains a new page, if the operating system has one, and threads all of its blocks but the first on the free
        list, the last one first. */
    method AddPage(at: nat) returns (b: nat)
      requires Valid()
      requires at != NULL ==> forall i: nat :: i < |pages| ==> ApartFrom(at, pages[i], pageSize, blockSize)
      modifies this
      ensures Valid() && b == if at == NULL then NULL else at + LINK_SIZE
      ensures at == NULL ==> pages == old(pages) && free == old(free)
      ensures at != NULL ==> pages == [at] + old(pages)
      ensures at != NULL ==> free == Reversed(From(at + LINK_SIZE + blockSize, pageSize - 1, blockSize)) + old(free)
    {
      if at == NULL { return NULL; }
      ghost var chain, was := pages, free;
      CarvePage(at);
      NewPageFree(at, chain, pageSize, blockSize, was, free);
      b := at + LINK_SIZE;
    }

    /** Links the new page and its blocks. */
    method CarvePage(at: nat)
      requires Valid() && at != NULL
      requires forall i: nat :: i < |pages| ==> ApartFrom(at, pages[i], pageSize, blockSize)
      modifies this
      ensures Chained() && PagesOk(pages, pageSize, blockSize)
      ensures pages == [at] + old(pages) && firstPage == at && freeList == LinkTo(free, 0)
      ensures free == Reversed(From(at + LINK_SIZE + blockSize, pageSize - 1, blockSize)) + old(free)
    {
      NewPageOutside(at, pages, pageSize, blockSize, free);
      LinkPage(at);
      var ptr := at + LINK_SIZE + blockSize;
      var limit := ptr + (pageSize - 1) * blockSize;
      Thread(ptr, limit, pageSize - 1);
    }

    /** Puts a page at the front of the chain of pages. */
    method LinkPage(at: nat)
      requires Chained() && firstPage == LinkTo(pages, 0) && at !in pages && at !in free && at != NULL
      modifies this`mem, this`firstPage, this`pages
      ensures Chained() && pages == [at] + old(pages) && firstPage == at
    {
      ChainFrame(mem, free, at, firstPage);
      ChainFront(mem, pages, at);
      mem := mem[at := firstPage];
      firstPage, pages := at, [at] + pages;
    }

    /** The chains, with the head of the free list still to be set. */
    ghost predicate Chained()
      reads this
    {
      Chain(mem, pages) && Chain(mem, free) && NoTwice(free)
    }

    /** Puts block `b` at the front of the free list. */
    method ThreadOne(b: nat, next: nat)
      requires Chained() && b !in pages && b !in free && b != NULL && next == LinkTo(free, 0)
      modifies this`mem, this`free
      ensures Chained() && free == [b] + old(free)
    {
      ChainFrame(mem, pages, b, next);
      ChainFront(mem, free, b);
      NoTwiceSum([b], free);
      mem := mem[b := next];
      free := [b] + free;
    }

    /** The first `k` blocks are threaded. */
    ghost predicate Threaded(start: nat, n: nat, k: nat, ptr: nat, was: seq<nat>)
      reads this
    {
      && 1 <= k <= n && ptr == start + k * blockSize && ptr > blockSize
      && Chained() && LinkTo(free, 0) == ptr - blockSize
      && free == Reversed(From(start, k, blockSize)) + was
    }

    /** Threads the blocks from `start` to `limit` on the free list. */
    method Thread(start: nat, limit: nat, ghost n: nat)
      requires Chained() && freeList == LinkTo(free, 0) && n >= 1 && blockSize > 0
      requires start > 0 && limit == start + n * blockSize
      requires Outside(From(start, n, blockSize), pages, free)
      modifies this`mem, this`freeList, this`free
      ensures Chained() && freeList == LinkTo(free, 0)
      ensures free == Reversed(From(start, n, blockSize)) + old(free)
    {
      ghost var was := free;
      ThreadedFirst(start, n, blockSize);
      ThreadOne(start, freeList);
      var ptr: nat := start + blockSize;
      ghost var k: nat := 1;
      while ptr != limit
        invariant Threaded(start, n, k, ptr, was)
        decreases n - k
      {
        NextThread(start, n, k, blockSize, ptr, limit, pages, was, free);
        ThreadOne(ptr, ptr - blockSize);
        ptr, k := ptr + blockSize, k + 1;
      }
      SameCount(k, n, blockSize);
      freeList := limit - blockSize;
    }
  }

  /** None of `l` is a page or on the free list. */
  ghost predicate Outside(l: seq<nat>, pages: seq<nat>, free: seq<nat>) {
    forall b: nat :: b in l ==> b !in pages && b !in free
  }

  lemma NextThread(start: nat, n: nat, k: nat, step: nat, ptr: nat, limit: nat, pages: seq<nat>, was: seq<nat>,
      free: seq<nat>)
    requires k <= n && step > 0 && ptr == start + k * step && limit == start + n * step && ptr != limit
    requires Outside(From(start, n, step), pages, was) && free == Reversed(From(start, k, step)) + was
    ensures k < n && ptr !in pages && ptr !in free
    ensures [ptr] + free == Reversed(From(start, k + 1, step)) + was && start + (k + 1) * step == ptr + step
  {
    NextBlockIs(start, n, k, step);
    ThreadedNext(start, k, step);
  }

  lemma ThreadedFirst(start: nat, n: nat, step: nat)
    requires n >= 1
    ensures start in From(start, n, step) && Reversed(From(start, 1, step)) == [start] && 1 * step == step
  {
    FromAt(start, n, step, 0);
    assert From(start, 1, step) == [start];
  }

  lemma ThreadedNext(start: nat, k: nat, step: nat)
    ensures Reversed(From(start, k + 1, step)) == [start + k * step] + Reversed(From(start, k, step))
    ensures start + (k + 1) * step == start + k * step + step
  {
    FromNext(start, k, step);
    ReversedNext(From(start, k, step), start + k * step);
  }

  lemma SameCount(k: nat, n: nat, step: nat)
    requires k * step == n * step && step > 0
    ensures k == n
  {
    assert (n - k) * step == n * step - k * step;
    if k != n { NotZero(n - k, step); }
  }

  lemma NotZero(z: int, step: nat)
    requires z != 0 && step > 0
    ensures z * step != 0
  {
  }

  /** The next block to be threaded is one of those still to be threaded, and is not on the list yet. */
  lemma NextBlockIs(start: nat, n: nat, k: nat, step: nat)
    requires k <= n && step > 0 && k * step != n * step
    ensures k < n && start + k * step in From(start, n, step) && start + k * step !in From(start, k, step)
  {
    FromAt(start, n, step, k);
    FromIn(start, k, step);
  }

  lemma {:induction false} ReversedNext(l: seq<nat>, x: nat)
    ensures Reversed(l + [x]) == [x] + Reversed(l)
  {
    if l != [] {
      assert (l + [x])[1..] == l[1..] + [x];
      ReversedNext(l[1..], x);
    } else {
      assert (l + [x])[1..] == [];
    }
  }

  lemma NewPageOutside(at: nat, pages: seq<nat>, n: nat, step: nat, free: seq<nat>)
    requires PagesOk(pages, n, step) && at > 0 && forall i: nat :: i < |pages| ==> ApartFrom(at, pages[i], n, step)
    requires forall b: nat :: b in free ==> b in Blocks(pages, n, step)
    ensures PagesOk([at] + pages, n, step) && at !in pages && at !in free
    ensures Outside(From(at + LINK_SIZE + step, n - 1, step), [at] + pages, free)
  {
    var l := [at] + pages;
    forall i: nat, j: nat | i < j < |l| ensures ApartFrom(l[i], l[j], n, step) {
      assert i == 0 ==> ApartFrom(at, pages[j - 1], n, step);
      assert i > 0 ==> ApartFrom(pages[i - 1], pages[j - 1], n, step);
    }
    NewBlocks(at, pages, n, step);
  }

  lemma NewPageFree(at: nat, pages: seq<nat>, n: nat, step: nat, was: seq<nat>, free: seq<nat>)
    requires PagesOk([at] + pages, n, step) && free == Reversed(From(at + LINK_SIZE + step, n - 1, step)) + was
    requires forall b: nat :: b in was ==> b in Blocks(pages, n, step)
    ensures forall b: nat :: b in free ==> b in Blocks([at] + pages, n, step)
  {
    NewBlocks(at, pages, n, step);
  }

  /** What is in use once a page has been added to a pool without free blocks. */
  lemma NewPageUse(at: nat, pages: seq<nat>, n: nat, step: nat, free: seq<nat>)
    requires PagesOk([at] + pages, n, step) && free == Reversed(From(at + LINK_SIZE + step, n - 1, step)) + []
    ensures var all, was := Blocks([at] + pages, n, step), Blocks(pages, n, step);
            && at + LINK_SIZE in all && at + LINK_SIZE !in free && at + LINK_SIZE !in was
            && forall c: nat :: c != at + LINK_SIZE ==> (c in all && c !in free <==> c in was)
  {
    NewBlocks(at, pages, n, step);
    FirstAndRest(at, pages, n, step, at + LINK_SIZE, From(at + LINK_SIZE + step, n - 1, step), Blocks(pages, n, step));
    assert free == Reversed(From(at + LINK_SIZE + step, n - 1, step));
    OnlyFirstUsed(at + LINK_SIZE, From(at + LINK_SIZE + step, n - 1, step), Blocks([at] + pages, n, step),
        Blocks(pages, n, step), free);
  }

  lemma FirstAndRest(at: nat, pages: seq<nat>, n: nat, step: nat, first: nat, rest: seq<nat>, was: seq<nat>)
    requires PageBlocks(at, n, step) == [first] + rest && step > 0
    requires forall b: nat :: b in PageBlocks(at, n, step) ==> b !in was
    requires first == at + LINK_SIZE && rest == From(at + LINK_SIZE + step, n - 1, step) && n > 0
    ensures first !in rest && first !in was && forall x: nat :: x in rest ==> x !in was
  {
    FromAbove(at + LINK_SIZE + step, n - 1, step);
    assert first in [first] + rest;
    forall x: nat | x in rest ensures x !in was { assert x in [first] + rest; }
  }

  /** Of the blocks of a new page, only the first is in use. */
  lemma OnlyFirstUsed(first: nat, rest: seq<nat>, all: seq<nat>, was: seq<nat>, free: seq<nat>)
    requires all == [first] + rest + was && first !in rest && first !in was
    requires forall x: nat :: x in free <==> x in rest
    requires forall x: nat :: x in rest ==> x !in was
    ensures first in all && first !in free && forall c: nat :: c != first ==> (c in all && c !in free <==> c in was)
  {
    assert first in [first] + rest;
  }

  lemma FreeNotNull(pages: seq<nat>, n: nat, step: nat, free: seq<nat>)
    requires PagesOk(pages, n, step) && forall b: nat :: b in free ==> b in Blocks(pages, n, step)
    ensures NULL !in free
  {
    if NULL in free { NotAPage(pages, n, step, NULL); }
  }

  lemma {:induction false} FromAbove(a: nat, n: nat, step: nat)
    ensures forall b: nat :: b in From(a, n, step) ==> a <= b
    decreases n
  {
    if n > 0 { FromAbove(a + step, n - 1, step); }
  }

  function Reversed(l: seq<nat>): (r: seq<nat>)
    ensures |r| == |l| && forall x: nat :: x in r <==> x in l
  {
    if l == [] then [] else Reversed(l[1..]) + [l[0]]
  }

  lemma NotAPage(pages: seq<nat>, n: nat, step: nat, b: nat)
    requires PagesOk(pages, n, step) && b in Blocks(pages, n, step)
    ensures b !in pages && b != NULL
  {
    var i := BlockInPage(pages, n, step, b);
    forall j: nat | j < |pages| ensures pages[j] != b {
      assert i < j ==> ApartFrom(pages[i], pages[j], n, step);
      assert j < i ==> ApartFrom(pages[j], pages[i], n, step);
    }
  }

  /** The blocks of a new page are new, and none of them is a page. */
  lemma NewBlocks(at: nat, pages: seq<nat>, n: nat, step: nat)
    requires PagesOk([at] + pages, n, step)
    ensures Blocks([at] + pages, n, step) == PageBlocks(at, n, step) + Blocks(pages, n, step)
    ensures at !in pages && at !in Blocks(pages, n, step)
    ensures forall b: nat :: b in PageBlocks(at, n, step) ==> b !in Blocks(pages, n, step) && b !in [at] + pages
    ensures PageBlocks(at, n, step) == [at + LINK_SIZE] + From(at + LINK_SIZE + step, n - 1, step)
  {
    var l := [at] + pages;
    assert l[1..] == pages;
    forall b: nat | b in PageBlocks(at, n, step) ensures b !in Blocks(pages, n, step) && b !in l {
      assert b in Blocks(l, n, step);
      NotAPage(l, n, step, b);
      if b in Blocks(pages, n, step) { AcrossPages(l, n, step, b, b); }
    }
    forall i: nat | i < |pages| ensures at != pages[i] { assert ApartFrom(l[0], l[i + 1], n, step); }
    if at in Blocks(pages, n, step) { NotAPage(l, n, step, at); }
  }
}
