/** The iterator over the blocks in use of a pool: it walks through the pages in chain order, and skips the
    free blocks with the help of a sorted array of their addresses. */
module PoolIterator {
  import opened Counting
  import opened P = Pool

  // ---- sorting, as the standard library does it -------------------------------------------------

  predicate Ascending(l: seq<nat>) { forall i: nat, j: nat :: i < j < |l| ==> l[i] < l[j] }

  function InsertSorted(l: seq<nat>, x: nat): (r: seq<nat>)
    requires Ascending(l) && x !in l
    ensures Ascending(r) && forall y: nat :: y in r <==> y in l || y == x
  {
    if l == [] || x < l[0] then [x] + l
    else
      assert l == [l[0]] + l[1..];
      var t := InsertSorted(l[1..], x);
      assert forall y: nat :: y in t ==> y in l[1..] || y == x;
      assert forall k: nat :: k < |t| ==> t[k] in t;
      [l[0]] + t
  }

  function Sorted(l: seq<nat>): (r: seq<nat>)
    requires NoTwice(l)
    ensures Ascending(r) && forall y: nat :: y in r <==> y in l
  {
    if l == [] then []
    else
      assert l == [l[0]] + l[1..];
      assert l[0] !in l[1..];
      InsertSorted(Sorted(l[1..]), l[0])
  }

  /** The addresses before `i` are less than `a`, and the others are not. */
  predicate SplitsAt(l: seq<nat>, i: nat, a: nat) {
    i <= |l| && (forall k: nat :: k < i ==> l[k] < a) && forall k: nat :: i <= k < |l| ==> a <= l[k]
  }

  /** Binary search for the smallest address not less than `a`. */
  method Lookup(l: seq<nat>, a: nat) returns (i: nat)
    requires Ascending(l)
    ensures SplitsAt(l, i, a)
  {
    i := 0;
    var j := |l|;
    while i < j
      invariant i <= j <= |l|
      invariant forall k: nat :: k < i ==> l[k] < a
      invariant forall k: nat :: j <= k < |l| ==> a <= l[k]
    {
      var m := (i + j) / 2;
      if l[m] == a { return m; }
      if l[m] < a { i := m + 1; } else { j := m; }
    }
  }

  // ---- blocks in use ----------------------------------------------------------------------------

  /** The blocks of `l` that are not free, in order. */
  function Used(l: seq<nat>, free: seq<nat>): (r: seq<nat>)
    ensures forall b: nat :: b in r <==> b in l && b !in free
  {
    if l == [] then [] else if l[0] in free then Used(l[1..], free) else [l[0]] + Used(l[1..], free)
  }

  lemma UsedFront(b: nat, l: seq<nat>, free: seq<nat>)
    ensures Used([b] + l, free) == if b in free then Used(l, free) else [b] + Used(l, free)
  {
    assert ([b] + l)[1..] == l;
  }

  lemma {:induction false} UsedOnce(l: seq<nat>, free: seq<nat>)
    requires NoTwice(l)
    ensures NoTwice(Used(l, free))
  {
    if l != [] {
      assert l == [l[0]] + l[1..] && l[0] !in l[1..];
      UsedOnce(l[1..], free);
      NoTwiceSum([l[0]], Used(l[1..], free));
    }
  }

  // ---- the iterator -----------------------------------------------------------------------------

  class Iterator {
    const pool: Pool
    var sorted: seq<nat>
    var idx: nat
    var currPage: nat
    var currBlock: nat
    var currPageLimit: nat
    ghost var left: nat       // blocks left in the current page
    ghost var later: seq<nat> // pages after it

    /** The blocks still to be visited. */
    ghost function Rest(): seq<nat>
      reads this, pool
    {
      if currBlock == NULL then [] else From(currBlock, left, pool.blockSize) + Blocks(later, pool.pageSize,
          pool.blockSize)
    }

    /** Where the iterator stands in the pool. */
    ghost predicate Standing()
      reads this, pool
    {
      && pool.Valid() && Ascending(sorted) && (forall b: nat :: b in sorted <==> b in pool.free)
      && (currBlock != NULL ==>
            && left >= 1 && currPageLimit == currBlock + left * pool.blockSize
            && currPage in pool.mem && pool.mem[currPage] == LinkTo(later, 0) && Chain(pool.mem, later)
            && forall b: nat :: b in Rest() ==> b in pool.All())
    }

    ghost predicate Valid()
      reads this, pool
    {
      Standing() && (currBlock != NULL ==> SplitsAt(sorted, idx, currBlock))
    }

    /** An iterator at the first block of the first page. */
    constructor (pool: Pool)
      requires pool.Valid()
      ensures Valid() && this.pool == pool && Rest() == pool.All()
    {
      this.pool := pool;
      sorted, idx, currPage, currBlock, currPageLimit, left, later := [], 0, NULL, NULL, 0, 0, [];
      new;
      var free := FreeBlocks(pool);
      sorted := Sorted(free);
      if pool.firstPage != NULL {
        FirstOf(pool.mem, pool.pages);
        EnterPage(pool.firstPage, pool.pages);
        assert currBlock != NULL;
      } else {
        NoneLeft(pool.mem, pool.pages);
      }
    }

    /** Starts on page `p`, the first of the pages `all`. */
    method EnterPage(p: nat, ghost all: seq<nat>)
      requires pool.Valid() && Ascending(sorted) && (forall b: nat :: b in sorted <==> b in pool.free)
      requires all != [] && all[0] == p && Chain(pool.mem, all)
      requires forall b: nat :: b in Blocks(all, pool.pageSize, pool.blockSize) ==> b in pool.All()
      modifies this`idx, this`currPage, this`currBlock, this`currPageLimit, this`left, this`later
      ensures Valid() && currBlock != NULL && Rest() == Blocks(all, pool.pageSize, pool.blockSize)
    {
      currPage := p;
      currBlock := p + LINK_SIZE;
      currPageLimit := p + LINK_SIZE + pool.pageSize * pool.blockSize;
      left, later := pool.pageSize, all[1..];
      ChainRest(pool.mem, all);
      idx := Lookup(sorted, currBlock);
    }

    /** Moves on to the next block, on the next page if need be. */
    method Advance()
      requires Standing() && currBlock != NULL
      requires idx <= |sorted| && (forall k: nat :: k < idx ==> sorted[k] <= currBlock)
      requires forall k: nat :: idx <= k < |sorted| ==> currBlock < sorted[k]
      modifies this`idx, this`currPage, this`currBlock, this`currPageLimit, this`left, this`later
      ensures Valid() && old(Rest()) == [old(currBlock)] + Rest()
    {
      ghost var rest := Rest();
      RestNext(currBlock, left, pool.blockSize, Blocks(later, pool.pageSize, pool.blockSize));
      assert rest[0] == currBlock && currBlock in rest;
      NextApart(pool.pages, pool.pageSize, pool.blockSize, currBlock, sorted, idx);
      currBlock := currBlock + pool.blockSize;
      left := left - 1;
      if currBlock == currPageLimit {
        SameCount(0, left, pool.blockSize);
        LeavePage();
      }
    }

    /** Goes to the next page of the chain, if there is one. */
    method LeavePage()
      requires pool.Valid() && Ascending(sorted) && (forall b: nat :: b in sorted <==> b in pool.free)
      requires currPage in pool.mem && pool.mem[currPage] == LinkTo(later, 0) && Chain(pool.mem, later)
      requires forall b: nat :: b in Blocks(later, pool.pageSize, pool.blockSize) ==> b in pool.All()
      modifies this`idx, this`currPage, this`currBlock, this`currPageLimit, this`left, this`later
      ensures Valid() && Rest() == Blocks(old(later), pool.pageSize, pool.blockSize)
    {
      currPage := pool.mem[currPage];
      if currPage == NULL {
        NoneLeft(pool.mem, later);
        currBlock := NULL;
      } else {
        FirstOf(pool.mem, later);
        EnterPage(currPage, later);
      }
    }

    /** The next block in use, or `NULL` if there are no more. */
    method NextBlock() returns (b: nat)
      requires Valid()
      modifies this`idx, this`currPage, this`currBlock, this`currPageLimit, this`left, this`later
      ensures Valid()
      ensures var u := Used(old(Rest()), pool.free);
              if u == [] then b == NULL && Rest() == [] else b == u[0] && Used(Rest(), pool.free) == u[1..]
    {
      ghost var u := Used(Rest(), pool.free);
      while currBlock != NULL && idx < |sorted| && currBlock == sorted[idx]
        invariant Valid() && Used(Rest(), pool.free) == u
        decreases |Rest()|
      {
        SkipFree();
      }
      b := currBlock;
      if currBlock != NULL { TakeUsed(); }
    }

    /** Passes over a free block. */
    method SkipFree()
      requires Valid() && currBlock != NULL && idx < |sorted| && currBlock == sorted[idx]
      modifies this`idx, this`currPage, this`currBlock, this`currPageLimit, this`left, this`later
      ensures Valid() && Used(Rest(), pool.free) == Used(old(Rest()), pool.free) && |Rest()| < |old(Rest())|
    {
      ghost var a := currBlock;
      PassFree(sorted, idx, a);
      idx := idx + 1;
      Advance();
      UsedFront(a, Rest(), pool.free);
    }

    /** Passes over a block in use. */
    method TakeUsed()
      requires Valid() && currBlock != NULL && (idx < |sorted| ==> currBlock != sorted[idx])
      modifies this`idx, this`currPage, this`currBlock, this`currPageLimit, this`left, this`later
      ensures Valid() && Used(old(Rest()), pool.free) == [old(currBlock)] + Used(Rest(), pool.free)
    {
      ghost var a := currBlock;
      NotFree(sorted, idx, currBlock);
      Advance();
      UsedFront(a, Rest(), pool.free);
    }
  }

  /** The addresses on the free list. */
  method FreeBlocks(pool: Pool) returns (l: seq<nat>)
    requires pool.Valid()
    ensures l == pool.free
  {
    l := [];
    var block := pool.freeList;
    while block != NULL
      invariant |l| <= |pool.free| && l == pool.free[..|l|] && block == LinkTo(pool.free, |l|)
      decreases |pool.free| - |l|
    {
      l := l + [block];
      block := pool.mem[block];
    }
    EndOfChain(pool.mem, pool.free, |l|);
  }

  lemma EndOfChain(mem: map<nat, nat>, l: seq<nat>, k: nat)
    requires Chain(mem, l) && k <= |l| && LinkTo(l, k) == NULL
    ensures k == |l| && l[..k] == l
  {
  }

  lemma FirstOf(mem: map<nat, nat>, l: seq<nat>)
    requires Chain(mem, l) && LinkTo(l, 0) != NULL
    ensures l != [] && l[0] == LinkTo(l, 0)
  {
  }

  lemma ChainRest(mem: map<nat, nat>, l: seq<nat>)
    requires Chain(mem, l) && l != []
    ensures Chain(mem, l[1..]) && l[0] in mem && mem[l[0]] == LinkTo(l[1..], 0)
  {
    forall k: nat | k < |l[1..]| ensures l[1..][k] == l[k + 1] && mem[l[k + 1]] == LinkTo(l[1..], k + 1) {}
  }

  /** The blocks still to be visited, without the first. */
  lemma RestNext(a: nat, n: nat, step: nat, more: seq<nat>)
    requires n >= 1
    ensures From(a, n, step) + more == [a] + (From(a + step, n - 1, step) + more)
    ensures n * step == step + (n - 1) * step
    ensures n == 1 ==> From(a + step, n - 1, step) + more == more
    ensures forall b: nat :: b in From(a + step, n - 1, step) + more ==> b in From(a, n, step) + more
  {
  }

  /** No free block lies between a block and the next one of its page. */
  lemma NextApart(pages: seq<nat>, n: nat, step: nat, a: nat, sorted: seq<nat>, idx: nat)
    requires PagesOk(pages, n, step) && a in Blocks(pages, n, step) && idx <= |sorted|
    requires forall b: nat :: b in sorted ==> b in Blocks(pages, n, step)
    requires forall k: nat :: k < idx ==> sorted[k] <= a
    requires forall k: nat :: idx <= k < |sorted| ==> a < sorted[k]
    ensures SplitsAt(sorted, idx, a + step)
  {
    BlocksApart(pages, n, step);
    forall k: nat | idx <= k < |sorted| ensures a + step <= sorted[k] { assert sorted[k] in sorted; }
  }

  lemma PassFree(sorted: seq<nat>, idx: nat, a: nat)
    requires Ascending(sorted) && SplitsAt(sorted, idx, a) && idx < |sorted| && sorted[idx] == a
    ensures a in sorted && (forall k: nat :: k < idx + 1 ==> sorted[k] <= a)
        && forall k: nat :: idx + 1 <= k < |sorted| ==> a < sorted[k]
  {
  }

  /** An address that is not the next free one is not free at all. */
  lemma NotFree(sorted: seq<nat>, idx: nat, a: nat)
    requires Ascending(sorted) && SplitsAt(sorted, idx, a) && (idx < |sorted| ==> sorted[idx] != a)
    ensures a !in sorted && forall k: nat :: idx <= k < |sorted| ==> a < sorted[k]
  {
    forall k: nat | idx <= k < |sorted| ensures a < sorted[k] { assert sorted[idx] <= sorted[k]; }
  }

  /** What an iterator visits from the start: each block in use of each page exactly once, and nothing else. */
  lemma VisitsUsedOnce(pages: seq<nat>, n: nat, step: nat, free: seq<nat>)
    requires PagesOk(pages, n, step)
    ensures var u := Used(Blocks(pages, n, step), free);
            NoTwice(u) && forall b: nat :: b in u <==> b in Blocks(pages, n, step) && b !in free
  {
    BlocksApart(pages, n, step);
    UsedOnce(Blocks(pages, n, step), free);
  }
}
