/** The scheduler heap of dc2/src/dc_sched_heap.c: a binary heap in an array that is shifted around a
    hole, with a sentinel key on either side. */
module SchedHeap {
  import opened DcState

  const MIN_HEAP_SIZE := 16

  /** The entry at `i` is not below an entry with a greater key. */
  predicate UpOk(s: seq<Item>, i: nat)
    requires i < |s|
  {
    s[i / 2].key <= s[i].key
  }

  /** The entry at `i` is not less than `key`. */
  predicate AtLeast(s: seq<Item>, i: nat, key: nat)
    requires i < |s|
  {
    key <= s[i].key
  }

  /** Entries 1 to `n` are heap-ordered and 0 is the left sentinel. */
  ghost predicate Ordered(s: seq<Item>, n: nat)
    requires n < |s|
  {
    s[0].key == 0 && forall i: nat :: 2 <= i <= n ==> UpOk(s, i)
  }

  /** The same, with a hole at `h` that takes no part but must fit between its neighbours. */
  ghost predicate OrderedAround(s: seq<Item>, n: nat, h: nat)
    requires h <= n < |s|
  {
    && s[0].key == 0
    && (forall i: nat :: 2 <= i <= n && i != h && i / 2 != h ==> UpOk(s, i))
    && (2 <= h ==> FitsAbove(s, n, h, s[h / 2].key))
  }

  /** No entry below the hole at `h` has a key less than `key`. */
  ghost predicate FitsAbove(s: seq<Item>, n: nat, h: nat, key: nat)
    requires n < |s|
  {
    && (2 <= 2 * h <= n ==> AtLeast(s, 2 * h, key))
    && (2 <= 2 * h + 1 <= n ==> AtLeast(s, 2 * h + 1, key))
  }

  /** The entries 1 to `n`. */
  function Entries(s: seq<Item>, n: nat): multiset<Item>
    requires n < |s|
  {
    multiset(s[1..n + 1])
  }

  /** Moving the entry at `from` into the hole at `h` moves the hole to `from`. */
  lemma MoveHole(s: seq<Item>, n: nat, h: nat, from: nat, x: Item)
    requires 1 <= h <= n < |s| && 1 <= from <= n && h != from
    ensures Entries(s[h := s[from]][from := x], n) == Entries(s[h := x], n)
  {
    var t := s[1..n + 1];
    assert s[h := x][1..n + 1] == t[h - 1 := x];
    assert s[h := s[from]][from := x][1..n + 1] == t[h - 1 := t[from - 1]][from - 1 := x];
  }

  lemma {:induction false} RootIsLeast(s: seq<Item>, n: nat, i: nat)
    requires n < |s| && Ordered(s, n) && 1 <= i <= n
    ensures s[1].key <= s[i].key
    decreases i
  {
    if i > 1 {
      assert UpOk(s, i);
      RootIsLeast(s, n, i / 2);
    }
  }

  /** Dropping the last entry. */
  lemma DropLast(s: seq<Item>, n: nat)
    requires 1 <= n < |s|
    ensures Entries(s, n) == Entries(s, n - 1) + multiset{s[n]}
  {
    assert s[1..n + 1] == s[1..n] + [s[n]];
  }

  lemma BubbleStep(s: seq<Item>, n: nat, h: nat, key: nat)
    requires n < |s| && 1 <= h <= n && OrderedAround(s, n, h) && FitsAbove(s, n, h, key) && s[h / 2].key > key
    ensures h / 2 >= 1
    ensures OrderedAround(s[h := s[h / 2]], n, h / 2) && FitsAbove(s[h := s[h / 2]], n, h / 2, key)
  {
    var p := h / 2;
    var s' := s[h := s[p]];
    assert h != 1;
    var sibling := if h == 2 * p then h + 1 else h - 1;
    assert sibling <= n ==> UpOk(s, sibling);
    assert p >= 2 ==> UpOk(s, p);
    forall i: nat | 2 <= i <= n && i != p && i / 2 != p ensures UpOk(s', i) {
      if i / 2 == h {
        assert i == 2 * h || i == 2 * h + 1;
        assert AtLeast(s, i, s[p].key);
      } else {
        assert UpOk(s, i);
      }
    }
  }

  /** What shifting the hole from `start` to `pos` did to the array. */
  ghost predicate Bubbled(s: seq<Item>, s': seq<Item>, n: nat, start: nat, pos: nat, x: Item)
    requires 1 <= start <= n < |s|
  {
    && |s'| == |s| && 1 <= pos <= start
    && OrderedAround(s', n, pos) && FitsAbove(s', n, pos, x.key)
    && Entries(s'[pos := x], n) == Entries(s[start := x], n)
    && s'[start + 1..] == s[start + 1..]
    && (pos == start ==> s' == s)
  }

  lemma BubbledStep(s: seq<Item>, s': seq<Item>, n: nat, start: nat, pos: nat, x: Item)
    requires 1 <= start <= n < |s| && Bubbled(s, s', n, start, pos, x) && s'[pos / 2].key > x.key
    ensures pos / 2 >= 1 && Bubbled(s, s'[pos := s'[pos / 2]], n, start, pos / 2, x)
  {
    BubbleStep(s', n, pos, x.key);
    MoveHole(s', n, pos, pos / 2, x);
  }

  /** The shifting loop of both operations: moves entries with a key greater than that of `x` down into
      the hole, up to the place where `x` fits. */
  method Bubble(heap: array<Item>, n: nat, start: nat, newKey: nat, ghost x: Item) returns (pos: nat)
    requires 1 <= start <= n < heap.Length && x.key == newKey
    requires OrderedAround(heap[..], n, start) && FitsAbove(heap[..], n, start, x.key)
    modifies heap
    ensures Bubbled(old(heap[..]), heap[..], n, start, pos, x) && heap[..][pos / 2].key <= x.key
    ensures old(heap[..])[start / 2].key <= x.key ==> pos == start
  {
    pos := start;
    ghost var s, t := heap[..], heap[..];
    while heap[pos / 2].key > newKey
      invariant heap[..] == t && 1 <= pos <= start
      invariant Bubbled(s, t, n, start, pos, x)
      invariant pos < start ==> s[start / 2].key > x.key
      decreases pos
    {
      BubbledStep(s, t, n, start, pos, x);
      heap[pos] := heap[pos / 2];
      t := t[pos := t[pos / 2]];
      pos := pos / 2;
    }
  }

  lemma SinkStep(s: seq<Item>, n: nat, h: nat, succ: nat)
    requires n < |s| && 1 <= h && 2 * h + 1 <= n && (succ == 2 * h || succ == 2 * h + 1) && OrderedAround(s, n, h)
    requires s[succ].key <= s[2 * h].key && s[succ].key <= s[2 * h + 1].key
    ensures OrderedAround(s[h := s[succ]], n, succ)
  {
    var s' := s[h := s[succ]];
    assert h >= 2 ==> AtLeast(s, succ, s[h / 2].key);
    forall i: nat | 2 <= i <= n && i != succ && i / 2 != succ ensures UpOk(s', i) {
      if i / 2 == h { assert i == 2 * h || i == 2 * h + 1; } else if i != h { assert UpOk(s, i); }
    }
    assert 2 * succ <= n ==> UpOk(s, 2 * succ);
    assert 2 * succ + 1 <= n ==> UpOk(s, 2 * succ + 1);
  }

  /** What moving the hole from the root down to `hole` did to the array. */
  ghost predicate Sunk(s: seq<Item>, s': seq<Item>, sz: nat, hole: nat, top: Item)
    requires 1 <= sz < |s|
  {
    && |s'| == |s| && 1 <= hole <= sz
    && OrderedAround(s', sz, hole)
    && s'[sz] == s[sz] && (hole == sz >= 2 ==> s'[sz / 2] == s[sz])
    && Entries(s'[hole := top], sz) == Entries(s[1 := top], sz)
  }

  lemma SunkStep(s: seq<Item>, s': seq<Item>, sz: nat, hole: nat, succ: nat, top: Item)
    requires 1 <= sz < |s| && Sunk(s, s', sz, hole, top) && 2 * hole < sz
    requires if s'[2 * hole].key > s'[2 * hole + 1].key then succ == 2 * hole + 1 else succ == 2 * hole
    ensures Sunk(s, s'[hole := s'[succ]], sz, succ, top)
  {
    SinkStep(s', sz, hole, succ);
    MoveHole(s', sz, hole, succ, top);
  }

  /** The first loop of `pick`: moves the hole from the root down to a leaf, or to the last entry. */
  method Sink(heap: array<Item>, sz: nat, ghost top: Item) returns (hole: nat)
    requires 1 <= sz < heap.Length && Ordered(heap[..], sz)
    modifies heap
    ensures Sunk(old(heap[..]), heap[..], sz, hole, top) && sz <= 2 * hole
  {
    hole := 1;
    var succ := 2;
    ghost var s, t := heap[..], heap[..];
    while succ < sz
      invariant heap[..] == t && 1 <= hole && succ == 2 * hole
      invariant Sunk(s, t, sz, hole, top)
    {
      var key1, key2 := heap[succ].key, heap[succ + 1].key;
      if key1 > key2 {
        succ := succ + 1;
        heap[hole] := heap[hole].(key := key2);
      } else {
        heap[hole] := heap[hole].(key := key1);
      }
      heap[hole] := heap[hole].(obj := heap[succ].obj);
      SunkStep(s, t, sz, hole, succ, top);
      t := t[hole := t[succ]];
      hole := succ;
      succ := 2 * succ;
    }
  }

  /** Filling the hole with an entry that fits gives a heap. */
  lemma FillHole(s: seq<Item>, n: nat, h: nat, x: Item)
    requires n < |s| && 1 <= h <= n && OrderedAround(s, n, h) && FitsAbove(s, n, h, x.key) && s[h / 2].key <= x.key
    ensures Ordered(s[h := x], n)
  {
    var s' := s[h := x];
    forall i: nat | 2 <= i <= n ensures UpOk(s', i) {
      if i / 2 == h { assert (i == 2 * h || i == 2 * h + 1) && AtLeast(s, i, x.key); } else if i != h {
        assert UpOk(s, i);
      }
    }
  }

  lemma OrderedLess(s: seq<Item>, n: nat)
    requires 1 <= n < |s| && Ordered(s, n)
    ensures Ordered(s, n - 1)
  {}

  /** Writes an entry into the hole and the right sentinel at `end`. */
  method PutEntry(heap: array<Item>, hole: nat, newKey: nat, obj: Obj, end: nat)
    requires 1 <= hole <= end < heap.Length
    requires Ordered(heap[..][hole := Item(newKey, obj)], end - 1)
    modifies heap
    ensures Ordered(heap[..], end - 1)
    ensures Entries(heap[..], end - 1) == Entries(old(heap[..])[hole := Item(newKey, obj)], end - 1)
  {
    ghost var s := heap[..];
    heap[hole] := heap[hole].(key := newKey);
    heap[hole] := heap[hole].(obj := obj);
    assert heap[..] == s[hole := Item(newKey, obj)];
    heap[end] := heap[end].(key := MAX_TIME_STAMP);
    assert heap[..end] == s[hole := Item(newKey, obj)][..end];
    SamePrefix(s[hole := Item(newKey, obj)], heap[..], end - 1);
  }

  /** Inserts an entry into the heap of the entries before `n`. */
  method InsertLast(heap: array<Item>, n: nat, obj: Obj, newKey: nat)
    requires 1 <= n && n + 1 < heap.Length && Ordered(heap[..], n - 1)
    modifies heap
    ensures Ordered(heap[..], n)
    ensures Entries(heap[..], n) == old(Entries(heap[..], n - 1)) + multiset{Item(newKey, obj)}
  {
    ghost var x := Item(newKey, obj);
    StartBubble(heap[..], n, x);
    var pos := Bubble(heap, n, n, newKey, x);
    FillHole(heap[..], n, pos, x);
    PutEntry(heap, pos, newKey, obj, n + 1);
  }

  /** Removes the root of the heap of the entries up to `sz`. */
  method RemoveFirst(heap: array<Item>, sz: nat) returns (top: Item)
    requires 1 <= sz < heap.Length && Ordered(heap[..], sz)
    modifies heap
    ensures Ordered(heap[..], sz - 1)
    ensures IsMin(old(Entries(heap[..], sz)), top)
    ensures Entries(heap[..], sz - 1) == old(Entries(heap[..], sz)) - multiset{top}
  {
    ghost var before := heap[..];
    top := heap[1];
    TopIsMin(before, sz);
    var hole := Sink(heap, sz, top);
    ghost var s, start := heap[..], hole;
    ghost var last := s[sz];
    var bubble := heap[sz].key;
    LastFits(before, s, sz, hole, top);
    hole := Bubble(heap, sz, hole, bubble, last);
    HoleFilled(before, s, heap[..], sz, start, hole, top);
    FillHole(heap[..], sz, hole, last);
    OrderedLess(heap[..][hole := last], sz);
    PutEntry(heap, hole, bubble, heap[sz].obj, sz);
  }

  class Heap {
    var heap: array<Item>
    var num: nat

    ghost predicate Valid()
      reads this, heap
    {
      && num + 1 < heap.Length && MIN_HEAP_SIZE <= heap.Length
      && Ordered(heap[..], num)
    }

    ghost function Contents(): multiset<Item>
      requires Valid()
      reads this, heap
    {
      Entries(heap[..], num)
    }

    constructor ()
      ensures Valid() && fresh(heap) && Contents() == multiset{}
    {
      heap := new Item[MIN_HEAP_SIZE](_ => Item(0, ConsObj(0)));
      num := 0;
    }

    /** Makes room for one more entry and the right sentinel. */
    method Reserve()
      requires Valid()
      modifies this
      ensures Valid() && num == old(num) && num + 2 < heap.Length
      ensures heap == old(heap) || fresh(heap)
      ensures old(heap.Length) <= heap.Length && heap[..old(heap.Length)] == old(heap[..])
    {
      ghost var s := heap[..];
      if num + 2 == heap.Length {
        var bigger := new Item[heap.Length + heap.Length / 2](_ => Item(0, ConsObj(0)));
        var size := heap.Length;
        forall i | 0 <= i < size { bigger[i] := heap[i]; }
        assert bigger[..size] == s;
        SameOrder(s, bigger[..], num);
        heap := bigger;
      }
    }

    /** Inserts `obj` under the time stamp it has now. */
    method Schedule(obj: Obj, newKey: nat)
      requires Valid()
      modifies this, heap
      ensures Valid() && (heap == old(heap) || fresh(heap))
      ensures Contents() == old(Contents()) + multiset{Item(newKey, obj)}
    {
      Reserve();
      SamePrefix(old(heap[..]), heap[..], num);
      num := num + 1;
      InsertLast(heap, num, obj, newKey);
    }

    /** Takes out an entry with the least key, if there is one. */
    method Pick() returns (picked: Option<Item>)
      requires Valid()
      modifies this, heap
      ensures Valid() && heap == old(heap)
      ensures old(Contents()) == multiset{} ==> picked == None && Contents() == multiset{}
      ensures old(Contents()) != multiset{} ==>
                picked.Some? && IsMin(old(Contents()), picked.value)
                    && Contents() == old(Contents()) - multiset{picked.value}
    {
      if num == 0 { return None; }
      var top := RemoveFirst(heap, num);
      num := num - 1;
      picked := Some(top);
    }
  }

  /** Order and contents depend on the entries 0 to `n` only. */
  lemma SamePrefix(s: seq<Item>, s': seq<Item>, n: nat)
    requires n < |s| && n < |s'| && s'[..n + 1] == s[..n + 1]
    ensures Ordered(s, n) ==> Ordered(s', n)
    ensures Entries(s', n) == Entries(s, n)
  {
    assert forall i: nat :: i <= n ==> s'[i] == s'[..n + 1][i] && s[i] == s[..n + 1][i];
    assert forall i: nat :: 2 <= i <= n && UpOk(s, i) ==> UpOk(s', i);
    assert s'[1..n + 1] == s'[..n + 1][1..] && s[1..n + 1] == s[..n + 1][1..];
  }

  lemma SameOrder(s: seq<Item>, s': seq<Item>, n: nat)
    requires n < |s| <= |s'| && s'[..|s|] == s && Ordered(s, n)
    ensures Ordered(s', n)
  {
    assert s'[..n + 1] == s'[..|s|][..n + 1];
    SamePrefix(s, s', n);
  }

  /** The place after the last entry is a hole in which any entry fits. */
  lemma StartBubble(s: seq<Item>, n: nat, x: Item)
    requires 1 <= n < |s| && Ordered(s, n - 1)
    ensures OrderedAround(s, n, n) && FitsAbove(s, n, n, x.key)
    ensures Entries(s[n := x], n) == Entries(s, n - 1) + multiset{x}
  {
    DropLast(s[n := x], n);
    assert s[n := x][1..n] == s[1..n];
  }

  lemma LastFits(before: seq<Item>, s: seq<Item>, sz: nat, hole: nat, top: Item)
    requires 1 <= sz < |before| && Sunk(before, s, sz, hole, top) && sz <= 2 * hole
    ensures FitsAbove(s, sz, hole, s[sz].key)
  {}

  lemma TopIsMin(s: seq<Item>, n: nat)
    requires 1 <= n < |s| && Ordered(s, n)
    ensures IsMin(Entries(s, n), s[1])
  {
    assert s[1..n + 1][0] == s[1];
    forall other | other in Entries(s, n) ensures s[1].key <= other.key {
      var i :| 0 <= i < n && s[1..n + 1][i] == other;
      RootIsLeast(s, n, i + 1);
    }
  }

  /** In the end the entries but the last are the old ones without the picked one, and in order. */
  lemma HoleFilled(before: seq<Item>, s: seq<Item>, s': seq<Item>, sz: nat, start: nat, hole: nat, top: Item)
    requires 1 <= sz < |before| && before[1] == top && Sunk(before, s, sz, start, top)
    requires Bubbled(s, s', sz, start, hole, s[sz]) && (start == sz ==> hole == start)
    ensures Entries(s'[hole := s[sz]], sz - 1) == Entries(before, sz) - multiset{top}
    ensures s'[sz] == s[sz]
  {
    var last := s[sz];
    assert before[1 := top] == before;
    SwapOut(s, sz, start, top, last);
    DropLast(s'[hole := last], sz);
    assert s'[hole := last][sz] == last;
    CancelEntry(Entries(s'[hole := last], sz), Entries(s'[hole := last], sz - 1), Entries(before, sz), last, top);
  }

  lemma CancelEntry(whole: multiset<Item>, rest: multiset<Item>, before: multiset<Item>, last: Item, top: Item)
    requires whole == rest + multiset{last} && whole + multiset{top} == before + multiset{last}
    ensures rest == before - multiset{top}
  {
    forall x ensures rest[x] == (before - multiset{top})[x] {
      assert whole[x] == (rest + multiset{last})[x];
      assert (whole + multiset{top})[x] == (before + multiset{last})[x];
    }
  }

  lemma SwapOut(s: seq<Item>, sz: nat, h: nat, x: Item, y: Item)
    requires 1 <= h <= sz < |s|
    ensures Entries(s[h := y], sz) + multiset{x} == Entries(s[h := x], sz) + multiset{y}
  {
    var t := s[1..sz + 1];
    assert s[h := x][1..sz + 1] == t[h - 1 := x];
    assert s[h := y][1..sz + 1] == t[h - 1 := y];
  }
}
