/** The indexed heap: entries keep their handle for life, a heap of handles orders them by any strict weak
    order on keys, each entry knows its heap position, and handles given back are reused. */
module IndexedHeap {

  const EMPTY_SLOT: nat := 0xffff_ffff
  const INIT_SIZE: nat := 64

  datatype Entry = Entry(item: nat, key: nat, idx: nat)

  type Order = (nat, nat) -> bool

  ghost predicate StrictWeak(less: Order) {
    && (forall a: nat, b: nat :: less(a, b) ==> !less(b, a))
    && (forall a: nat, b: nat, c: nat :: !less(a, b) && !less(b, c) ==> !less(a, c))
  }

  function KeyAt(p: seq<nat>, e: seq<Entry>, i: nat): nat { if i < |p| && p[i] < |e| then e[p[i]].key else 0 }

  /** The entry at position `i` is not less than the one at `j`. */
  predicate Fits(less: Order, p: seq<nat>, e: seq<Entry>, i: nat, j: nat) { !less(KeyAt(p, e, i), KeyAt(p, e, j)) }

  predicate UpFits(less: Order, p: seq<nat>, e: seq<Entry>, i: nat) { Fits(less, p, e, i, i / 2) }

  /** Positions 1 to `n` are in heap order but for a hole at `h`, whose neighbours fit each other. 0 is no hole. */
  ghost predicate OrderedAround(less: Order, p: seq<nat>, e: seq<Entry>, n: nat, h: nat) {
    && (forall i: nat :: 2 <= i <= n && i != h && i / 2 != h ==> UpFits(less, p, e, i))
    && (2 <= h && 2 * h <= n ==> Fits(less, p, e, 2 * h, h / 2))
    && (2 <= h && 2 * h + 1 <= n ==> Fits(less, p, e, 2 * h + 1, h / 2))
  }

  /** No entry below the hole is less than `key`. */
  predicate Above(less: Order, p: seq<nat>, e: seq<Entry>, n: nat, h: nat, key: nat) {
    && (2 * h <= n ==> !less(KeyAt(p, e, 2 * h), key))
    && (2 * h + 1 <= n ==> !less(KeyAt(p, e, 2 * h + 1), key))
  }

  /** The entry above the hole is not greater than `key`. */
  predicate Below(less: Order, p: seq<nat>, e: seq<Entry>, h: nat, key: nat) {
    h >= 2 ==> !less(key, KeyAt(p, e, h / 2))
  }

  predicate PosOk(p: seq<nat>, e: seq<Entry>, live: set<nat>, i: nat) {
    i < |p| && p[i] in live && p[i] < |e| && e[p[i]].idx == i
  }

  predicate HandleOk(p: seq<nat>, e: seq<Entry>, n: nat, h: nat, x: nat) {
    x < |e| && 1 <= e[x].idx <= n && e[x].idx != h && e[x].idx < |p| && p[e[x].idx] == x
  }

  /** The handles of `live` are at the positions 1 to `n` but the hole `h`, and know where. */
  ghost predicate Placed(p: seq<nat>, e: seq<Entry>, n: nat, h: nat, live: set<nat>) {
    && (forall i: nat :: 1 <= i <= n && i != h ==> PosOk(p, e, live, i))
    && (forall x: nat :: x in live ==> HandleOk(p, e, n, h, x))
  }

  /** Same items and keys; only positions may differ. */
  ghost predicate SameEntries(e: seq<Entry>, e': seq<Entry>) {
    |e'| == |e| && forall x: nat :: x < |e| ==> e'[x] == e[x].(idx := e'[x].idx)
  }

  /** Moving the entry at `j` into the hole at `h`. */
  lemma Moved(p: seq<nat>, e: seq<Entry>, n: nat, h: nat, j: nat, live: set<nat>)
    requires Placed(p, e, n, h, live) && 1 <= h < |p| && h <= n && 1 <= j <= n && j != h
    ensures PosOk(p, e, live, j)
    ensures var p', e' := p[h := p[j]], e[p[j] := e[p[j]].(idx := h)];
            Placed(p', e', n, j, live) && SameEntries(e, e')
            && forall i: nat :: 1 <= i <= n && i != h ==> KeyAt(p', e', i) == KeyAt(p, e, i)
  {
    assert PosOk(p, e, live, j);
    var p', e' := p[h := p[j]], e[p[j] := e[p[j]].(idx := h)];
    forall i: nat | 1 <= i <= n && i != j ensures PosOk(p', e', live, i) { assert i != h ==> PosOk(p, e, live, i); }
    forall x: nat | x in live ensures HandleOk(p', e', n, j, x) { assert HandleOk(p, e, n, h, x); }
    forall i: nat | 1 <= i <= n && i != h ensures KeyAt(p', e', i) == KeyAt(p, e, i) { assert PosOk(p, e, live, i); }
  }

  /** The hole moves up, and the entry above it down. */
  lemma MovedUp(less: Order, p: seq<nat>, e: seq<Entry>, n: nat, h: nat, live: set<nat>, key: nat, p': seq<nat>,
      e': seq<Entry>)
    requires StrictWeak(less) && OrderedAround(less, p, e, n, h) && Above(less, p, e, n, h, key)
        && Placed(p, e, n, h, live)
    requires 2 <= h <= n < |p| && less(key, KeyAt(p, e, h / 2)) && PosOk(p, e, live, h / 2)
    requires p' == p[h := p[h / 2]] && e' == e[p[h / 2] := e[p[h / 2]].(idx := h)]
    ensures OrderedAround(less, p', e', n, h / 2) && Above(less, p', e', n, h / 2, key)
  {
    var u := h / 2;
    Moved(p, e, n, h, u, live);
    assert KeyAt(p', e', h) == KeyAt(p, e, u);
    forall i: nat | 2 <= i <= n && i != u && i / 2 != u ensures UpFits(less, p', e', i) {
      if i / 2 == h {
        assert i == 2 * h || i == 2 * h + 1;
      } else {
        assert UpFits(less, p, e, i);
      }
    }
    forall c: nat | c == 2 * u || c == 2 * u + 1
        ensures c <= n ==> !less(KeyAt(p', e', c), key) && (u >= 2 ==> Fits(less, p', e', c, u / 2)) {
      assert u >= 2 ==> UpFits(less, p, e, u);
      assert c != h && c <= n ==> UpFits(less, p, e, c);
    }
  }

  /** The hole moves down, and the lesser entry below it up. */
  lemma MovedDown(less: Order, p: seq<nat>, e: seq<Entry>, n: nat, h: nat, j: nat, live: set<nat>, key: nat,
      p': seq<nat>, e': seq<Entry>)
    requires StrictWeak(less) && OrderedAround(less, p, e, n, h) && Placed(p, e, n, h, live)
    requires 1 <= h <= n < |p| && j / 2 == h && j <= n && less(KeyAt(p, e, j), key) && PosOk(p, e, live, j)
    requires forall c: nat :: c / 2 == h && c <= n ==> Fits(less, p, e, c, j)
    requires p' == p[h := p[j]] && e' == e[p[j] := e[p[j]].(idx := h)]
    ensures OrderedAround(less, p', e', n, j) && Below(less, p', e', j, key)
  {
    Moved(p, e, n, h, j, live);
    assert KeyAt(p', e', h) == KeyAt(p, e, j);
    forall i: nat | 2 <= i <= n && i != j && i / 2 != j ensures UpFits(less, p', e', i) {
      if i == h {
        assert Fits(less, p, e, j, h / 2);
      } else if i / 2 == h {
        assert Fits(less, p, e, i, j);
      } else {
        assert UpFits(less, p, e, i);
      }
    }
    forall c: nat | c / 2 == j && c <= n ensures Fits(less, p', e', c, h) { assert UpFits(less, p, e, c); }
    assert 2 * j <= n ==> (2 * j) / 2 == j;
    assert 2 * j + 1 <= n ==> (2 * j + 1) / 2 == j;
  }

  /** Entry `x` fills the hole, in a heap of `m` positions from now on: the last one may be given up. */
  lemma Filled(less: Order, p: seq<nat>, e: seq<Entry>, n: nat, h: nat, live: set<nat>, x: nat, b: Entry,
               p': seq<nat>, e': seq<Entry>)
    requires OrderedAround(less, p, e, n, h) && Above(less, p, e, n, h, b.key) && Below(less, p, e, h, b.key)
    requires Placed(p, e, n, h, live) && 1 <= h <= n < |p| && x < |e| && x !in live && b.idx == h
    requires p' == p[h := x] && e' == e[x := b]
    ensures OrderedAround(less, p', e', n, 0) && Placed(p', e', n, 0, live + {x})
    ensures forall y: nat :: y in live ==> e'[y] == e[y]
  {
    forall i: nat | 1 <= i <= n
        ensures PosOk(p', e', live + {x}, i) && (i != h ==> KeyAt(p', e', i) == KeyAt(p, e, i)) {
      assert i != h ==> PosOk(p, e, live, i);
    }
    forall y: nat | y in live + {x} ensures HandleOk(p', e', n, 0, y) { assert y != x ==> HandleOk(p, e, n, h, y); }
    forall i: nat | 2 <= i <= n ensures UpFits(less, p', e', i) {
      if i != h && i / 2 != h { assert UpFits(less, p, e, i); }
      assert i / 2 == h ==> i == 2 * h || i == 2 * h + 1;
    }
  }

  /** Where there is no hole, taking an entry out makes one. */
  lemma Emptied(less: Order, p: seq<nat>, e: seq<Entry>, n: nat, live: set<nat>, x: nat)
    requires StrictWeak(less) && OrderedAround(less, p, e, n, 0) && Placed(p, e, n, 0, live) && x in live
    ensures HandleOk(p, e, n, 0, x)
    ensures var h := e[x].idx;
            && OrderedAround(less, p, e, n, h) && Placed(p, e, n, h, live - {x})
            && (forall key: nat :: less(key, e[x].key) ==> Above(less, p, e, n, h, key))
            && (forall key: nat :: !less(key, e[x].key) ==> Below(less, p, e, h, key))
  {
    assert HandleOk(p, e, n, 0, x);
    var h := e[x].idx;
    assert KeyAt(p, e, h) == e[x].key;
    forall i: nat | 1 <= i <= n && i != h ensures PosOk(p, e, live - {x}, i) { assert PosOk(p, e, live, i); }
    forall y: nat | y in live - {x} ensures HandleOk(p, e, n, h, y) { assert HandleOk(p, e, n, 0, y); }
    assert 2 <= h ==> UpFits(less, p, e, h);
    assert 2 * h <= n ==> UpFits(less, p, e, 2 * h) && (2 * h) / 2 == h;
    assert 2 * h + 1 <= n ==> UpFits(less, p, e, 2 * h + 1) && (2 * h + 1) / 2 == h;
  }

  /** The first entry is a minimum. */
  lemma {:induction false} RootIsLeast(less: Order, p: seq<nat>, e: seq<Entry>, n: nat, i: nat)
    requires StrictWeak(less) && OrderedAround(less, p, e, n, 0) && 1 <= i <= n
    ensures Fits(less, p, e, i, 1)
    decreases i
  {
    if i > 1 {
      assert UpFits(less, p, e, i);
      RootIsLeast(less, p, e, n, i / 2);
    } else {
      assert !less(KeyAt(p, e, 1), KeyAt(p, e, 1));
    }
  }

  // ---- the loops -------------------------------------------------------------------------------------

  /** A heap of `n` positions with a hole at `h`, for arrays `p` and `e`. */
  ghost predicate Around(less: Order, p: seq<nat>, e: seq<Entry>, n: nat, h: nat, live: set<nat>) {
    StrictWeak(less) && OrderedAround(less, p, e, n, h) && Placed(p, e, n, h, live) && 1 <= h <= n < |p|
  }

  /** Finds the position for a key that no entry below the hole is less than. */
  method SiftUp(heap: array<nat>, entries: array<Entry>, less: Order, n: nat, start: nat, key: nat,
      ghost live: set<nat>)
    returns (h: nat)
    requires Around(less, heap[..], entries[..], n, start, live) && Above(less, heap[..], entries[..], n, start, key)
    modifies heap, entries
    ensures h <= start && (h < start ==> h < n) && Around(less, heap[..], entries[..], n, h, live)
    ensures Above(less, heap[..], entries[..], n, h, key) && Below(less, heap[..], entries[..], h, key)
    ensures SameEntries(old(entries[..]), entries[..])
        && forall i: nat :: start < i < heap.Length ==> heap[i] == old(heap[i])
    ensures forall x: nat :: x < entries.Length && x !in live ==> entries[x] == old(entries[x])
  {
    h := start;
    while h > 1
      invariant h <= start && Around(less, heap[..], entries[..], n, h, live)
          && Above(less, heap[..], entries[..], n, h, key)
      invariant SameEntries(old(entries[..]), entries[..])
          && forall i: nat :: start < i < heap.Length ==> heap[i] == old(heap[i])
      invariant forall x: nat :: x < entries.Length && x !in live ==> entries[x] == old(entries[x])
    {
      ghost var p, e := heap[..], entries[..];
      assert PosOk(p, e, live, h / 2);
      if !less(key, entries[heap[h / 2]].key) { break; }
      Moved(p, e, n, h, h / 2, live);
      heap[h] := heap[h / 2];
      entries[heap[h]] := entries[heap[h]].(idx := h);
      MovedUp(less, p, e, n, h, live, key, heap[..], entries[..]);
      h := h / 2;
    }
  }

  /** Finds the position for a key that is not less than the entry above the hole. */
  method SiftDown(heap: array<nat>, entries: array<Entry>, less: Order, n: nat, start: nat, key: nat,
      ghost live: set<nat>)
    returns (h: nat)
    requires Around(less, heap[..], entries[..], n, start, live) && Below(less, heap[..], entries[..], start, key)
    modifies heap, entries
    ensures start <= h && Around(less, heap[..], entries[..], n, h, live)
    ensures Above(less, heap[..], entries[..], n, h, key) && Below(less, heap[..], entries[..], h, key)
    ensures SameEntries(old(entries[..]), entries[..])
    ensures start < n && !less(KeyAt(old(heap[..]), old(entries[..]), n), key) ==> h < n && heap[n] == old(heap[n])
    ensures forall x: nat :: x < entries.Length && x !in live ==> entries[x] == old(entries[x])
  {
    h := start;
    while true
      invariant start <= h && Around(less, heap[..], entries[..], n, h, live)
          && Below(less, heap[..], entries[..], h, key)
      invariant SameEntries(old(entries[..]), entries[..])
      invariant start < n && !less(KeyAt(old(heap[..]), old(entries[..]), n), key) ==>
                  h < n && heap[n] == old(heap[n])
                      && KeyAt(heap[..], entries[..], n) == KeyAt(old(heap[..]), old(entries[..]), n)
      invariant forall x: nat :: x < entries.Length && x !in live ==> entries[x] == old(entries[x])
      decreases n - h
    {
      ghost var p, e := heap[..], entries[..];
      var j := 2 * h;
      if j > n { break; }
      assert PosOk(p, e, live, j);
      if j < n {
        assert PosOk(p, e, live, j + 1);
        if less(entries[heap[j + 1]].key, entries[heap[j]].key) { j := j + 1; }
      }
      LesserChild(less, p, e, n, h, j);
      if !less(entries[heap[j]].key, key) { break; }
      Moved(p, e, n, h, j, live);
      heap[h] := heap[j];
      entries[heap[h]] := entries[heap[h]].(idx := h);
      MovedDown(less, p, e, n, h, j, live, key, heap[..], entries[..]);
      h := j;
    }
  }

  lemma LesserChild(less: Order, p: seq<nat>, e: seq<Entry>, n: nat, h: nat, j: nat)
    requires StrictWeak(less) && 1 <= h && 2 * h <= n
    requires j == if 2 * h < n && less(KeyAt(p, e, 2 * h + 1), KeyAt(p, e, 2 * h)) then 2 * h + 1 else 2 * h
    ensures j <= n && j / 2 == h && forall c: nat :: c / 2 == h && c <= n ==> Fits(less, p, e, c, j)
    ensures forall key: nat :: !less(KeyAt(p, e, j), key) ==> Above(less, p, e, n, h, key)
  {
    forall c: nat | c / 2 == h && c <= n ensures Fits(less, p, e, c, j) {
      assert c == 2 * h || c == 2 * h + 1;
      assert !less(KeyAt(p, e, j), KeyAt(p, e, j));
    }
    assert Fits(less, p, e, 2 * h, j);
    assert 2 * h + 1 <= n ==> (2 * h + 1) / 2 == h;
  }

  // ---- the heap ----------------------------------------------------------------------------------------

  /** The handles given back: each once, none live, and every handle ever given out is below `bound`. */
  ghost predicate HolesOk(holes: seq<nat>, live: set<nat>, bound: nat) {
    && (forall k: nat :: k < |holes| ==> holes[k] < bound && holes[k] !in live)
    && (forall j: nat, k: nat :: j < k < |holes| ==> holes[j] != holes[k])
    && (forall x: nat :: x in live ==> x < bound)
  }

  /** Handle `x` was at the only position when its entry was extracted, which has overwritten its mark. */
  predicate Stray(p: seq<nat>, e: seq<Entry>, x: nat) { x < |e| && e[x].idx == 1 && |p| > 1 && p[1] == x }

  predicate HolesEmpty(e: seq<Entry>, holes: seq<nat>) {
    forall k: nat :: k < |holes| ==> holes[k] < |e| && e[holes[k]].idx == EMPTY_SLOT
  }

  /** The handles given back are marked as unused, except for the last one if it was extracted as the only one. */
  predicate HolesMarked(p: seq<nat>, e: seq<Entry>, n: nat, holes: seq<nat>) {
    HolesEmpty(e, holes)
    || (n == 0 && holes != [] && Stray(p, e, holes[|holes| - 1]) && HolesEmpty(e, holes[..|holes| - 1]))
  }

  class Heap {
    const less: Order
    var heap: array<nat>
    var entries: array<Entry>
    var holes: array<nat>
    var count: nat
    var holesCount: nat
    ghost var live: set<nat>

    ghost predicate Valid()
      reads this, heap, entries, holes
    {
      && heap != holes && StrictWeak(less)
      && heap.Length == entries.Length + 1 && INIT_SIZE <= entries.Length < EMPTY_SLOT
      && count + holesCount <= entries.Length && holesCount <= holes.Length && INIT_SIZE <= holes.Length
      && OrderedAround(less, heap[..], entries[..], count, 0) && Placed(heap[..], entries[..], count, 0, live)
      && HolesOk(holes[..holesCount], live, count + holesCount)
      && HolesMarked(heap[..], entries[..], count, holes[..holesCount])
    }

    /** A handle that `Add` has given. */
    ghost predicate Given(x: nat)
      reads this, holes
    {
      x in live || (holesCount <= holes.Length && x in holes[..holesCount])
    }

    /** The handle of the entry that has just been extracted, if it was the only one. */
    ghost predicate Extracted(x: nat)
      reads this, heap, entries
    {
      count == 0 && x !in live && Stray(heap[..], entries[..], x)
    }

    /** The map from live handles to items and keys. */
    ghost function Contents(): map<nat, (nat, nat)>
      reads this, entries
    {
      ContentsOf(entries[..], live)
    }

    constructor (less: Order)
      requires StrictWeak(less)
      ensures Valid() && Contents() == map[] && fresh(heap) && fresh(entries) && fresh(holes) && this.less == less
    {
      this.less := less;
      heap := new nat[INIT_SIZE + 1](_ => 0);
      entries := new Entry[INIT_SIZE](_ => Entry(0, 0, 0));
      holes := new nat[INIT_SIZE](_ => 0);
      count, holesCount, live := 0, 0, {};
    }

    /** Is this handle in use, as far as its entry tells? */
    predicate InUse(x: nat)
      reads this, entries
    {
      x < entries.Length && entries[x].idx != EMPTY_SLOT
    }

    /** Makes room for one more entry. */
    method GrowEntries()
      requires Valid() && count == entries.Length && entries.Length + entries.Length / 2 < EMPTY_SLOT
      modifies this`heap, this`entries
      ensures Valid() && fresh(heap) && fresh(entries) && count < entries.Length && Contents() == old(Contents())
    {
      var n := entries.Length;
      var newHeap, newEntries := new nat[n + n / 2 + 1](_ => 0), new Entry[n + n / 2](_ => Entry(0, 0, 0));
      var i := 0;
      while i < n
        invariant 0 <= i <= n && heap == old(heap) && entries == old(entries)
        invariant forall j: nat :: j < i ==> newHeap[j] == heap[j] && newEntries[j] == entries[j]
      {
        newHeap[i], newEntries[i] := heap[i], entries[i];
        i := i + 1;
      }
      newHeap[n] := heap[n];
      Copied(less, heap[..], entries[..], newHeap[..], newEntries[..], count, live);
      heap, entries := newHeap, newEntries;
    }

    /** Adds an entry, and gives its handle. */
    method Add(item: nat, key: nat) returns (x: nat)
      requires Valid() && (count == entries.Length ==> entries.Length + entries.Length / 2 < EMPTY_SLOT)
      modifies this, heap, entries
      ensures Valid() && (heap == old(heap) || fresh(heap)) && (entries == old(entries) || fresh(entries))
          && holes == old(holes)
      ensures x !in old(live) && Contents() == old(Contents())[x := (item, key)]
    {
      if count == entries.Length { GrowEntries(); }
      x := TakeSlot();
      PlaceEntry(x, item, key);
    }

    /** A handle that is not live: a returned one, or else a new one. */
    method TakeSlot() returns (x: nat)
      requires Valid() && count < entries.Length
      modifies this`holesCount, this`count
      ensures Adding(x) && count == old(count) + 1
    {
      x := count;
      if holesCount > 0 {
        holesCount := holesCount - 1;
        x := holes[holesCount];
      }
      count := count + 1;
    }

    /** Valid, but for the last position, for which entry `x` is on its way. */
    ghost predicate Adding(x: nat)
      reads this, heap, entries, holes
    {
      && heap != holes && StrictWeak(less) && heap.Length == entries.Length + 1
          && INIT_SIZE <= entries.Length < EMPTY_SLOT
      && 1 <= count && count + holesCount <= entries.Length && holesCount <= holes.Length && INIT_SIZE <= holes.Length
      && OrderedAround(less, heap[..], entries[..], count - 1, 0) && Placed(heap[..], entries[..], count - 1, 0, live)
      && HolesOk(holes[..holesCount], live + {x}, count + holesCount) && x !in live
      && HolesEmpty(entries[..], holes[..holesCount])
    }

    method PlaceEntry(x: nat, item: nat, key: nat)
      requires Adding(x)
      modifies this`live, heap, entries
      ensures Valid() && live == old(live) + {x} && Contents() == old(Contents())[x := (item, key)]
    {
      ghost var l, e := live, entries[..];
      HoleAtEnd(less, heap[..], entries[..], count, l, key);
      var h := SiftUp(heap, entries, less, count, count, key, l);
      Filled(less, heap[..], entries[..], count, h, l, x, Entry(item, key, h), heap[..][h := x],
          entries[..][x := Entry(item, key, h)]);
      heap[h] := x;
      entries[x] := Entry(item, key, h);
      live := live + {x};
      SameContents(e, entries[..], l, x);
    }

    /** Finds the position where an entry of key `key` may fill the hole left by `x`. */
    method Resift(x: nat, key: nat) returns (h: nat)
      requires Valid() && x in live
      modifies heap, entries
      ensures Around(less, heap[..], entries[..], count, h, live - {x}) && SameEntries(old(entries[..]), entries[..])
      ensures Above(less, heap[..], entries[..], count, h, key) && Below(less, heap[..], entries[..], h, key)
      ensures var was := old(entries[..])[x].idx;
              was < count && !less(KeyAt(old(heap[..]), old(entries[..]), count), key) ==>
                  h < count && heap[count] == old(heap[count])
      ensures old(entries[x].idx) == count && !less(key, old(entries[x].key)) ==> h == count
      ensures forall y: nat :: y < entries.Length && (y == x || y !in live) ==> entries[y] == old(entries[y])
    {
      Emptied(less, heap[..], entries[..], count, live, x);
      if less(key, entries[x].key) {
        h := SiftUp(heap, entries, less, count, entries[x].idx, key, live - {x});
      } else {
        h := SiftDown(heap, entries, less, count, entries[x].idx, key, live - {x});
      }
    }

    /** Gives the entry of `x` another item and key. A handle that is not live is refused, unless it was just extracted
        as the only one: then its old entry is overwritten, and the heap stays empty. */
    method Update(x: nat, item: nat, key: nat) returns (ok: bool)
      requires Valid() && (Given(x) || !InUse(x))
      modifies heap, entries
      ensures Valid() && (ok <==> x in live || old(Extracted(x)))
      ensures Contents() == if x in live then old(Contents())[x := (item, key)] else old(Contents())
      ensures old(Extracted(x)) ==> Extracted(x) && entries[x] == Entry(item, key, 1)
    {
      WhatIsGiven(heap[..], entries[..], count, live, holes[..holesCount], x);
      if x >= entries.Length || entries[x].idx == EMPTY_SLOT { return false; }
      if count == 0 { UpdateExtracted(x, item, key); } else { UpdateLive(x, item, key); }
      ok := true;
    }

    /** Both loops over positions end at once. */
    method UpdateExtracted(x: nat, item: nat, key: nat)
      requires Valid() && Extracted(x)
      modifies heap, entries
      ensures Valid() && Extracted(x) && entries[x] == Entry(item, key, 1) && Contents() == old(Contents())
    {
      ghost var p, e := heap[..], entries[..];
      heap[1] := x;
      entries[x] := Entry(item, key, 1);
      assert heap[..] == p;
      NothingPlaced(less, p, e, entries[..], live, x);
      assert forall k: nat :: k < holesCount && holes[k] != x ==> entries[holes[k]] == e[holes[k]];
    }

    method UpdateLive(x: nat, item: nat, key: nat)
      requires Valid() && x in live
      modifies heap, entries
      ensures Valid() && Contents() == old(Contents())[x := (item, key)] && count > 0
    {
      ghost var e := entries[..];
      LiveInUse(heap[..], e, count, live, x);
      assert HandleOk(heap[..], e, count, 0, x);
      var h := Resift(x, key);
      Filled(less, heap[..], entries[..], count, h, live - {x}, x, Entry(item, key, h), heap[..][h := x],
          entries[..][x := Entry(item, key, h)]);
      heap[h] := x;
      entries[x] := Entry(item, key, h);
      assert live - {x} + {x} == live;
      SameContents(e, entries[..], live, x);
      StillEmpty(e, entries[..], live, holes[..holesCount]);
    }

    /** Takes the entry of `x` out, and keeps the handle for reuse. */
    method Remove(x: nat) returns (ok: bool)
      requires Valid() && (Given(x) || !InUse(x)) && !Extracted(x)
      modifies this, heap, entries, holes
      ensures Valid() && heap == old(heap) && entries == old(entries) && (holes == old(holes) || fresh(holes))
      ensures ok == (x in old(live)) && !InUse(x)
      ensures Contents() == old(Contents()) - {x}
    {
      WhatIsGiven(heap[..], entries[..], count, live, holes[..holesCount], x);
      LiveInUse(heap[..], entries[..], count, live, x);
      if x >= entries.Length || entries[x].idx == EMPTY_SLOT { return false; }
      RemoveLive(x);
      ok := true;
    }

    method RemoveLive(x: nat)
      requires Valid() && x in live && InUse(x)
      modifies this, heap, entries, holes
      ensures Valid() && heap == old(heap) && entries == old(entries) && (holes == old(holes) || fresh(holes))
      ensures !InUse(x) && Contents() == old(Contents()) - {x}
    {
      ghost var e, l := entries[..], live;
      var last := heap[count];
      LastEntry(less, heap[..], e, count, l, x);
      var h := Resift(x, entries[last].key);
      ghost var p1, e1 := heap[..], entries[..];
      entries[last] := entries[last].(idx := h);
      heap[h] := last;
      entries[x] := entries[x].(idx := EMPTY_SLOT);
      LastPlaced(less, p1, e1, count, h, l, x, last, entries[..]);
      StillEmpty(e, entries[..], l, holes[..holesCount]);
      GiveUp(x, e);
    }

    /** Gives the last position up, and the handle `x` back; `e` is what the entries were. */
    method GiveUp(x: nat, ghost e: seq<Entry>)
      requires heap != holes && StrictWeak(less) && heap.Length == entries.Length + 1
          && INIT_SIZE <= entries.Length < EMPTY_SLOT
      requires 1 <= count && count + holesCount <= entries.Length && holesCount <= holes.Length
          && INIT_SIZE <= holes.Length
      requires OrderedAround(less, heap[..], entries[..], count - 1, 0)
      requires Placed(heap[..], entries[..], count - 1, 0, live - {x})
          && HolesOk(holes[..holesCount], live, count + holesCount)
      requires x in live && x < entries.Length && SameEntries(e, entries[..])
      requires HolesEmpty(entries[..], holes[..holesCount])
      requires entries[x].idx == EMPTY_SLOT || (count == 1 && Stray(heap[..], entries[..], x))
      modifies this`live, this`count, this`holes, this`holesCount, holes
      ensures Valid() && (holes == old(holes) || fresh(holes)) && live == old(live) - {x}
      ensures Contents() == ContentsOf(e, old(live)) - {x} && count == old(count) - 1
    {
      SameContents(e, entries[..], live, x);
      live := live - {x};
      count := count - 1;
      PushHole(x);
    }

    /** Valid, but for handle `x`, which is neither live nor among the holes yet. */
    ghost predicate Removing(x: nat)
      reads this, heap, entries, holes
    {
      && heap != holes && StrictWeak(less) && heap.Length == entries.Length + 1
          && INIT_SIZE <= entries.Length < EMPTY_SLOT
      && count + holesCount + 1 <= entries.Length && holesCount <= holes.Length && INIT_SIZE <= holes.Length
      && OrderedAround(less, heap[..], entries[..], count, 0) && Placed(heap[..], entries[..], count, 0, live)
      && HolesOk(holes[..holesCount], live, count + holesCount + 1) && x !in live && x !in holes[..holesCount]
      && x < count + holesCount + 1 && HolesEmpty(entries[..], holes[..holesCount])
      && x < entries.Length && (entries[x].idx == EMPTY_SLOT || (count == 0 && Stray(heap[..], entries[..], x)))
    }

    /** Keeps the handle `x` for reuse. */
    method PushHole(x: nat)
      requires Removing(x)
      modifies this`holes, this`holesCount, holes
      ensures Valid() && (holes == old(holes) || fresh(holes))
    {
      if holesCount == holes.Length { GrowHoles(); }
      ghost var before := holes[..holesCount];
      holes[holesCount] := x;
      holesCount := holesCount + 1;
      assert holes[..holesCount] == before + [x];
      HolePushed(heap[..], entries[..], count, before, x);
    }

    /** Makes room for one more returned handle. */
    method GrowHoles()
      requires holesCount == holes.Length && INIT_SIZE <= holes.Length
      modifies this`holes
      ensures fresh(holes) && holesCount < holes.Length && holes.Length >= INIT_SIZE
      ensures holes[..holesCount] == old(holes[..holesCount])
    {
      var more := new nat[holesCount + holesCount / 2](_ => 0);
      var i := 0;
      while i < holesCount
        invariant 0 <= i <= holesCount && holes == old(holes) && holes[..] == old(holes[..])
        invariant more[..i] == holes[..i]
      {
        more[i] := holes[i];
        i := i + 1;
      }
      holes := more;
    }

    /** Takes out an entry with a minimum key. If it was the only one, its handle is not marked as given up. */
    method ExtractMin() returns (found: bool, item: nat, key: nat, ghost x: nat)
      requires Valid()
      modifies this, heap, entries, holes
      ensures Valid() && heap == old(heap) && entries == old(entries) && (holes == old(holes) || fresh(holes))
      ensures found == (old(count) != 0)
      ensures found ==> x in old(Contents()) && old(Contents())[x] == (item, key) && Contents() == old(Contents()) - {x}
      ensures found ==> forall y: nat :: y in old(Contents()) ==> !less(old(Contents())[y].1, key)
      ensures found ==> (InUse(x) <==> old(count) == 1)
      ensures found && old(count) == 1 ==> Extracted(x) && entries[x] == Entry(item, key, 1)
      ensures !found ==> Contents() == old(Contents())
    {
      found, item, key, x := count != 0, 0, 0, 0;
      if count == 0 { return; }
      ghost var p, e, l := heap[..], entries[..], live;
      var min, last := heap[1], heap[count];
      FirstEntry(less, p, e, count, l);
      x, item, key := min, entries[min].item, entries[min].key;
      RefillTop(min, last);
      StillEmpty(e, entries[..], l, holes[..holesCount]);
      GiveUp(min, e);
    }

    /** Marks the first handle, and moves the last entry to where it fits. */
    method RefillTop(min: nat, last: nat)
      requires StrictWeak(less) && heap.Length == entries.Length + 1 && 1 <= count < heap.Length
      requires OrderedAround(less, heap[..], entries[..], count, 0) && Placed(heap[..], entries[..], count, 0, live)
      requires min == heap[1] && min in live && min < entries.Length && entries[min].idx == 1
      requires last == heap[count] && last in live && last < entries.Length
      requires entries[last].idx == count && KeyAt(heap[..], entries[..], count) == entries[last].key
      modifies heap, entries
      ensures OrderedAround(less, heap[..], entries[..], count - 1, 0)
      ensures Placed(heap[..], entries[..], count - 1, 0, live - {min})
      ensures SameEntries(old(entries[..]), entries[..])
      ensures if count == 1 then Stray(heap[..], entries[..], min) else entries[min].idx == EMPTY_SLOT
      ensures forall y: nat :: y < entries.Length && y !in live ==> entries[y] == old(entries[y])
    {
      var lastKey := entries[last].key;
      Marked(less, heap[..], entries[..], count, live, min);
      entries[min] := entries[min].(idx := EMPTY_SLOT);
      var h := SiftDown(heap, entries, less, count, 1, lastKey, live - {min});
      ghost var p1, e1 := heap[..], entries[..];
      heap[h] := last;
      entries[last] := entries[last].(idx := h);
      LastPlaced(less, p1, e1, count, h, live, min, last, entries[..]);
    }

    /** An entry with a minimum key. */
    method GetMin() returns (found: bool, item: nat, key: nat)
      requires Valid()
      ensures found == (Contents() != map[])
      ensures found ==> (exists x: nat :: x in Contents() && Contents()[x] == (item, key))
                        && forall y: nat :: y in Contents() ==> !less(Contents()[y].1, key)
    {
      found, item, key := count != 0, 0, 0;
      if count == 0 { NothingLive(heap[..], entries[..], live); return; }
      FirstEntry(less, heap[..], entries[..], count, live);
      item, key := entries[heap[1]].item, entries[heap[1]].key;
      assert heap[1] in Contents() && Contents()[heap[1]] == (item, key);
    }

    /** The item and key of a handle. A handle that is not live is refused, unless it was just extracted as the only
        one: then its old entry is given. */
    method GetEntryAt(x: nat) returns (found: bool, item: nat, key: nat)
      requires Valid() && (Given(x) || !InUse(x))
      ensures found <==> x in Contents() || Extracted(x)
      ensures x in Contents() ==> (item, key) == Contents()[x]
      ensures Extracted(x) ==> Entry(item, key, 1) == entries[x]
    {
      WhatIsGiven(heap[..], entries[..], count, live, holes[..holesCount], x);
      LiveInUse(heap[..], entries[..], count, live, x);
      found, item, key := x < entries.Length && entries[x].idx != EMPTY_SLOT, 0, 0;
      if found { item, key := entries[x].item, entries[x].key; }
    }

    /** What `Remove` does with a handle that was just extracted as the only one: it is not refused; the last entry is
        taken from position 0, which holds none; the handle is given back a second time, so that it will be given to
        two entries; and the 32-bit number of entries wraps around. */
    lemma RemoveExtracted(x: nat) returns (last: nat, given: seq<nat>, left: nat)
      requires Valid() && Extracted(x) && Given(x)
      ensures InUse(x) && last == 0 && left == 0xffff_ffff
      ensures given == holes[..holesCount] + [x] && x in holes[..holesCount]
    {
      last, given, left := count, holes[..holesCount] + [x], (count + 0xffff_ffff) % 0x1_0000_0000;
    }
  }

  lemma HolePushed(p: seq<nat>, e: seq<Entry>, n: nat, holes: seq<nat>, x: nat)
    requires HolesEmpty(e, holes) && x < |e| && (e[x].idx == EMPTY_SLOT || (n == 0 && Stray(p, e, x)))
    ensures HolesMarked(p, e, n, holes + [x])
  {
    var l := holes + [x];
    assert l[..|l| - 1] == holes;
  }

  /** A handle that has been given is live, or marked as unused, or was just extracted as the only one. */
  lemma WhatIsGiven(p: seq<nat>, e: seq<Entry>, n: nat, live: set<nat>, holes: seq<nat>, x: nat)
    requires Placed(p, e, n, 0, live) && n < EMPTY_SLOT && HolesMarked(p, e, n, holes)
    requires forall k: nat :: k < |holes| ==> holes[k] !in live
    requires x in live || x in holes || x >= |e| || e[x].idx == EMPTY_SLOT
    ensures x in live ==> n > 0
    ensures x < |e| && e[x].idx != EMPTY_SLOT <==> x in live || (n == 0 && Stray(p, e, x))
  {
    if x in live {
      assert HandleOk(p, e, n, 0, x);
    } else if x in holes {
      var k: nat :| k < |holes| && holes[k] == x;
      assert k < |holes| - 1 ==> holes[..|holes| - 1][k] == x;
    }
  }

  lemma NothingPlaced(less: Order, p: seq<nat>, e: seq<Entry>, e': seq<Entry>, live: set<nat>, x: nat)
    requires Placed(p, e, 0, 0, live) && |e'| == |e|
    ensures live == {} && Placed(p, e', 0, 0, live) && OrderedAround(less, p, e', 0, 0)
    ensures ContentsOf(e', live) == ContentsOf(e, live) == map[]
  {
  }

  /** Operations that change entries of live handles only leave the others marked. */
  lemma StillEmpty(e: seq<Entry>, e': seq<Entry>, live: set<nat>, holes: seq<nat>)
    requires HolesEmpty(e, holes) && |e'| == |e| && forall k: nat :: k < |holes| ==> holes[k] !in live
    requires forall y: nat :: y < |e| && y !in live ==> e'[y] == e[y]
    ensures HolesEmpty(e', holes)
  {}

  /** The map from the handles of `live` to items and keys. */
  function ContentsOf(e: seq<Entry>, live: set<nat>): map<nat, (nat, nat)> {
    map x | x in live && x < |e| :: (e[x].item, e[x].key)
  }

  lemma SameContents(e: seq<Entry>, e': seq<Entry>, live: set<nat>, x: nat)
    requires |e'| == |e| && x < |e| && forall y: nat :: y < |e| && y != x ==> e'[y] == e[y].(idx := e'[y].idx)
    ensures ContentsOf(e', live + {x}) == ContentsOf(e, live)[x := (e'[x].item, e'[x].key)]
    ensures ContentsOf(e', live - {x}) == ContentsOf(e, live) - {x}
  {
  }

  lemma Copied(less: Order, p: seq<nat>, e: seq<Entry>, p': seq<nat>, e': seq<Entry>, n: nat, live: set<nat>)
    requires OrderedAround(less, p, e, n, 0) && Placed(p, e, n, 0, live) && n < |p|
    requires |p| <= |p'| && |e| <= |e'| && p == p'[..|p|] && e == e'[..|e|]
    ensures OrderedAround(less, p', e', n, 0) && Placed(p', e', n, 0, live)
  {
    forall i: nat | 1 <= i <= n ensures PosOk(p', e', live, i) && KeyAt(p', e', i) == KeyAt(p, e, i) {
      assert PosOk(p, e, live, i);
    }
    forall x: nat | x in live ensures HandleOk(p', e', n, 0, x) { assert HandleOk(p, e, n, 0, x); }
    forall i: nat | 2 <= i <= n ensures UpFits(less, p', e', i) { assert UpFits(less, p, e, i); }
  }

  /** A heap with a new last position, where the hole is. */
  lemma HoleAtEnd(less: Order, p: seq<nat>, e: seq<Entry>, n: nat, live: set<nat>, key: nat)
    requires StrictWeak(less) && 1 <= n < |p| && OrderedAround(less, p, e, n - 1, 0) && Placed(p, e, n - 1, 0, live)
    ensures Around(less, p, e, n, n, live) && Above(less, p, e, n, n, key)
  {
    forall x: nat | x in live ensures HandleOk(p, e, n, n, x) { assert HandleOk(p, e, n - 1, 0, x); }
    forall i: nat | 2 <= i <= n && i != n ensures UpFits(less, p, e, i) {}
  }

  lemma LiveInUse(p: seq<nat>, e: seq<Entry>, n: nat, live: set<nat>, x: nat)
    requires Placed(p, e, n, 0, live) && n < EMPTY_SLOT
    ensures x in live ==> x < |e| && e[x].idx != EMPTY_SLOT
    ensures x !in live && (x >= |e| || e[x].idx == EMPTY_SLOT) ==> ContentsOf(e, live) == ContentsOf(e, live) - {x}
  {
    if x in live { assert HandleOk(p, e, n, 0, x); }
  }

  /** The entry at the last position, which takes the place of one that is removed. */
  lemma LastEntry(less: Order, p: seq<nat>, e: seq<Entry>, n: nat, live: set<nat>, x: nat)
    requires StrictWeak(less) && Placed(p, e, n, 0, live) && x in live
    ensures 1 <= n < |p| && p[n] in live && p[n] < |e| && e[p[n]].idx == n && KeyAt(p, e, n) == e[p[n]].key
    ensures x < |e| && 1 <= e[x].idx <= n && (p[n] == x <==> e[x].idx == n)
    ensures !less(e[p[n]].key, e[p[n]].key)
  {
    assert HandleOk(p, e, n, 0, x) && PosOk(p, e, live, n);
  }

  /** The last entry fills the hole left by `x`, and the last position is given up. */
  lemma LastPlaced(less: Order, p: seq<nat>, e: seq<Entry>, n: nat, h: nat, live: set<nat>, x: nat, last: nat,
      e': seq<Entry>)
    requires Around(less, p, e, n, h, live - {x}) && last < |e| && x < |e| && last in live
    requires Above(less, p, e, n, h, e[last].key) && Below(less, p, e, h, e[last].key)
    requires if last == x then h == n else h < n && p[n] == last
    requires var e1 := e[last := e[last].(idx := h)]; e' == e1 || e' == e1[x := e1[x].(idx := EMPTY_SLOT)]
    ensures OrderedAround(less, p[h := last], e', n - 1, 0) && Placed(p[h := last], e', n - 1, 0, live - {x})
  {
    var p', l := p[h := last], live - {x};
    forall i: nat | 1 <= i <= n - 1
        ensures PosOk(p', e', l, i) && KeyAt(p', e', i) == if i == h then e[last].key else KeyAt(p, e, i) {
      assert i != h ==> PosOk(p, e, l, i);
      assert last != x ==> PosOk(p, e, l, n);
    }
    forall y: nat | y in l ensures HandleOk(p', e', n - 1, 0, y) { assert HandleOk(p, e, n, h, y); }
    forall i: nat | 2 <= i <= n - 1 ensures UpFits(less, p', e', i) {
      if i != h && i / 2 != h { assert UpFits(less, p, e, i); }
      assert i / 2 == h ==> i == 2 * h || i == 2 * h + 1;
    }
  }

  lemma NothingLive(p: seq<nat>, e: seq<Entry>, live: set<nat>)
    requires Placed(p, e, 0, 0, live)
    ensures live == {}
  {
    forall x: nat ensures x !in live { assert x in live ==> HandleOk(p, e, 0, 0, x); }
  }

  /** The first entry is live, and a minimum. */
  lemma FirstEntry(less: Order, p: seq<nat>, e: seq<Entry>, n: nat, live: set<nat>)
    requires StrictWeak(less) && OrderedAround(less, p, e, n, 0) && Placed(p, e, n, 0, live) && 1 <= n < |p|
    ensures p[1] in live && p[1] < |e| && e[p[1]].idx == 1 && KeyAt(p, e, 1) == e[p[1]].key
    ensures p[n] in live && p[n] < |e| && e[p[n]].idx == n && KeyAt(p, e, n) == e[p[n]].key
    ensures forall y: nat :: y in live ==> y < |e| && !less(e[y].key, e[p[1]].key)
  {
    assert PosOk(p, e, live, 1) && PosOk(p, e, live, n);
    forall y: nat | y in live ensures y < |e| && !less(e[y].key, e[p[1]].key) {
      assert HandleOk(p, e, n, 0, y);
      RootIsLeast(less, p, e, n, e[y].idx);
    }
  }

  /** The hole left by the first entry, once its handle is marked. */
  lemma Marked(less: Order, p: seq<nat>, e: seq<Entry>, n: nat, live: set<nat>, x: nat)
    requires StrictWeak(less) && OrderedAround(less, p, e, n, 0) && Placed(p, e, n, 0, live) && 1 <= n < |p|
    requires x == p[1] && x in live && x < |e| && e[x].idx == 1
    ensures var e' := e[x := e[x].(idx := EMPTY_SLOT)];
            Around(less, p, e', n, 1, live - {x}) && KeyAt(p, e', n) == KeyAt(p, e, n)
  {
    var e' := e[x := e[x].(idx := EMPTY_SLOT)];
    Emptied(less, p, e, n, live, x);
    forall i: nat | 1 <= i <= n ensures KeyAt(p, e', i) == KeyAt(p, e, i) {}
    forall i: nat | 1 <= i <= n && i != 1 ensures PosOk(p, e', live - {x}, i) { assert PosOk(p, e, live - {x}, i); }
    forall y: nat | y in live - {x} ensures HandleOk(p, e', n, 1, y) { assert HandleOk(p, e, n, 1, y); }
    forall i: nat | 2 <= i <= n && i / 2 != 1 ensures UpFits(less, p, e', i) { assert UpFits(less, p, e, i); }
  }
}
