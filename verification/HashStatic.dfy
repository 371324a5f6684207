/** The static hash table: open addressing by double hashing over a prime number of slots. */
module HashStatic {
  import opened Counting
  import opened Primes

  datatype Option<+T> = None | Some(value: T)

  const WORD: nat := 0x1_0000_0000
  const NO_KEY: nat := 0xffff_ffff

  datatype Slot = Slot(key: nat, item: nat)

  function Mod(n: nat, m: nat): (r: nat)
    requires m > 0
    ensures r < m
  {
    n % m
  }

  function Start(key: nat, m: nat): nat
    requires m > 1
  {
    Mod(key, m)
  }

  function Stride(key: nat, m: nat): (h: nat)
    requires m > 1
    ensures 1 <= h < m
  {
    Mod(key, m - 1) + 1
  }

  /** The slot of the `i`-th probe, in 32-bit arithmetic. */
  function Probe(key: nat, i: nat, m: nat): (p: nat)
    requires m > 1
    ensures p < m
  {
    Mod(Mod(Start(key, m) + i * Stride(key, m), WORD), m)
  }

  // ---- every slot is probed ---------------------------------------------------------------------------------------

  lemma DivideOut(m: nat, a: nat, b: nat, k: nat, q: nat, r: nat)
    requires a * b == m * k && m == q * a + r
    ensures r * b == m * (b - q * k)
  {
    calc {
      r * b;
      (m - q * a) * b;
      m * b - q * a * b;
      { assert q * a * b == q * (a * b); }
      m * b - q * (a * b);
      m * b - q * (m * k);
      { assert q * (m * k) == m * (q * k); }
      m * b - m * (q * k);
      m * (b - q * k);
    }
  }

  lemma NotNegative(m: nat, z: int, x: nat)
    requires m > 0 && x == m * z
    ensures z >= 0
  {
  }

  /** A prime divides no product of two smaller positive numbers. */
  lemma {:induction false} NoZeroProduct(m: nat, a: nat, b: nat, k: nat)
    requires Prime(m) && 0 < a < m && 0 < b < m
    ensures a * b != m * k
    decreases a
  {
    if a == 1 {
      NotMultiple(m, b, k);
    } else if a * b == m * k {
      var q, r := m / a, m % a;
      DivideOut(m, a, b, k, q, r);
      ProductBound(1, 1, r, b);
      Positive(m, b - q * k, r * b);
      NoZeroProduct(m, r, b, b - q * k);
    }
  }

  /** If the table is small enough for 32-bit arithmetic, no probe wraps around. */
  lemma NoWrap(key: nat, i: nat, m: nat)
    requires m > 1 && m * (m - 1) < WORD && i < m
    ensures Probe(key, i, m) == Mod(Start(key, m) + i * Stride(key, m), m)
  {
    var h := Stride(key, m);
    ProductBound(i, h, m - 1, m - 1);
    assert (m - 1) + (m - 1) * (m - 1) == m * (m - 1);
    WordMod(Start(key, m) + i * h);
  }

  lemma WordMod(n: nat)
    requires n < WORD
    ensures Mod(n, WORD) == n
  {
  }

  /** Numbers with one remainder differ by a multiple. */
  lemma SameRemainder(x: nat, y: nat, m: nat) returns (k: nat)
    requires x <= y && m > 0 && Mod(x, m) == Mod(y, m)
    ensures y - x == m * k
  {
    var p, q := x / m, y / m;
    assert x == m * p + x % m && y == m * q + y % m;
    assert y - x == m * q - m * p == m * (q - p);
    NotNegative(m, q - p, y - x);
    k := q - p;
  }

  /** Two probes of one key are at different slots. */
  lemma ProbesDiffer(key: nat, i: nat, j: nat, m: nat)
    requires Prime(m) && m * (m - 1) < WORD && i < j < m
    ensures Probe(key, i, m) != Probe(key, j, m)
  {
    NoWrap(key, i, m);
    NoWrap(key, j, m);
    var h, s := Stride(key, m), Start(key, m);
    ProductBound(i, h, j, h);
    if Mod(s + i * h, m) == Mod(s + j * h, m) {
      var k := SameRemainder(s + i * h, s + j * h, m);
      assert j * h - i * h == (j - i) * h;
      NoZeroProduct(m, j - i, h, k);
    }
  }

  /** The slots of the first `n` probes. */
  function Probes(key: nat, n: nat, m: nat): (l: seq<nat>)
    requires m > 1
    ensures |l| == n && forall i: nat :: i < n ==> l[i] == Probe(key, i, m)
  {
    if n == 0 then [] else Probes(key, n - 1, m) + [Probe(key, n - 1, m)]
  }

  /** The probe sequence of a key visits every slot exactly once. */
  lemma ProbesVisitAll(key: nat, m: nat, s: nat)
    requires Prime(m) && m * (m - 1) < WORD && s < m
    ensures exists i: nat :: i < m && Probe(key, i, m) == s
    ensures forall i: nat, j: nat :: i < m && j < m && Probe(key, i, m) == s && Probe(key, j, m) == s ==> i == j
  {
    var l := Probes(key, m, m);
    forall i: nat, j: nat | i < j < m ensures l[i] != l[j] { ProbesDiffer(key, i, j, m); }
    AllOccur(l, m, s);
    var i: nat :| i < |l| && l[i] == s;
    assert Probe(key, i, m) == s;
    forall i: nat, j: nat | i < m && j < m && Probe(key, i, m) == s && Probe(key, j, m) == s ensures i == j {
      if i < j { ProbesDiffer(key, i, j, m); }
      if j < i { ProbesDiffer(key, j, i, m); }
    }
  }

  // ---- the table ---------------------------------------------------------------------------------------------------

  predicate Used(a: seq<Slot>, p: nat) { p < |a| && a[p].key != NO_KEY }

  /** The number of used slots that the probes of a key meet before a free one. */
  function FirstFree(a: seq<Slot>, key: nat, i: nat): (j: nat)
    requires |a| > 1 && i <= |a|
    ensures i <= j <= |a| && (j < |a| ==> !Used(a, Probe(key, j, |a|)))
    ensures forall n: nat {:trigger Probe(key, n, |a|)} :: i <= n < j ==> Used(a, Probe(key, n, |a|))
    decreases |a| - i
  {
    if i == |a| || !Used(a, Probe(key, i, |a|)) then i else FirstFree(a, key, i + 1)
  }

  /** The probes of `key` meet its first binding at `i`, after slots used by other keys. */
  predicate FoundAt(a: seq<Slot>, key: nat, item: nat, i: nat)
    requires |a| > 1
  {
    && i < |a| && a[Probe(key, i, |a|)] == Slot(key, item)
    && forall n: nat {:trigger Probe(key, n, |a|)} :: n < i ==>
        Used(a, Probe(key, n, |a|)) && a[Probe(key, n, |a|)].key != key
  }

  ghost predicate Findable(a: seq<Slot>, key: nat, item: nat)
    requires |a| > 1
  {
    exists i: nat :: FoundAt(a, key, item, i)
  }

  /** The first `i` probes of `key` meet used slots of other keys. */
  ghost predicate Passed(a: seq<Slot>, key: nat, i: nat)
    requires |a| > 1
  {
    forall n: nat {:trigger Probe(key, n, |a|)} :: n < i ==>
        Used(a, Probe(key, n, |a|)) && a[Probe(key, n, |a|)].key != key
  }

  lemma NotFindable(a: seq<Slot>, key: nat, item: nat, i: nat)
    requires |a| > 1 && i <= |a| && Passed(a, key, i) && key != NO_KEY
    requires i < |a| ==> a[Probe(key, i, |a|)].key == NO_KEY
    ensures !Findable(a, key, item)
  {
    forall n: nat ensures !FoundAt(a, key, item, n) {}
  }

  /** What a lookup knows at a free slot, at its key, and after the last probe. */
  lemma LookupEnds(a: seq<Slot>, first: map<nat, nat>, key: nat, i: nat)
    requires Holds(a, first) && i <= |a| && Passed(a, key, i)
    ensures i == |a| || a[Probe(key, i, |a|)].key == NO_KEY ==> key !in first
    ensures i < |a| && a[Probe(key, i, |a|)].key == key && key != NO_KEY ==>
              key in first && first[key] == a[Probe(key, i, |a|)].item
  {
    if key == NO_KEY { return; }
    if i == |a| || a[Probe(key, i, |a|)].key == NO_KEY {
      forall item: nat ensures !Findable(a, key, item) { NotFindable(a, key, item, i); }
    } else if a[Probe(key, i, |a|)].key == key {
      assert Used(a, Probe(key, i, |a|)) && Findable(a, key, first[key]);
      var j: nat :| FoundAt(a, key, first[key], j);
    }
  }

  /** The table holds the keys of `first`, and finds the item each was first bound to. */
  ghost predicate Holds(a: seq<Slot>, first: map<nat, nat>) {
    && |a| > 1
    && (forall k: nat :: k in first ==> k != NO_KEY && Findable(a, k, first[k]))
    && (forall p: nat :: Used(a, p) ==> a[p].key in first)
  }

  /** The table after an insertion: the binding goes to the first free slot that the probes of its key meet. */
  function Put(a: seq<Slot>, key: nat, item: nat): seq<Slot>
    requires |a| > 1
  {
    var j := FirstFree(a, key, 0);
    if j < |a| then a[Probe(key, j, |a|) := Slot(key, item)] else a
  }

  /** The `i`-th probe of a key is the first one to meet a free slot. */
  predicate IsFirstFree(a: seq<Slot>, key: nat, i: nat) {
    |a| > 1 && !Used(a, Probe(key, i, |a|)) && forall j: nat {:trigger Probe(key, j, |a|)} :: j < i ==>
      Used(a, Probe(key, j, |a|))
  }

  /** `b` is `a` with the binding in the slot of the `i`-th probe, which is the first free one. */
  predicate PutAtProbe(a: seq<Slot>, key: nat, item: nat, i: nat, b: seq<Slot>) {
    i < |a| && IsFirstFree(a, key, i) && b == a[Probe(key, i, |a|) := Slot(key, item)]
  }

  predicate Full(a: seq<Slot>) { forall p: nat :: p < |a| ==> Used(a, p) }

  /** Filling a free slot hides no binding that could be found. */
  lemma StillFound(a: seq<Slot>, p: nat, s: Slot, key: nat, item: nat)
    requires |a| > 1 && p < |a| && !Used(a, p) && Findable(a, key, item) && key != NO_KEY
    ensures Findable(a[p := s], key, item)
  {
    var i: nat :| FoundAt(a, key, item, i);
    var b := a[p := s];
    forall n: nat | n <= i ensures b[Probe(key, n, |a|)] == a[Probe(key, n, |a|)] {
      assert n < i ==> Used(a, Probe(key, n, |a|));
    }
    assert FoundAt(b, key, item, i);
  }

  /** The first binding of a key is kept. The all-ones key marks free slots, and is never found. */
  function Bound(first: map<nat, nat>, key: nat, item: nat): map<nat, nat> {
    if key == NO_KEY || key in first then first else first[key := item]
  }

  /** The first insertion of a key decides what is found; later ones change nothing that is found. */
  lemma PutHolds(a: seq<Slot>, first: map<nat, nat>, key: nat, item: nat)
    requires Holds(a, first)
    ensures FirstFree(a, key, 0) < |a| ==> Holds(Put(a, key, item), Bound(first, key, item))
    ensures FirstFree(a, key, 0) == |a| ==> Put(a, key, item) == a
  {
    var j := FirstFree(a, key, 0);
    if j < |a| {
      var p, b := Probe(key, j, |a|), Put(a, key, item);
      var next := Bound(first, key, item);
      forall k: nat | k in next ensures k != NO_KEY && Findable(b, k, next[k]) {
        if k in first {
          StillFound(a, p, Slot(key, item), k, first[k]);
        } else {
          forall n: nat | n < j ensures Used(b, Probe(key, n, |a|)) && b[Probe(key, n, |a|)].key != key {
            assert Used(a, Probe(key, n, |a|));
          }
          assert FoundAt(b, key, item, j);
        }
      }
      forall q: nat | Used(b, q) ensures b[q].key in next { assert q != p ==> Used(a, q); }
    }
  }

  // ---- when insertion fails ----------------------------------------------------------------------

  function Blank(m: nat): seq<Slot> { seq(m, (p: nat) => Slot(NO_KEY, 0)) }

  /** The table after insertions of keys with items, one after the other. */
  function PutAll(a: seq<Slot>, l: seq<(nat, nat)>): (b: seq<Slot>)
    requires |a| > 1
    ensures |b| == |a|
    decreases |l|
  {
    if l == [] then a else Put(PutAll(a, l[..|l| - 1]), l[|l| - 1].0, l[|l| - 1].1)
  }

  /** After any insertions into a table of `m` slots, inserting `key` fails if and only if the table is full. */
  ghost predicate FailsWhenFull(key: nat, m: nat)
    requires m > 1
  {
    forall l: seq<(nat, nat)> :: FirstFree(PutAll(Blank(m), l), key, 0) == m <==> Full(PutAll(Blank(m), l))
  }

  ghost predicate ProbesApart(key: nat, m: nat)
    requires m > 1
  {
    forall i: nat, j: nat :: i < j < m ==> Probe(key, i, m) != Probe(key, j, m)
  }

  /** Probes that are all different meet every slot. */
  lemma ApartVisitAll(key: nat, m: nat, s: nat) returns (i: nat)
    requires m > 1 && ProbesApart(key, m) && s < m
    ensures i < m && Probe(key, i, m) == s
  {
    var l := Probes(key, m, m);
    AllOccur(l, m, s);
    i :| i < |l| && l[i] == s;
  }

  lemma ApartFails(a: seq<Slot>, key: nat)
    requires |a| > 1 && ProbesApart(key, |a|)
    ensures FirstFree(a, key, 0) == |a| <==> Full(a)
  {
    if FirstFree(a, key, 0) == |a| {
      forall p: nat | p < |a| ensures Used(a, p) {
        var i := ApartVisitAll(key, |a|, p);
      }
    }
  }

  /** If two probes meet, some slot is not probed at all. */
  lemma MeetingMisses(key: nat, m: nat, i: nat, j: nat) returns (q: nat)
    requires m > 1 && i < j < m && Probe(key, i, m) == Probe(key, j, m)
    ensures q < m && forall n: nat :: n < m ==> Probe(key, n, m) != q
  {
    var l := Probes(key, m, m);
    q := TwiceMisses(l, i, j);
    forall n: nat | n < m ensures Probe(key, n, m) != q { assert l[n] in l; }
  }

  /** The keys from 0 to `n`, except `q`. */
  function AllBut(n: nat, q: nat): seq<(nat, nat)> {
    if n == 0 then [] else if n - 1 == q then AllBut(n - 1, q) else AllBut(n - 1, q) + [(n - 1, 0)]
  }

  lemma {:induction false} AllButBelow(n: nat, q: nat)
    ensures forall p: (nat, nat) :: p in AllBut(n, q) ==> p.0 < n && p.0 != q
  {
    if n > 0 { AllButBelow(n - 1, q); }
  }

  /** These keys are at the slots of their own numbers. */
  predicate Own(a: seq<Slot>, n: nat, q: nat) {
    forall p: nat :: p < |a| ==> a[p] == if p < n && p != q then Slot(p, 0) else Slot(NO_KEY, 0)
  }

  lemma FirstProbe(p: nat, m: nat)
    requires 1 < m < WORD && p < m
    ensures Probe(p, 0, m) == p
  {
    assert Start(p, m) == p && Mod(p, WORD) == p;
  }

  lemma OwnPut(a: seq<Slot>, n: nat, q: nat)
    requires 1 < |a| < NO_KEY && n < |a| && n != q && Own(a, n, q)
    ensures Own(Put(a, n, 0), n + 1, q)
  {
    FirstProbe(n, |a|);
    assert !Used(a, Probe(n, 0, |a|));
    assert FirstFree(a, n, 0) == 0;
  }

  lemma OwnSkips(a: seq<Slot>, q: nat)
    requires Own(a, q, q)
    ensures Own(a, q + 1, q)
  {
  }

  lemma {:induction false} AllButFills(a: seq<Slot>, n: nat, q: nat)
    requires 1 < |a| < NO_KEY && n <= |a| && Own(a, 0, q)
    ensures Own(PutAll(a, AllBut(n, q)), n, q)
    decreases n
  {
    if n > 0 {
      var l := AllBut(n - 1, q);
      var b := PutAll(a, l);
      AllButFills(a, n - 1, q);
      if n - 1 == q {
        OwnSkips(b, q);
      } else {
        assert AllBut(n, q) == l + [(n - 1, 0)];
        PutLast(a, l, n - 1, 0);
        OwnPut(b, n - 1, q);
      }
    }
  }

  lemma PutLast(a: seq<Slot>, l: seq<(nat, nat)>, key: nat, item: nat)
    requires |a| > 1
    ensures PutAll(a, l + [(key, item)]) == Put(PutAll(a, l), key, item)
  {
    var l' := l + [(key, item)];
    assert l'[..|l'| - 1] == l;
  }

  /** If two probes of a key meet, there are insertions after which the key cannot be inserted although the
      table has room: those of all slot numbers but one, each into its own slot. */
  lemma FailingRun(key: nat, m: nat, i: nat, j: nat) returns (l: seq<(nat, nat)>)
    requires 1 < m < NO_KEY && i < j < m && Probe(key, i, m) == Probe(key, j, m)
    ensures forall p: (nat, nat) :: p in l ==> p.0 < m
    ensures var a := PutAll(Blank(m), l); FirstFree(a, key, 0) == m && Put(a, key, 1) == a && !Full(a)
  {
    var q := MeetingMisses(key, m, i, j);
    l := AllBut(m, q);
    AllButBelow(m, q);
    AllButFills(Blank(m), m, q);
    var a := PutAll(Blank(m), l);
    assert !Used(a, q);
    var f := FirstFree(a, key, 0);
    if f < m { assert Used(a, Probe(key, f, m)); }
  }

  /** Exactly when insertion of a key fails on full tables only. */
  lemma KeyExactly(key: nat, m: nat)
    requires 1 < m < NO_KEY
    ensures FailsWhenFull(key, m) <==> ProbesApart(key, m)
  {
    if ProbesApart(key, m) {
      forall l: seq<(nat, nat)> ensures FirstFree(PutAll(Blank(m), l), key, 0) == m <==> Full(PutAll(Blank(m), l)) {
        ApartFails(PutAll(Blank(m), l), key);
      }
    } else {
      var i: nat, j: nat :| i < j < m && Probe(key, i, m) == Probe(key, j, m);
      var l := FailingRun(key, m, i, j);
    }
  }

  /** For a prime size without wrap-around, insertion fails on full tables only. */
  lemma FailsOnlyIfFull(a: seq<Slot>, key: nat)
    requires Prime(|a|) && Small(|a|)
    ensures FirstFree(a, key, 0) == |a| <==> Full(a)
  {
    forall i: nat, j: nat | i < j < |a| ensures Probe(key, i, |a|) != Probe(key, j, |a|) {
      ProbesDiffer(key, i, j, |a|);
    }
    ApartFails(a, key);
  }

  // ---- the sizes ---------------------------------------------------------------------------------

  /** The sizes the constructor chooses from. */
  const SIZES: seq<nat> := [53, 97, 193, 389, 769, 1543, 3079, 6151, 12289, 24593, 49157, 98317, 196613, 393241,
                            786433, 1572869, 3145739, 6291469, 12582917, 25165843, 50331653, 100663319, 201326611,
                            402653189, 805306457, 1610612741]

  /** The sizes whose probes do not wrap around in 32 bits. */
  predicate Small(m: nat) { m * (m - 1) < WORD }

  /** For each larger size, a key two of whose probes meet, and which. */
  const MEETINGS: seq<(nat, nat, nat, nat)> := [
    (98317, 98315, 32836, 43685),
    (196613, 196611, 21844, 65533),
    (393241, 393239, 16, 10922),
    (786433, 786431, 0, 16384),
    (1572869, 1572867, 4, 393215),
    (3145739, 2662522899, 1946, 255205),
    (6291469, 2817510, 0, 3051),
    (12582917, 11195130, 0, 2303),
    (25165843, 1624720, 0, 2659),
    (50331653, 38453972, 0, 113),
    (100663319, 52959404, 0, 83),
    (201326611, 1522618, 0, 2953),
    (402653189, 313174698, 0, 15),
    (805306457, 9789392, 0, 521),
    (1610612741, 843654290, 0, 7)]

  lemma Meet1(c: nat)
    requires 0 <= c < 5
    ensures Meets(MEETINGS[c])
  {
    assert Start(98315, 98317) == 98315 && Stride(98315, 98317) == 98316;
    assert 98315 + 32836 * 98316 == 3228402491 && Mod(3228402491, WORD) == 3228402491
        && Mod(3228402491, 98317) == 65479;
    assert 98315 + 43685 * 98316 == 4295032775 && Mod(4295032775, WORD) == 65479 && Mod(65479, 98317) == 65479;
    assert Start(196611, 196613) == 196611 && Stride(196611, 196613) == 196612;
    assert 196611 + 21844 * 196612 == 4294989139 && Mod(4294989139, WORD) == 21843 && Mod(21843, 196613) == 21843;
    assert 196611 + 65533 * 196612 == 12884770807 && Mod(12884770807, WORD) == 4294836215
        && Mod(4294836215, 196613) == 21843;
    assert Start(393239, 393241) == 393239 && Stride(393239, 393241) == 393240;
    assert 393239 + 16 * 393240 == 6685079 && Mod(6685079, WORD) == 6685079 && Mod(6685079, 393241) == 393223;
    assert 393239 + 10922 * 393240 == 4295360519 && Mod(4295360519, WORD) == 393223 && Mod(393223, 393241) == 393223;
    assert Start(786431, 786433) == 786431 && Stride(786431, 786433) == 786432;
    assert 786431 + 0 * 786432 == 786431 && Mod(786431, WORD) == 786431 && Mod(786431, 786433) == 786431;
    assert 786431 + 16384 * 786432 == 12885688319 && Mod(12885688319, WORD) == 786431 && Mod(786431, 786433) == 786431;
    assert Start(1572867, 1572869) == 1572867 && Stride(1572867, 1572869) == 1572868;
    assert 1572867 + 4 * 1572868 == 7864339 && Mod(7864339, WORD) == 7864339 && Mod(7864339, 1572869) == 1572863;
    assert 1572867 + 393215 * 1572868 == 618476863487 && Mod(618476863487, WORD) == 1572863
        && Mod(1572863, 1572869) == 1572863;
  }

  lemma Meet2(c: nat)
    requires 5 <= c < 10
    ensures Meets(MEETINGS[c])
  {
    assert Start(2662522899, 3145739) == 1227705 && Stride(2662522899, 3145739) == 1228552;
    assert 1227705 + 1946 * 1228552 == 2391989897 && Mod(2391989897, WORD) == 2391989897
        && Mod(2391989897, 3145739) == 1228257;
    assert 1227705 + 255205 * 1228552 == 313533840865 && Mod(313533840865, WORD) == 1228257
        && Mod(1228257, 3145739) == 1228257;
    assert Start(2817510, 6291469) == 2817510 && Stride(2817510, 6291469) == 2817511;
    assert 2817510 + 0 * 2817511 == 2817510 && Mod(2817510, WORD) == 2817510 && Mod(2817510, 6291469) == 2817510;
    assert 2817510 + 3051 * 2817511 == 8599043571 && Mod(8599043571, WORD) == 9108979
        && Mod(9108979, 6291469) == 2817510;
    assert Start(11195130, 12582917) == 11195130 && Stride(11195130, 12582917) == 11195131;
    assert 11195130 + 0 * 11195131 == 11195130 && Mod(11195130, WORD) == 11195130
        && Mod(11195130, 12582917) == 11195130;
    assert 11195130 + 2303 * 11195131 == 25793581823 && Mod(25793581823, WORD) == 23778047
        && Mod(23778047, 12582917) == 11195130;
    assert Start(1624720, 25165843) == 1624720 && Stride(1624720, 25165843) == 1624721;
    assert 1624720 + 0 * 1624721 == 1624720 && Mod(1624720, WORD) == 1624720 && Mod(1624720, 25165843) == 1624720;
    assert 1624720 + 2659 * 1624721 == 4321757859 && Mod(4321757859, WORD) == 26790563
        && Mod(26790563, 25165843) == 1624720;
    assert Start(38453972, 50331653) == 38453972 && Stride(38453972, 50331653) == 38453973;
    assert 38453972 + 0 * 38453973 == 38453972 && Mod(38453972, WORD) == 38453972
        && Mod(38453972, 50331653) == 38453972;
    assert 38453972 + 113 * 38453973 == 4383752921 && Mod(4383752921, WORD) == 88785625
        && Mod(88785625, 50331653) == 38453972;
  }

  lemma Meet3(c: nat)
    requires 10 <= c < 15
    ensures Meets(MEETINGS[c])
  {
    assert Start(52959404, 100663319) == 52959404 && Stride(52959404, 100663319) == 52959405;
    assert 52959404 + 0 * 52959405 == 52959404 && Mod(52959404, WORD) == 52959404
        && Mod(52959404, 100663319) == 52959404;
    assert 52959404 + 83 * 52959405 == 4448590019 && Mod(4448590019, WORD) == 153622723
        && Mod(153622723, 100663319) == 52959404;
    assert Start(1522618, 201326611) == 1522618 && Stride(1522618, 201326611) == 1522619;
    assert 1522618 + 0 * 1522619 == 1522618 && Mod(1522618, WORD) == 1522618 && Mod(1522618, 201326611) == 1522618;
    assert 1522618 + 2953 * 1522619 == 4497816525 && Mod(4497816525, WORD) == 202849229
        && Mod(202849229, 201326611) == 1522618;
    assert Start(313174698, 402653189) == 313174698 && Stride(313174698, 402653189) == 313174699;
    assert 313174698 + 0 * 313174699 == 313174698 && Mod(313174698, WORD) == 313174698
        && Mod(313174698, 402653189) == 313174698;
    assert 313174698 + 15 * 313174699 == 5010795183 && Mod(5010795183, WORD) == 715827887
        && Mod(715827887, 402653189) == 313174698;
    assert Start(9789392, 805306457) == 9789392 && Stride(9789392, 805306457) == 9789393;
    assert 9789392 + 0 * 9789393 == 9789392 && Mod(9789392, WORD) == 9789392 && Mod(9789392, 805306457) == 9789392;
    assert 9789392 + 521 * 9789393 == 5110063145 && Mod(5110063145, WORD) == 815095849
        && Mod(815095849, 805306457) == 9789392;
    assert Start(843654290, 1610612741) == 843654290 && Stride(843654290, 1610612741) == 843654291;
    assert 843654290 + 0 * 843654291 == 843654290 && Mod(843654290, WORD) == 843654290
        && Mod(843654290, 1610612741) == 843654290;
    assert 843654290 + 7 * 843654291 == 6749234327 && Mod(6749234327, WORD) == 2454267031
        && Mod(2454267031, 1610612741) == 843654290;
  }

  predicate Meets(c: (nat, nat, nat, nat)) {
    && 1 < c.0 < NO_KEY && c.1 < NO_KEY && c.2 < c.3 < c.0
    && Probe(c.1, c.2, c.0) == Probe(c.1, c.3, c.0)
  }

  /** For each size the constructor chooses: insertions of all keys fail on full tables only, in every run, if and
      only if the probes do not wrap around in 32 bits. */
  lemma SizesExactly(m: nat)
    requires m in SIZES
    ensures (forall key: nat :: key < NO_KEY ==> FailsWhenFull(key, m)) <==> Small(m)
  {
    var c: nat :| c < |SIZES| && SIZES[c] == m;
    SmallUpTo(c);
    if c < 11 {
      SizesPrime(c);
      forall key: nat | key < NO_KEY ensures FailsWhenFull(key, m) {
        forall i: nat, j: nat | i < j < m ensures Probe(key, i, m) != Probe(key, j, m) { ProbesDiffer(key, i, j, m); }
        KeyExactly(key, m);
      }
    } else {
      var key, l := SizeFails(c);
      assert !FailsWhenFull(key, m);
    }
  }

  lemma SizesPrime(c: nat)
    requires c < 11
    ensures Prime(SIZES[c])
  {
    Prime53(); Prime97(); Prime193(); Prime389(); Prime769(); Prime1543();
    Prime3079(); Prime6151(); Prime12289(); Prime24593(); Prime49157();
  }

  /** Some probe of `key` is at slot `s`. */
  ghost predicate Visits(key: nat, m: nat, s: nat)
    requires m > 1
  {
    exists i: nat :: i < m && Probe(key, i, m) == s
  }

  ghost predicate VisitsAll(key: nat, m: nat)
    requires m > 1
  {
    forall s: nat :: s < m ==> Visits(key, m, s)
  }

  lemma VisitsExactly(key: nat, m: nat)
    requires m > 1
    ensures VisitsAll(key, m) <==> ProbesApart(key, m)
  {
    if ProbesApart(key, m) {
      forall s: nat | s < m ensures Visits(key, m, s) { var i := ApartVisitAll(key, m, s); }
    } else {
      var i: nat, j: nat :| i < j < m && Probe(key, i, m) == Probe(key, j, m);
      var q := MeetingMisses(key, m, i, j);
      assert !Visits(key, m, q);
    }
  }

  /** For each size the constructor chooses: the probes of all keys visit every slot, and so each slot once, if and
      only if they do not wrap around in 32 bits. */
  lemma SizesVisitAll(m: nat)
    requires m in SIZES
    ensures m > 1 && ((forall key: nat :: key < NO_KEY ==> VisitsAll(key, m) && ProbesApart(key, m)) <==> Small(m))
  {
    SizesExactly(m);
    forall key: nat ensures VisitsAll(key, m) <==> ProbesApart(key, m) { VisitsExactly(key, m); }
    forall key: nat ensures FailsWhenFull(key, m) <==> ProbesApart(key, m) { KeyExactly(key, m); }
  }

  lemma SmallUpTo(c: nat)
    requires c < |SIZES|
    ensures 1 < SIZES[c] < NO_KEY && (Small(SIZES[c]) <==> c < 11)
  {
  }

  /** A run for each of the larger sizes after which a key cannot be inserted although the table has room. */
  lemma SizeFails(c: nat) returns (key: nat, l: seq<(nat, nat)>)
    requires 11 <= c < |SIZES|
    ensures key < NO_KEY && forall p: (nat, nat) :: p in l ==> p.0 < NO_KEY
    ensures var a := PutAll(Blank(SIZES[c]), l); FirstFree(a, key, 0) == SIZES[c] && Put(a, key, 1) == a && !Full(a)
  {
    var d := c - 11;
    if d < 5 { Meet1(d); } else if d < 10 { Meet2(d); } else { Meet3(d); }
    assert MEETINGS[d].0 == SIZES[c];
    key := MEETINGS[d].1;
    l := FailingRun(key, SIZES[c], MEETINGS[d].2, MEETINGS[d].3);
  }

  // ---- the object --------------------------------------------------------------------------------

  class Static {
    const slots: array<Slot>
    ghost var first: map<nat, nat>

    ghost predicate Valid()
      reads this, slots
    {
      slots.Length in SIZES && Holds(slots[..], first)
    }

    constructor (c: nat)
      requires c < |SIZES|
      ensures Valid() && first == map[] && slots.Length == SIZES[c] && fresh(slots) && slots[..] == Blank(SIZES[c])
    {
      SmallUpTo(c);
      slots := new Slot[SIZES[c]](_ => Slot(NO_KEY, 0));
      first := map[];
    }

    /** Binds a key in the first free slot of its probes, if there is one. */
    method InsertItem(item: nat, key: nat) returns (ok: bool)
      requires Valid()
      modifies this, slots
      ensures Valid() && slots[..] == Put(old(slots[..]), key, item)
      ensures ok <==> exists i: nat :: i < slots.Length && !Used(old(slots[..]), Probe(key, i, slots.Length))
      ensures Small(slots.Length) ==> ok == !Full(old(slots[..]))
      ensures first == if ok && key != NO_KEY && key !in old(first) then old(first)[key := item] else old(first)
      ensures ok ==> exists i: nat :: PutAtProbe(old(slots[..]), key, item, i, slots[..])
      ensures !ok ==> slots[..] == old(slots[..])
    {
      ghost var a := slots[..];
      InsertFacts(a, key);
      PutHolds(a, first, key, item);
      var i := 0;
      while i < slots.Length
        invariant 0 <= i <= slots.Length && slots[..] == a && FirstFree(a, key, 0) == FirstFree(a, key, i)
      {
        var p := Probe(key, i, slots.Length);
        if slots[p].key == NO_KEY {
          slots[p] := Slot(key, item);
          assert PutAtProbe(a, key, item, i, slots[..]);
          first := Bound(first, key, item);
          return true;
        }
        i := i + 1;
      }
      ok := false;
    }

    /** The item that the key was first bound to, if any. */
    method GetItemByKey(key: nat) returns (item: Option<nat>)
      requires Valid()
      ensures item == if key in first then Some(first[key]) else None
    {
      ghost var a := slots[..];
      var i := 0;
      while i < slots.Length
        invariant 0 <= i <= slots.Length && Passed(a, key, i)
      {
        var p := Probe(key, i, slots.Length);
        LookupEnds(a, first, key, i);
        if slots[p].key == NO_KEY { return None; }
        if slots[p].key == key { return Some(slots[p].item); }
        i := i + 1;
      }
      LookupEnds(a, first, key, i);
      item := None;
    }

    method IsInTable(key: nat) returns (found: bool)
      requires Valid()
      ensures found <==> key in first
    {
      var item := GetItemByKey(key);
      found := item.Some?;
    }
  }

  /** A table of the least size that is not below the given number, or null if there is none. */
  method New(minEntries: nat) returns (table: Static?)
    ensures table == null <==> minEntries == 0 || minEntries > SIZES[|SIZES| - 1]
    ensures table != null ==> fresh(table) && fresh(table.slots) && table.Valid() && table.first == map[]
    ensures table != null ==> minEntries <= table.slots.Length
                              && forall m: nat :: m in SIZES && minEntries <= m ==> table.slots.Length <= m
  {
    if minEntries == 0 || minEntries > 1610612741 { return null; }
    var i := 0;
    while minEntries > SIZES[i]
      invariant i < |SIZES| && forall c: nat :: c < i ==> SIZES[c] < minEntries
      decreases |SIZES| - i
    {
      i := i + 1;
    }
    SizesRise();
    table := new Static(i);
  }

  lemma SizesRise()
    ensures forall c: nat, d: nat :: c < d < |SIZES| ==> SIZES[c] < SIZES[d]
  {
  }

  lemma InsertFacts(a: seq<Slot>, key: nat)
    requires |a| in SIZES
    ensures |a| > 1 && (FirstFree(a, key, 0) < |a| <==> exists i: nat :: i < |a| && !Used(a, Probe(key, i, |a|)))
    ensures Small(|a|) ==> (FirstFree(a, key, 0) == |a| <==> Full(a))
  {
    var c: nat :| c < |SIZES| && SIZES[c] == |a|;
    SmallUpTo(c);
    if Small(|a|) {
      SizesPrime(c);
      FailsOnlyIfFull(a, key);
    }
  }
}
