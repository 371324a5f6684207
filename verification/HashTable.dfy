/** The hash table with a collision list behind each entry, which doubles and halves. A table is a sequence
    of chains: the entry itself, followed by its collision list. */
module HashTable {

  datatype Option<+T> = None | Some(value: T)

  const BASE_LENGTH: nat := 6
  const MAX_LENGTH: nat := 32
  const WORD: nat := 0x1_0000_0000

  type Pair = (nat, nat)
  type Chain = seq<Pair>

  function Pow2(n: nat): (r: nat)
    ensures r > 0
  {
    if n == 0 then 1 else 2 * Pow2(n - 1)
  }

  /** The 32-bit product. */
  function Product(odd: nat, key: nat): (r: nat)
    ensures r < WORD
  {
    odd * key % WORD
  }

  /** `w` shifted right. */
  function Shift(w: nat, bits: nat): nat { if bits == 0 then w else Shift(w, bits - 1) / 2 }

  /** The top `len` bits of the product. */
  function Hash(odd: nat, key: nat, len: nat): nat
    requires len <= MAX_LENGTH
  {
    Shift(Product(odd, key), MAX_LENGTH - len)
  }

  lemma {:induction false} ShiftFits(w: nat, n: nat, bits: nat)
    requires w < Pow2(n) && bits <= n
    ensures Shift(w, bits) < Pow2(n - bits)
  {
    if bits > 0 { ShiftFits(w, n, bits - 1); }
  }

  lemma HashFits(odd: nat, key: nat, len: nat)
    requires len <= MAX_LENGTH
    ensures Hash(odd, key, len) < Pow2(len)
  {
    WordFits(Product(odd, key), len);
  }

  lemma WordFits(w: nat, len: nat)
    requires w < WORD && len <= MAX_LENGTH
    ensures Shift(w, MAX_LENGTH - len) < Pow2(len)
  {
    assert Pow2(8) == 0x100;
    assert Pow2(12) == 0x1000;
    assert Pow2(16) == 0x1_0000;
    assert Pow2(20) == 0x10_0000;
    assert Pow2(24) == 0x100_0000;
    assert Pow2(28) == 0x1000_0000;
    assert Pow2(32) == WORD;
    ShiftFits(w, MAX_LENGTH, MAX_LENGTH - len);
  }

  // ---- chains ------------------------------------------------------------------------------------------

  /** The chains of a table whose indices have `len` bits, for one multiplier. */
  datatype Table = Table(odd: nat, len: nat, chains: seq<Chain>)

  /** The position of `key` in a chain, or its length. */
  function Find(c: Chain, key: nat): (j: nat)
    ensures j <= |c| && (j < |c| ==> c[j].0 == key) && forall i: nat :: i < j ==> c[i].0 != key
  {
    if c == [] || c[0].0 == key then 0 else 1 + Find(c[1..], key)
  }

  predicate HasKey(c: Chain, key: nat) { Find(c, key) < |c| }

  function Index(t: Table, key: nat): nat { if t.len <= MAX_LENGTH then Hash(t.odd, key, t.len) else 0 }

  function ChainAt(t: Table, i: nat): Chain { if i < |t.chains| then t.chains[i] else [] }

  function ChainOf(t: Table, key: nat): Chain { ChainAt(t, Index(t, key)) }

  function Get(t: Table, key: nat): Option<nat> {
    var c := ChainOf(t, key);
    if HasKey(c, key) then Some(c[Find(c, key)].1) else None
  }

  predicate Distinct(c: Chain) { forall i: nat, j: nat :: i < j < |c| ==> c[i].0 != c[j].0 }

  predicate ChainOk(t: Table, i: nat) {
    Distinct(ChainAt(t, i)) && forall j: nat :: j < |ChainAt(t, i)| ==> Index(t, ChainAt(t, i)[j].0) == i
  }

  ghost predicate Valid(t: Table) {
    BASE_LENGTH <= t.len <= MAX_LENGTH && |t.chains| == Pow2(t.len) && forall i: nat :: i < |t.chains| ==> ChainOk(t, i)
  }

  /** All bindings, entry by entry. */
  function All(chains: seq<Chain>): Chain {
    if chains == [] then [] else All(chains[..|chains| - 1]) + chains[|chains| - 1]
  }

  /** The number of entries with a collision list. */
  function Collisions(chains: seq<Chain>): nat {
    if chains == [] then 0 else Collisions(chains[..|chains| - 1]) + if |chains[|chains| - 1]| > 1 then 1 else 0
  }

  function SetChain(t: Table, i: nat, c: Chain): Table
    requires i < |t.chains|
  {
    t.(chains := t.chains[i := c])
  }

  function Without(c: Chain, j: nat): Chain
    requires j < |c|
  {
    c[..j] + c[j + 1..]
  }

  // ---- operations ----------------------------------------------------------------------------------------

  function Blank(odd: nat, len: nat): Table { Table(odd, len, seq(Pow2(len), i => [])) }

  /** Appends a binding to the chain of its key. */
  function Put(t: Table, p: Pair): Table {
    if Index(t, p.0) < |t.chains| then SetChain(t, Index(t, p.0), ChainOf(t, p.0) + [p]) else t
  }

  function PutAll(t: Table, l: Chain): Table
    decreases |l|
  {
    if l == [] then t else Put(PutAll(t, l[..|l| - 1]), l[|l| - 1])
  }

  /** Puts every binding into a new table. */
  function Resize(t: Table, len: nat): Table { PutAll(Blank(t.odd, len), All(t.chains)) }

  /** Is the table used for less than a tenth, and larger than at first? */
  predicate Sparse(t: Table) { 10 * |All(t.chains)| < |t.chains| && t.len > BASE_LENGTH }

  /** Do more than three quarters of the entries have a collision list? */
  predicate Crowded(t: Table) { 4 * Collisions(t.chains) > 3 * |t.chains| }

  function Cut(t: Table, key: nat): Table
    requires HasKey(ChainOf(t, key), key)
  {
    SetChain(t, Index(t, key), Without(ChainOf(t, key), Find(ChainOf(t, key), key)))
  }

  /** `mem` tells whether there is memory for a table of another size. */
  function Remove(t: Table, key: nat, mem: bool): Table {
    if !HasKey(ChainOf(t, key), key) then t
    else if Sparse(Cut(t, key)) && mem then Resize(Cut(t, key), t.len - 1)
    else Cut(t, key)
  }

  function Replace(t: Table, key: nat, item: nat): Table {
    var c := ChainOf(t, key);
    if HasKey(c, key) && Index(t, key) < |t.chains| then SetChain(t, Index(t, key), c[Find(c, key) := (key, item)])
        else t
  }

  function Expand(t: Table, mem: bool): Table {
    if Crowded(t) && mem && t.len < MAX_LENGTH then Resize(t, t.len + 1) else t
  }

  /** Inserts a binding. The index is computed before the key is removed, which may shrink the table: the
      result is `None` if it then lies outside the table. */
  function Insert(t: Table, key: nat, item: nat, mem: bool): Option<Table> {
    var i, t1 := Index(t, key), Remove(t, key, mem);
    if i < |t1.chains| then Some(Expand(SetChain(t1, i, ChainAt(t1, i) + [(key, item)]), mem)) else None
  }

  // ---- single chains ---------------------------------------------------------------------------------------

  lemma ChainAtPut(t: Table, i: nat, c: Chain, j: nat)
    requires i < |t.chains|
    ensures ChainAt(SetChain(t, i, c), j) == if j == i then c else ChainAt(t, j)
  {
  }

  /** Where a key is in a chain without repetitions. */
  lemma FindIs(c: Chain, key: nat, j: nat)
    requires j < |c| && c[j].0 == key && Distinct(c)
    ensures Find(c, key) == j
  {
  }

  lemma IndexFits(t: Table, key: nat)
    requires t.len <= MAX_LENGTH && |t.chains| == Pow2(t.len)
    ensures Index(t, key) < |t.chains|
  {
    HashFits(t.odd, key, t.len);
  }

  /** Appending an absent key to its chain. */
  lemma PutValid(t: Table, p: Pair)
    requires Valid(t) && Get(t, p.0) == None
    ensures Valid(Put(t, p)) && Put(t, p).len == t.len && Put(t, p).odd == t.odd
    ensures forall k: nat :: Get(Put(t, p), k) == if k == p.0 then Some(p.1) else Get(t, k)
  {
    IndexFits(t, p.0);
    var i, c, t' := Index(t, p.0), ChainOf(t, p.0), Put(t, p);
    assert ChainOk(t, i);
    forall j: nat | j < |t'.chains| ensures ChainOk(t', j) {
      assert ChainOk(t, j) && ChainAt(t', j) == if j == i then c + [p] else ChainAt(t, j);
    }
    forall k: nat ensures Get(t', k) == if k == p.0 then Some(p.1) else Get(t, k) { PutGets(t, p, k); }
  }

  lemma PutGets(t: Table, p: Pair, k: nat)
    requires Index(t, p.0) < |t.chains| && Get(t, p.0) == None && Distinct(ChainOf(t, p.0))
    ensures Get(Put(t, p), k) == if k == p.0 then Some(p.1) else Get(t, k)
  {
    var c := ChainOf(t, p.0);
    ChainAtPut(t, Index(t, p.0), c + [p], Index(t, k));
    FindAppend(c, p, k);
    if k == p.0 { FindNew(c, p); }
  }

  lemma {:induction false} FindNew(c: Chain, p: Pair)
    requires !HasKey(c, p.0)
    ensures Find(c + [p], p.0) == |c|
  {
    if c != [] {
      assert (c + [p])[1..] == c[1..] + [p];
      FindNew(c[1..], p);
    }
  }

  lemma {:induction false} FindAppend(c: Chain, p: Pair, k: nat)
    ensures k != p.0 ==> (HasKey(c + [p], k) <==> HasKey(c, k)) && (HasKey(c, k) ==> Find(c + [p], k) == Find(c, k))
  {
    var f, g := Find(c, k), Find(c + [p], k);
    if f < |c| {
      assert (c + [p])[f].0 == k;
      assert forall i: nat :: i < f ==> (c + [p])[i] == c[i];
    }
    assert g < |c| ==> (c + [p])[g] == c[g];
  }

  /** Deleting the binding of a key. */
  lemma CutValid(t: Table, key: nat)
    requires Valid(t) && HasKey(ChainOf(t, key), key)
    ensures Valid(Cut(t, key)) && Cut(t, key).len == t.len
    ensures forall k: nat :: Get(Cut(t, key), k) == if k == key then None else Get(t, k)
  {
    IndexFits(t, key);
    var i, c, t' := Index(t, key), ChainOf(t, key), Cut(t, key);
    assert ChainOk(t, i);
    CutChains(t, i, c, Find(c, key));
    forall k: nat ensures Get(t', k) == if k == key then None else Get(t, k) { CutGets(t, key, k); }
  }

  lemma CutChains(t: Table, i: nat, c: Chain, f: nat)
    requires Valid(t) && i < |t.chains| && c == t.chains[i] && f < |c|
    ensures Valid(SetChain(t, i, Without(c, f)))
  {
    var d := Without(c, f);
    var t' := SetChain(t, i, d);
    assert ChainOk(t, i);
    assert forall j: nat :: j < |d| ==> d[j] == c[if j < f then j else j + 1];
    forall j: nat | j < |t'.chains| ensures ChainOk(t', j) {
      assert ChainOk(t, j) && ChainAt(t', j) == if j == i then d else ChainAt(t, j);
    }
  }

  lemma CutGets(t: Table, key: nat, k: nat)
    requires Index(t, key) < |t.chains| && HasKey(ChainOf(t, key), key) && Distinct(ChainOf(t, key))
    ensures Get(Cut(t, key), k) == if k == key then None else Get(t, k)
  {
    var c := ChainOf(t, key);
    ChainAtPut(t, Index(t, key), Without(c, Find(c, key)), Index(t, k));
    FindWithout(c, Find(c, key), k);
  }

  lemma FindWithout(c: Chain, f: nat, k: nat)
    requires f < |c| && Distinct(c)
    ensures var d := Without(c, f);
            if k == c[f].0 then !HasKey(d, k)
            else (HasKey(d, k) <==> HasKey(c, k)) && (HasKey(c, k) ==> d[Find(d, k)] == c[Find(c, k)])
  {
    var d := Without(c, f);
    assert forall j: nat :: j < |d| ==> d[j] == c[if j < f then j else j + 1];
    var g := Find(d, k);
    if g < |d| {
      var j := if g < f then g else g + 1;
      assert c[j].0 == k && j != f;
      FindIs(c, k, j);
    }
    var j := Find(c, k);
    assert j < |c| && j != f ==> d[if j < f then j else j - 1].0 == k;
  }

  // ---- rehashing ---------------------------------------------------------------------------------------------

  lemma BlankValid(odd: nat, len: nat)
    requires BASE_LENGTH <= len <= MAX_LENGTH
    ensures Valid(Blank(odd, len)) && forall k: nat :: Get(Blank(odd, len), k) == None
  {
  }

  /** The keys of `l` are different, and bound by `t` to the items of `l`. */
  ghost predicate Binds(t: Table, l: Chain) {
    forall k: nat :: Get(t, k) == if HasKey(l, k) then Some(l[Find(l, k)].1) else None
  }

  lemma {:induction false} PutAllValid(t: Table, l: Chain)
    requires Valid(t) && Distinct(l) && forall k: nat :: Get(t, k) == None
    ensures var t' := PutAll(t, l); Valid(t') && Binds(t', l) && t'.len == t.len && t'.odd == t.odd
    decreases |l|
  {
    if l != [] {
      var n := |l| - 1;
      var m, p := l[..n], l[n];
      PutAllValid(t, m);
      assert !HasKey(m, p.0) by { assert forall i: nat :: i < n ==> m[i] == l[i]; }
      PutValid(PutAll(t, m), p);
      assert l == m + [p];
      forall k: nat ensures Get(PutAll(t, l), k) == if HasKey(l, k) then Some(l[Find(l, k)].1) else None {
        FindAppend(m, p, k);
        if k == p.0 { FindIs(l, k, n); }
      }
    }
  }

  /** The bindings of a table, one by one, are those of its chains. */
  lemma AllBinds(t: Table)
    requires Valid(t)
    ensures Distinct(All(t.chains)) && Binds(t, All(t.chains))
  {
    var l := All(t.chains);
    AllDistinct(t, |t.chains|);
    assert t.chains[..|t.chains|] == t.chains;
    forall k: nat ensures Get(t, k) == if HasKey(l, k) then Some(l[Find(l, k)].1) else None {
      IndexFits(t, k);
      AllHas(t, |t.chains|, k);
    }
  }

  lemma {:induction false} AllDistinct(t: Table, n: nat)
    requires Valid(t) && n <= |t.chains|
    ensures Distinct(All(t.chains[..n])) && forall j: nat :: j < |All(t.chains[..n])| ==>
        Index(t, All(t.chains[..n])[j].0) < n
  {
    if n > 0 {
      AllDistinct(t, n - 1);
      assert t.chains[..n][..n - 1] == t.chains[..n - 1];
      assert ChainOk(t, n - 1);
    }
  }

  lemma {:induction false} AllHas(t: Table, n: nat, k: nat)
    requires Valid(t) && n <= |t.chains|
    ensures var l := All(t.chains[..n]);
            if Index(t, k) < n then
              (HasKey(l, k) <==> HasKey(ChainOf(t, k), k))
              && (HasKey(l, k) ==> l[Find(l, k)] == ChainOf(t, k)[Find(ChainOf(t, k), k)])
            else !HasKey(l, k)
  {
    if n > 0 {
      AllHas(t, n - 1, k);
      AllDistinct(t, n);
      var a, c := All(t.chains[..n - 1]), t.chains[n - 1];
      assert t.chains[..n][..n - 1] == t.chains[..n - 1];
      assert ChainOk(t, n - 1);
      var f := Find(c, k);
      if Index(t, k) == n - 1 {
        if f < |c| { FindIs(a + c, k, |a| + f); }
        else { NotInEither(a, c, k); }
      } else {
        if HasKey(a, k) { FindIs(a + c, k, Find(a, k)); } else { NotInEither(a, c, k); }
      }
    }
  }

  lemma NotInEither(a: Chain, c: Chain, k: nat)
    requires !HasKey(a, k) && !HasKey(c, k)
    ensures !HasKey(a + c, k)
  {
    forall j: nat | j < |a + c| ensures (a + c)[j].0 != k {
      if j < |a| { assert k == a[j].0 ==> HasKey(a, k) by { HasIs(a, k, j); } }
      else { assert k == c[j - |a|].0 ==> HasKey(c, k) by { HasIs(c, k, j - |a|); } }
    }
  }

  lemma HasIs(c: Chain, k: nat, j: nat)
    requires j < |c|
    ensures c[j].0 == k ==> HasKey(c, k)
  {
  }

  /** Rehashing keeps every binding, whatever the new size. */
  lemma ResizeValid(t: Table, len: nat)
    requires Valid(t) && BASE_LENGTH <= len <= MAX_LENGTH
    ensures var t' := Resize(t, len);
            Valid(t') && t'.len == len && t'.odd == t.odd && forall k: nat :: Get(t', k) == Get(t, k)
  {
    BlankValid(t.odd, len);
    AllBinds(t);
    PutAllValid(Blank(t.odd, len), All(t.chains));
  }

  // ---- removing and inserting ----------------------------------------------------------------------------------

  /** Removing gives up one binding and no other, and may shrink the table. */
  lemma RemoveMeans(t: Table, key: nat, mem: bool)
    requires Valid(t)
    ensures var t' := Remove(t, key, mem);
            && Valid(t') && t'.odd == t.odd && t'.len == (if Shrinks(t, key, mem) then t.len - 1 else t.len)
            && forall k: nat :: Get(t', k) == if k == key then None else Get(t, k)
  {
    if HasKey(ChainOf(t, key), key) {
      CutValid(t, key);
      if Sparse(Cut(t, key)) && mem { ResizeValid(Cut(t, key), t.len - 1); }
    }
  }

  predicate Shrinks(t: Table, key: nat, mem: bool) {
    HasKey(ChainOf(t, key), key) && Sparse(Cut(t, key)) && mem
  }

  lemma ExpandMeans(t: Table, mem: bool)
    requires Valid(t)
    ensures Valid(Expand(t, mem)) && forall k: nat :: Get(Expand(t, mem), k) == Get(t, k)
  {
    if Crowded(t) && mem && t.len < MAX_LENGTH { ResizeValid(t, t.len + 1); }
  }

  // ---- counting ------------------------------------------------------------------------------------------------

  /** Changing one chain changes the number of bindings, and of collision lists, by as much. */
  lemma {:induction false} CountChange(chains: seq<Chain>, i: nat, c: Chain)
    requires i < |chains|
    ensures |All(chains[i := c])| + |chains[i]| == |All(chains)| + |c|
    ensures Collisions(chains[i := c]) + (if |chains[i]| > 1 then 1 else 0) ==
        Collisions(chains) + (if |c| > 1 then 1 else 0)
  {
    var n := |chains| - 1;
    if i < n {
      assert chains[i := c][..n] == chains[..n][i := c];
      CountChange(chains[..n], i, c);
    } else {
      assert chains[i := c][..n] == chains[..n];
    }
  }

  lemma {:induction false} FewCollisions(chains: seq<Chain>)
    ensures Collisions(chains) <= |All(chains)|
  {
    if chains != [] { FewCollisions(chains[..|chains| - 1]); }
  }

  lemma {:induction false} BlankCounts(chains: seq<Chain>)
    requires forall i: nat :: i < |chains| ==> chains[i] == []
    ensures All(chains) == [] && Collisions(chains) == 0
  {
    if chains != [] { BlankCounts(chains[..|chains| - 1]); }
  }

  /** Rehashing keeps the number of bindings. */
  lemma {:induction false} PutAllCount(t: Table, l: Chain)
    requires t.len <= MAX_LENGTH && |t.chains| == Pow2(t.len)
    ensures var t' := PutAll(t, l);
        |All(t'.chains)| == |All(t.chains)| + |l| && t'.len == t.len && t'.odd == t.odd && |t'.chains| == |t.chains|
    decreases |l|
  {
    if l != [] {
      PutAllCount(t, l[..|l| - 1]);
      var t1, p := PutAll(t, l[..|l| - 1]), l[|l| - 1];
      HashFits(t1.odd, p.0, t1.len);
      CountChange(t1.chains, Index(t1, p.0), ChainOf(t1, p.0) + [p]);
    }
  }

  lemma ResizeCount(t: Table, len: nat)
    requires BASE_LENGTH <= len <= MAX_LENGTH
    ensures |All(Resize(t, len).chains)| == |All(t.chains)|
  {
    BlankCounts(Blank(t.odd, len).chains);
    PutAllCount(Blank(t.odd, len), All(t.chains));
  }

  // ---- when insertion works --------------------------------------------------------------------------------------

  /** `r` is a good table in which `key` is bound to `item`, and every other key as before. */
  ghost predicate Inserted(t: Table, key: nat, item: nat, r: Option<Table>) {
    r.Some? && Valid(r.value) && forall k: nat :: Get(r.value, k) == if k == key then Some(item) else Get(t, k)
  }

  lemma InsertMeans(t: Table, key: nat, item: nat, mem: bool)
    requires Valid(t) && (!Shrinks(t, key, mem) || Index(t, key) == 0)
    ensures Inserted(t, key, item, Insert(t, key, item, mem))
  {
    RemoveMeans(t, key, mem);
    var t1 := Remove(t, key, mem);
    if Shrinks(t, key, mem) { assert Index(t1, key) == Index(t, key) / 2; }
    IndexFits(t1, key);
    PutValid(t1, (key, item));
    ExpandMeans(Put(t1, (key, item)), mem);
  }

  /** A table that has just shrunk is far from crowded. */
  lemma ShrunkNotCrowded(t: Table, key: nat, mem: bool, i: nat, p: Pair)
    requires Valid(t) && Shrinks(t, key, mem) && i < |Remove(t, key, mem).chains|
    ensures var t1 := Remove(t, key, mem); !Crowded(SetChain(t1, i, ChainAt(t1, i) + [p]))
  {
    RemoveMeans(t, key, mem);
    CutValid(t, key);
    var t1 := Remove(t, key, mem);
    var t2 := SetChain(t1, i, ChainAt(t1, i) + [p]);
    ResizeCount(Cut(t, key), t.len - 1);
    CountChange(t1.chains, i, ChainAt(t1, i) + [p]);
    FewCollisions(t2.chains);
    BigEnough(t1.len);
    assert |Cut(t, key).chains| == 2 * |t1.chains|;
  }

  lemma BigEnough(len: nat)
    requires len >= BASE_LENGTH
    ensures Pow2(len) >= 64
    decreases len
  {
    if len > BASE_LENGTH { BigEnough(len - 1); } else { assert Pow2(6) == 64; }
  }

  lemma StaleInsertLoses(t: Table, key: nat, item: nat, mem: bool)
    requires Valid(t) && Shrinks(t, key, mem) && Index(t, key) != 0
    ensures !Inserted(t, key, item, Insert(t, key, item, mem))
  {
    RemoveMeans(t, key, mem);
    var i, t1 := Index(t, key), Remove(t, key, mem);
    assert Index(t1, key) == i / 2 != i;
    IndexFits(t1, key);
    if i < |t1.chains| {
      ShrunkNotCrowded(t, key, mem, i, (key, item));
      var t2 := SetChain(t1, i, ChainAt(t1, i) + [(key, item)]);
      assert Insert(t, key, item, mem) == Some(t2);
      StaleIsLost(t1, i, key, item);
    }
  }

  /** A binding in the wrong chain is not found. */
  lemma StaleIsLost(t: Table, i: nat, key: nat, item: nat)
    requires i < |t.chains| && i != Index(t, key) && Get(t, key) == None
    ensures Get(SetChain(t, i, ChainAt(t, i) + [(key, item)]), key) == None
  {
    ChainAtPut(t, i, ChainAt(t, i) + [(key, item)], Index(t, key));
  }

  /** Insertion binds the key and changes no other binding exactly if the key is absent, or its removal does
      not shrink the table, or its index is 0. In all other cases the index is stale: it lies outside the
      table, or the new binding goes to an entry where its key is never looked for. */
  lemma InsertExactly(t: Table, key: nat, item: nat, mem: bool)
    requires Valid(t)
    ensures Inserted(t, key, item, Insert(t, key, item, mem)) <==> !Shrinks(t, key, mem) || Index(t, key) == 0
  {
    if !Shrinks(t, key, mem) || Index(t, key) == 0 { InsertMeans(t, key, item, mem); } else {
      StaleInsertLoses(t, key, item, mem);
    }
  }

  // ---- runs --------------------------------------------------------------------------------------------------------

  datatype Op = Ins(key: nat, item: nat, mem: bool) | Del(key: nat, mem: bool) | Rep(key: nat, item: nat)

  /** Insertions of present keys are left out if their index would be stale. */
  predicate Proper(t: Table, op: Op) { op.Ins? ==> !Shrinks(t, op.key, op.mem) || Index(t, op.key) == 0 }

  function Apply(t: Table, op: Op): Table {
    match op
    case Ins(key, item, mem) => var r := Insert(t, key, item, mem); if r.Some? then r.value else t
    case Del(key, mem) => Remove(t, key, mem)
    case Rep(key, item) => Replace(t, key, item)
  }

  function ApplyMap(m: map<nat, nat>, op: Op): map<nat, nat> {
    match op
    case Ins(key, item, _) => m[key := item]
    case Del(key, _) => m - {key}
    case Rep(key, item) => if key in m then m[key := item] else m
  }

  predicate ProperRun(t: Table, ops: seq<Op>)
    decreases |ops|
  {
    ops != [] ==> Proper(t, ops[0]) && ProperRun(Apply(t, ops[0]), ops[1..])
  }

  function Run(t: Table, ops: seq<Op>): Table
    decreases |ops|
  {
    if ops == [] then t else Run(Apply(t, ops[0]), ops[1..])
  }

  function RunMap(m: map<nat, nat>, ops: seq<Op>): map<nat, nat>
    decreases |ops|
  {
    if ops == [] then m else RunMap(ApplyMap(m, ops[0]), ops[1..])
  }

  /** The table stands for the map. */
  ghost predicate Refines(t: Table, m: map<nat, nat>) {
    Valid(t) && forall k: nat :: Get(t, k) == if k in m then Some(m[k]) else None
  }

  lemma ApplyRefines(t: Table, m: map<nat, nat>, op: Op)
    requires Refines(t, m) && Proper(t, op)
    ensures Refines(Apply(t, op), ApplyMap(m, op))
  {
    match op
    case Ins(key, item, mem) => InsertMeans(t, key, item, mem);
    case Del(key, mem) => RemoveMeans(t, key, mem);
    case Rep(key, item) => ReplaceMeans(t, key, item);
  }

  lemma {:induction false} RunRefinesFrom(t: Table, m: map<nat, nat>, ops: seq<Op>)
    requires Refines(t, m) && ProperRun(t, ops)
    ensures Refines(Run(t, ops), RunMap(m, ops))
    decreases |ops|
  {
    if ops != [] {
      ApplyRefines(t, m, ops[0]);
      RunRefinesFrom(Apply(t, ops[0]), ApplyMap(m, ops[0]), ops[1..]);
    }
  }

  function Keys(l: Chain): set<nat> { set j | 0 <= j < |l| :: l[j].0 }

  lemma {:induction false} DistinctCount(l: Chain)
    requires Distinct(l)
    ensures |Keys(l)| == |l|
  {
    if l != [] {
      var n := |l| - 1;
      DistinctCount(l[..n]);
      assert forall j: nat :: j < n ==> l[..n][j] == l[j];
      assert Keys(l) == Keys(l[..n]) + {l[n].0} && l[n].0 !in Keys(l[..n]);
    }
  }

  /** After any run, through any expansions and shrinks, the table stands for the map, and the number of its
      bindings is the size of the map. */
  lemma RunRefines(odd: nat, ops: seq<Op>)
    requires ProperRun(Blank(odd, BASE_LENGTH), ops)
    ensures var t, m := Run(Blank(odd, BASE_LENGTH), ops), RunMap(map[], ops); Refines(t, m) && |All(t.chains)| == |m|
  {
    BlankValid(odd, BASE_LENGTH);
    RunRefinesFrom(Blank(odd, BASE_LENGTH), map[], ops);
    var t, m := Run(Blank(odd, BASE_LENGTH), ops), RunMap(map[], ops);
    var l := All(t.chains);
    AllBinds(t);
    DistinctCount(l);
    forall k: nat ensures k in m.Keys <==> k in Keys(l) {
      assert Get(t, k).Some? <==> HasKey(l, k);
      if k in Keys(l) { var j :| 0 <= j < |l| && l[j].0 == k; FindIs(l, k, j); }
    }
    assert m.Keys == Keys(l);
  }

  // ---- the entries -----------------------------------------------------------------------------------------------

  /** An entry: its own binding, and the list of those that collided with it. */
  datatype Slot = Slot(used: bool, key: nat, item: nat, list: Option<Chain>)

  /** A collision list exists only on a used entry, and is not empty. */
  predicate SlotOk(s: Slot) { s.list.Some? ==> s.used && s.list.value != [] }

  function ChainIn(s: Slot): Chain {
    if !s.used then [] else [(s.key, s.item)] + if s.list.Some? then s.list.value else []
  }

  function Chains(a: seq<Slot>): seq<Chain> { seq(|a|, i requires 0 <= i < |a| => ChainIn(a[i])) }

  predicate SlotsOk(a: seq<Slot>) { forall i: nat :: i < |a| ==> SlotOk(a[i]) }

  lemma ChainsSet(a: seq<Slot>, i: nat, s: Slot)
    requires i < |a|
    ensures Chains(a[i := s]) == Chains(a)[i := ChainIn(s)]
  {
  }

  class Hash32 {
    const odd: nat
    var data: array<Slot>
    var itemsCount: nat
    var hashLength: nat
    var collisionKeys: nat

    ghost function T(): Table
      reads this, data
    {
      Table(odd, hashLength, Chains(data[..]))
    }

    /** The counts are right, and collision lists where they should be. */
    ghost predicate Counted()
      reads this, data
    {
      && SlotsOk(data[..]) && BASE_LENGTH <= hashLength <= MAX_LENGTH && data.Length == Pow2(hashLength)
      && itemsCount == |All(T().chains)| && collisionKeys == Collisions(T().chains)
    }

    constructor (odd: nat)
      ensures Counted() && T() == Blank(odd, BASE_LENGTH) && fresh(data)
    {
      this.odd := odd;
      data := new Slot[Pow2(BASE_LENGTH)](_ => Slot(false, 0, 0, None));
      itemsCount, hashLength, collisionKeys := 0, BASE_LENGTH, 0;
      new;
      assert Chains(data[..]) == Blank(odd, BASE_LENGTH).chains;
      BlankCounts(Chains(data[..]));
    }

    /** Appends a binding to entry `i`. */
    method AppendAt(i: nat, key: nat, item: nat)
      requires Counted() && i < data.Length
      modifies data, this`itemsCount, this`collisionKeys
      ensures Counted() && T() == SetChain(old(T()), i, ChainAt(old(T()), i) + [(key, item)])
      ensures itemsCount == old(itemsCount) + 1
      ensures collisionKeys == old(collisionKeys) + if |ChainAt(old(T()), i)| == 1 then 1 else 0
    {
      ghost var a := data[..];
      CountChange(Chains(a), i, ChainIn(a[i]) + [(key, item)]);
      var s := data[i];
      itemsCount := itemsCount + 1;
      if !s.used {
        s := Slot(true, key, item, None);
      } else {
        if s.list == None { collisionKeys := collisionKeys + 1; }
        s := s.(list := Some((if s.list == None then [] else s.list.value) + [(key, item)]));
      }
      assert ChainIn(s) == ChainIn(a[i]) + [(key, item)];
      ChainsSet(a, i, s);
      data[i] := s;
    }

    method IsInTable(key: nat) returns (found: bool)
      requires Counted()
      ensures found <==> Get(T(), key).Some?
    {
      var item;
      found, item := Lookup(key);
    }

    /** Looks at the entry of a key, and then at its collision list. */
    method Lookup(key: nat) returns (found: bool, item: nat)
      requires Counted()
      ensures Get(T(), key) == if found then Some(item) else None
    {
      IndexFits(T(), key);
      var s := data[Hash(odd, key, hashLength)];
      ghost var c := ChainIn(s);
      assert c == ChainOf(T(), key);
      found, item := false, 0;
      if !s.used { return; }
      if s.key == key { return true, s.item; }
      if s.list == None { return; }
      var list, i := s.list.value, 0;
      while i < |list|
        invariant 0 <= i <= |list| && forall j: nat :: j <= i ==> c[j].0 != key
      {
        if list[i].0 == key {
          assert c[i + 1] == list[i];
          FirstIs(c, key, i + 1);
          return true, list[i].1;
        }
        assert c[i + 1] == list[i];
        i := i + 1;
      }
    }

    /** The item of a key, if it is in the table. */
    method GetItemByKey(key: nat) returns (item: Option<nat>)
      requires Counted()
      ensures item == Get(T(), key)
    {
      var found, v := Lookup(key);
      item := if found then Some(v) else None;
    }

    /** The position of `key` in a collision list that has it. */
    method FindInList(list: Chain, key: nat) returns (i: nat)
      requires HasKey(list, key)
      ensures i == Find(list, key)
    {
      i := 0;
      while list[i].0 != key
        invariant i <= Find(list, key)
        decreases |list| - i
      {
        i := i + 1;
      }
    }

    /** Entry `i` becomes `s`. */
    method PutSlot(i: nat, s: Slot)
      requires SlotsOk(data[..]) && i < data.Length && SlotOk(s)
      modifies data
      ensures SlotsOk(data[..]) && T() == SetChain(old(T()), i, ChainIn(s))
    {
      ChainsSet(data[..], i, s);
      data[i] := s;
    }

    /** Replaces the item of a key, if it is in the table. */
    method ReplaceItemByKey(key: nat, item: nat)
      requires Counted()
      modifies data
      ensures Counted() && T() == Replace(old(T()), key, item)
    {
      var found, was := Lookup(key);
      if !found { return; }
      ghost var t := T();
      IndexFits(t, key);
      var i := Hash(odd, key, hashLength);
      var s := ReplaceInSlot(data[i], key, item);
      CountChange(t.chains, i, ChainIn(s));
      PutSlot(i, s);
    }

    method ReplaceInSlot(was: Slot, key: nat, item: nat) returns (s: Slot)
      requires SlotOk(was) && HasKey(ChainIn(was), key)
      ensures SlotOk(s) && ChainIn(s) == ChainIn(was)[Find(ChainIn(was), key) := (key, item)]
    {
      ghost var c := ChainIn(was);
      if was.key == key {
        s := was.(item := item);
      } else {
        InTail(c, c[1..], key);
        assert c[1..] == was.list.value;
        var j := FindInList(was.list.value, key);
        s := was.(list := Some(was.list.value[j := (key, item)]));
      }
    }

    /** Deletes the binding of a key that is in the table. */
    method CutItem(key: nat)
      requires Counted() && Get(T(), key).Some?
      modifies data, this`itemsCount, this`collisionKeys
      ensures Counted() && T() == Cut(old(T()), key) && itemsCount == old(itemsCount) - 1
    {
      ghost var t := T();
      IndexFits(t, key);
      var i := Hash(odd, key, hashLength);
      var s := CutFromSlot(data[i], key);
      CountChange(t.chains, i, ChainIn(s));
      ListMeans(data[i]);
      ListMeans(s);
      itemsCount := itemsCount - 1;
      if data[i].list != None && s.list == None { collisionKeys := collisionKeys - 1; }
      PutSlot(i, s);
    }

    /** Deletes a key from an entry: the first of the collision list takes the place of the entry's own. */
    method CutFromSlot(was: Slot, key: nat) returns (s: Slot)
      requires SlotOk(was) && HasKey(ChainIn(was), key)
      ensures SlotOk(s) && ChainIn(s) == Without(ChainIn(was), Find(ChainIn(was), key))
    {
      if was.key == key { s := CutOwn(was, key); } else { s := CutListed(was, key); }
    }

    method CutOwn(was: Slot, key: nat) returns (s: Slot)
      requires SlotOk(was) && was.used && was.key == key
      ensures SlotOk(s) && Find(ChainIn(was), key) == 0 && ChainIn(s) == Without(ChainIn(was), 0)
    {
      if was.list == None {
        s := was.(used := false);
      } else {
        var list := was.list.value;
        s := Slot(true, list[0].0, list[0].1, if |list| == 1 then None else Some(list[1..]));
      }
      assert ChainIn(s) == Without(ChainIn(was), 0);
    }

    method CutListed(was: Slot, key: nat) returns (s: Slot)
      requires SlotOk(was) && HasKey(ChainIn(was), key) && was.key != key
      ensures SlotOk(s) && ChainIn(s) == Without(ChainIn(was), Find(ChainIn(was), key))
    {
      ghost var c := ChainIn(was);
      InTail(c, c[1..], key);
      var list := was.list.value;
      assert c[1..] == list;
      var j := FindInList(list, key);
      s := was.(list := if |list| == 1 then None else Some(Without(list, j)));
      WithoutInTail(c, list, j);
      assert ChainIn(s) == [c[0]] + Without(list, j);
    }

    /** Removes a key, and halves a table that is used for less than a tenth afterwards. */
    method RemoveItem(key: nat, mem: bool)
      requires Counted()
      modifies this, data
      ensures Counted() && (data == old(data) || fresh(data)) && T() == Remove(old(T()), key, mem)
      ensures Valid(old(T())) ==>
                Valid(T()) && forall k: nat :: Get(T(), k) == if k == key then None else Get(old(T()), k)
      ensures hashLength == old(hashLength) -
          if Get(old(T()), key).Some? && mem && 10 * (old(itemsCount) - 1) < old(data.Length)
             && old(hashLength) > BASE_LENGTH then 1 else 0
    {
      if Valid(T()) { RemoveMeans(T(), key, mem); }
      var found := IsInTable(key);
      if found { RemoveFound(key, mem); }
    }

    method RemoveFound(key: nat, mem: bool)
      requires Counted() && Get(T(), key).Some?
      modifies this, data
      ensures Counted() && (data == old(data) || fresh(data)) && T() == Remove(old(T()), key, mem)
      ensures hashLength == old(hashLength) -
          if mem && 10 * (old(itemsCount) - 1) < old(data.Length) && old(hashLength) > BASE_LENGTH then 1 else 0
    {
      RemoveIs(T(), key, mem);
      CutItem(key);
      HalveIfSparse(mem);
    }

    /** Halves a table that is hardly used. */
    method HalveIfSparse(mem: bool)
      requires Counted()
      modifies this
      ensures Counted() && (data == old(data) || fresh(data))
      ensures var t := old(T()); T() == if Sparse(t) && mem then Resize(t, t.len - 1) else t
      ensures hashLength == old(hashLength) -
          if mem && 10 * old(itemsCount) < old(data.Length) && old(hashLength) > BASE_LENGTH then 1 else 0
    {
      assert Sparse(T()) <==> 10 * itemsCount < data.Length && hashLength > BASE_LENGTH;
      if 10 * itemsCount < data.Length && hashLength > BASE_LENGTH { Rehash(hashLength - 1, mem); }
    }

    /** Moves every binding to a table of another size, if there is memory for one. */
    method Rehash(len: nat, mem: bool)
      requires Counted() && BASE_LENGTH <= len <= MAX_LENGTH
      modifies this
      ensures Counted() && (data == old(data) || fresh(data)) && T() == if mem then Resize(old(T()), len) else old(T())
      ensures itemsCount == old(itemsCount) && hashLength == if mem then len else old(hashLength)
    {
      if !mem { return; }
      ResizeCount(T(), len);
      var from := data;
      StartOver(len);
      MoveAll(from, len);
    }

    /** Takes an empty table. */
    method StartOver(len: nat)
      requires BASE_LENGTH <= len <= MAX_LENGTH
      modifies this
      ensures Counted() && fresh(data) && T() == Blank(odd, len) && hashLength == len
    {
      data := new Slot[Pow2(len)](_ => Slot(false, 0, 0, None));
      itemsCount, hashLength, collisionKeys := 0, len, 0;
      assert Chains(data[..]) == Blank(odd, len).chains;
      BlankCounts(Chains(data[..]));
    }

    /** Moves all entries of another table to this one. */
    method MoveAll(from: array<Slot>, len: nat)
      requires Counted() && from != data && hashLength == len && T() == Blank(odd, len)
      modifies data, this`itemsCount, this`collisionKeys
      ensures Counted() && T() == PutAll(Blank(odd, len), All(Chains(from[..])))
    {
      ghost var chains := Chains(from[..]);
      var i := 0;
      while i < from.Length
        invariant 0 <= i <= from.Length && Chains(from[..]) == chains
        invariant Counted() && T() == PutAll(Blank(odd, len), All(chains[..i]))
      {
        assert chains[..i + 1][..i] == chains[..i] && chains[i] == ChainIn(from[i]);
        MoveEntry(from[i], len, All(chains[..i]));
        i := i + 1;
      }
      assert chains[..i] == chains;
    }

    /** Moves the bindings of one entry; `done` are those already moved. */
    method MoveEntry(s: Slot, len: nat, ghost done: Chain)
      requires Counted() && hashLength == len && T() == PutAll(Blank(odd, len), done)
      modifies data, this`itemsCount, this`collisionKeys
      ensures Counted() && T() == PutAll(Blank(odd, len), done + ChainIn(s))
    {
      ghost var c := ChainIn(s);
      if s.used {
        var list := if s.list == None then [] else s.list.value;
        EntryFirst(s, list, done);
        AppendItem(s.key, s.item, len, done);
        MoveList(list, len, done + [(s.key, s.item)]);
      } else {
        assert done + c == done;
      }
    }

    method MoveList(list: Chain, len: nat, ghost done: Chain)
      requires Counted() && hashLength == len && T() == PutAll(Blank(odd, len), done)
      modifies data, this`itemsCount, this`collisionKeys
      ensures Counted() && T() == PutAll(Blank(odd, len), done + list)
    {
      var j := 0;
      assert done + list[..0] == done;
      while j < |list|
        invariant 0 <= j <= |list| && Counted() && T() == PutAll(Blank(odd, len), done + list[..j])
      {
        assert done + list[..j] + [list[j]] == done + list[..j + 1];
        AppendItem(list[j].0, list[j].1, len, done + list[..j]);
        j := j + 1;
      }
      assert list[..j] == list;
    }

    method AppendItem(key: nat, item: nat, len: nat, ghost done: Chain)
      requires Counted() && hashLength == len && T() == PutAll(Blank(odd, len), done)
      modifies data, this`itemsCount, this`collisionKeys
      ensures Counted() && T() == PutAll(Blank(odd, len), done + [(key, item)])
    {
      HashFits(odd, key, len);
      assert (done + [(key, item)])[..|done|] == done;
      AppendAt(Hash(odd, key, len), key, item);
    }

    /** Inserts a binding, removing the key first if it is there. The result tells whether the entry that the
        key was to go to is still in the table. */
    method InsertItem(key: nat, item: nat, mem: bool) returns (ok: bool)
      requires Counted()
      modifies this, data
      ensures Counted() && (data == old(data) || fresh(data))
      ensures Insert(old(T()), key, item, mem) == if ok then Some(T()) else None
    {
      var i := Hash(odd, key, hashLength);
      RemoveItem(key, mem);
      ok := i < data.Length;
      if ok { InsertAt(i, key, item, mem); }
    }

    /** Appends a binding to entry `i`, and doubles a crowded table. */
    method InsertAt(i: nat, key: nat, item: nat, mem: bool)
      requires Counted() && i < data.Length
      modifies this, data
      ensures Counted() && (data == old(data) || fresh(data))
      ensures T() == Expand(SetChain(old(T()), i, ChainAt(old(T()), i) + [(key, item)]), mem)
      ensures var lists := old(collisionKeys) + if |ChainAt(old(T()), i)| == 1 then 1 else 0;
              hashLength == old(hashLength) +
                  if mem && 4 * lists > 3 * old(data.Length) && old(hashLength) < MAX_LENGTH then 1 else 0
    {
      AppendAt(i, key, item);
      DoubleIfCrowded(mem);
    }

    /** Doubles a table with many collision lists. */
    method DoubleIfCrowded(mem: bool)
      requires Counted()
      modifies this
      ensures Counted() && (data == old(data) || fresh(data)) && T() == Expand(old(T()), mem)
      ensures hashLength == old(hashLength) +
          if mem && 4 * old(collisionKeys) > 3 * old(data.Length) && old(hashLength) < MAX_LENGTH then 1 else 0
    {
      assert Crowded(T()) <==> 4 * collisionKeys > 3 * data.Length;
      if 4 * collisionKeys > 3 * data.Length && hashLength < MAX_LENGTH { Rehash(hashLength + 1, mem); }
    }
  }

  lemma FirstIs(c: Chain, key: nat, j: nat)
    requires j < |c| && c[j].0 == key && forall i: nat :: i < j ==> c[i].0 != key
    ensures Find(c, key) == j
  {
  }

  lemma EntryFirst(s: Slot, list: Chain, done: Chain)
    requires s.used && list == if s.list == None then [] else s.list.value
    ensures done + [(s.key, s.item)] + list == done + ChainIn(s)
  {
  }

  lemma ListMeans(s: Slot)
    requires SlotOk(s)
    ensures |ChainIn(s)| > 1 <==> s.list.Some?
  {
  }

  /** A key that is in a chain, but not first, is in the rest. */
  lemma InTail(c: Chain, list: Chain, key: nat)
    requires c != [] && c[0].0 != key && list == c[1..] && HasKey(c, key)
    ensures HasKey(list, key) && Find(c, key) == Find(list, key) + 1
  {
  }

  lemma RemoveIs(t: Table, key: nat, mem: bool)
    requires Get(t, key).Some?
    ensures var u := Cut(t, key); Remove(t, key, mem) == if Sparse(u) && mem then Resize(u, u.len - 1) else u
  {
  }

  lemma WithoutInTail(c: Chain, list: Chain, j: nat)
    requires c != [] && list == c[1..] && j < |list|
    ensures Without(c, j + 1) == [c[0]] + Without(list, j) && (|list| == 1 ==> Without(list, j) == [])
  {
  }

  /** Replacing changes the item of a key that is in the table, and nothing else. */
  lemma ReplaceMeans(t: Table, key: nat, item: nat)
    requires Valid(t)
    ensures var t' := Replace(t, key, item);
            Valid(t') && forall k: nat :: Get(t', k) == if k == key && Get(t, k).Some? then Some(item) else Get(t, k)
  {
    IndexFits(t, key);
    if Get(t, key) == None { return; }
    var i, c := Index(t, key), ChainOf(t, key);
    var f := Find(c, key);
    var t' := SetChain(t, i, c[f := (key, item)]);
    ReplaceValid(t, key, item, i, c, f);
    forall k: nat ensures Get(t', k) == if k == key && Get(t, k).Some? then Some(item) else Get(t, k) {
      IndexFits(t, k);
      ReplaceFinds(c, f, item, k);
    }
  }

  lemma ReplaceValid(t: Table, key: nat, item: nat, i: nat, c: Chain, f: nat)
    requires Valid(t) && i == Index(t, key) && c == ChainOf(t, key) && f == Find(c, key) && f < |c|
    ensures Valid(SetChain(t, i, c[f := (key, item)]))
  {
    var d := c[f := (key, item)];
    var t' := SetChain(t, i, d);
    assert ChainOk(t, i);
    forall j: nat | j < |t'.chains| ensures ChainOk(t', j) {
      assert ChainOk(t, j) && ChainAt(t', j) == if j == i then d else ChainAt(t, j);
    }
  }

  lemma {:induction false} ReplaceFinds(c: Chain, f: nat, item: nat, k: nat)
    requires f < |c|
    ensures Find(c[f := (c[f].0, item)], k) == Find(c, k)
  {
    var d := c[f := (c[f].0, item)];
    if c[0].0 != k && c != [] {
      if f > 0 {
        assert d[1..] == c[1..][f - 1 := (c[1..][f - 1].0, item)];
        ReplaceFinds(c[1..], f - 1, item, k);
      } else {
        assert d[1..] == c[1..];
      }
    }
  }
}
