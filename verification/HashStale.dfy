/** A run of the hash table, from the empty table and with memory for every change of size, after which inserting
    a key that is there uses an index outside the table. */
module HashStale {
  import opened HashTable

  // ---- the keys --------------------------------------------------------------------------------

  /** The keys come in pairs with one index. */
  function Key(n: nat): nat { n / 2 * 0x400_0000 + n % 2 }

  lemma {:induction false} ShiftPair(i: nat, j: nat, bits: nat)
    requires bits >= 1 && j < 2
    ensures Shift(i * Pow2(bits) + j, bits) == i
    decreases bits
  {
    if bits > 1 {
      assert i * Pow2(bits) == 2 * i * Pow2(bits - 1);
      ShiftPair(2 * i, j, bits - 1);
    } else {
      assert Shift(i * 2 + j, 1) == (i * 2 + j) / 2;
    }
  }

  /** With multiplier 1 the keys of a pair go to the entry of its number, or to twice that in a table of 128. */
  lemma KeyIndex(t: Table, n: nat)
    requires t.odd == 1 && n < 128
    ensures t.len == 6 ==> Index(t, Key(n)) == n / 2
    ensures t.len == 7 ==> Index(t, Key(n)) == 2 * (n / 2)
  {
    var i, j := n / 2, n % 2;
    assert Product(1, Key(n)) == Key(n);
    assert Pow2(13) == 0x2000;
    assert Pow2(25) == 0x200_0000;
    ShiftPair(i, j, 26);
    ShiftPair(2 * i, j, 25);
  }

  lemma KeysDiffer(n: nat, m: nat)
    requires n != m && n < 128 && m < 128
    ensures Key(n) != Key(m)
  {
  }

  // ---- filling the table -----------------------------------------------------------------------

  /** Insertions of the first `n` keys. */
  function Fill(n: nat): seq<Op> { if n == 0 then [] else Fill(n - 1) + [Ins(Key(n - 1), 1, true)] }

  lemma {:induction false} RunLast(t: Table, ops: seq<Op>, op: Op)
    ensures Run(t, ops + [op]) == Apply(Run(t, ops), op)
    ensures ProperRun(t, ops) && Proper(Run(t, ops), op) ==> ProperRun(t, ops + [op])
    decreases |ops|
  {
    if ops == [] {
      assert [] + [op] == [op] && [op][1..] == [];
    } else {
      assert (ops + [op])[1..] == ops[1..] + [op];
      RunLast(Apply(t, ops[0]), ops[1..], op);
    }
  }

  /** The first `n` keys are in the table, and the others are not. */
  predicate Has(t: Table, from: nat, to: nat) {
    forall j: nat :: j < 128 ==> (Get(t, Key(j)).Some? <==> from <= j < to)
  }

  /** The first `n` keys are in their entries, and there has been no expansion. */
  ghost predicate Filled(t: Table, n: nat) {
    && Valid(t) && t.odd == 1 && t.len == 6 && |t.chains| == 64 && Has(t, 0, n)
    && |All(t.chains)| == n && Collisions(t.chains) == n / 2
    && forall i: nat :: i < 64 ==> |t.chains[i]| == if i < n / 2 then 2 else if i == n / 2 then n % 2 else 0
  }

  /** The table after the key has been appended, before the check for an expansion. */
  lemma Appended(t: Table, n: nat, t': Table)
    requires Filled(t, n) && n < 98 && t' == Put(t, (Key(n), 1))
    ensures Insert(t, Key(n), 1, true) == Some(Expand(t', true)) && Filled(t', n + 1)
    ensures Proper(t, Ins(Key(n), 1, true))
  {
    var k, i, c := Key(n), n / 2, t.chains[n / 2];
    KeyIndex(t, n);
    assert Get(t, k) == None;
    PutValid(t, (k, 1));
    CountChange(t.chains, i, c + [(k, 1)]);
    assert t'.chains == t.chains[i := c + [(k, 1)]];
    forall j: nat | j < 128 ensures Get(t', Key(j)).Some? <==> j < n + 1 {
      if j != n { KeysDiffer(j, n); }
    }
  }

  lemma {:induction false} FillFills(n: nat)
    requires n < 98
    ensures ProperRun(Blank(1, 6), Fill(n)) && Filled(Run(Blank(1, 6), Fill(n)), n)
  {
    if n == 0 {
      BlankFilled();
    } else {
      FillFills(n - 1);
      FillStep(Run(Blank(1, 6), Fill(n - 1)), n - 1);
      RunLast(Blank(1, 6), Fill(n - 1), Ins(Key(n - 1), 1, true));
    }
  }

  lemma BlankFilled()
    ensures Filled(Blank(1, 6), 0)
  {
    BlankValid(1, 6);
    BlankCounts(Blank(1, 6).chains);
    assert Pow2(6) == 64;
  }

  lemma FillStep(t: Table, n: nat)
    requires Filled(t, n) && n < 97
    ensures Proper(t, Ins(Key(n), 1, true)) && Filled(Apply(t, Ins(Key(n), 1, true)), n + 1)
  {
    var t' := Put(t, (Key(n), 1));
    Appended(t, n, t');
    assert !Crowded(t');
  }

  // ---- after the expansion ---------------------------------------------------------------------

  /** The keys from `d` to 98 are in a table of 128 entries. */
  ghost predicate Drained(t: Table, d: nat) {
    Valid(t) && t.odd == 1 && t.len == 7 && d <= 98 && Has(t, d, 98) && |All(t.chains)| == 98 - d
  }

  /** The 98th insertion fills the 49th collision list, and the table doubles. */
  lemma FillExpands(n: nat)
    requires n == 97
    ensures ProperRun(Blank(1, 6), Fill(n + 1)) && Drained(Run(Blank(1, 6), Fill(n + 1)), 0)
  {
    var b := Blank(1, 6);
    FillFills(n);
    var t := Run(b, Fill(n));
    var t' := Put(t, (Key(n), 1));
    Appended(t, n, t');
    RunLast(b, Fill(n), Ins(Key(n), 1, true));
    Expanded(t', Expand(t', true));
  }

  lemma Expanded(t: Table, t': Table)
    requires Filled(t, 98) && t' == Expand(t, true)
    ensures Drained(t', 0)
  {
    assert Crowded(t);
    ResizeValid(t, 7);
    ResizeCount(t, 7);
    Rehashed(t, t', 0, 98);
  }

  lemma Rehashed(t: Table, t': Table, from: nat, to: nat)
    requires Has(t, from, to) && forall k: nat :: Get(t', k) == Get(t, k)
    ensures Has(t', from, to)
  {}

  /** Deletions of the first `d` keys. */
  function Drain(d: nat): seq<Op> { if d == 0 then [] else Drain(d - 1) + [Del(Key(d - 1), true)] }

  lemma DrainStep(t: Table, d: nat, u: Table)
    requires Drained(t, d) && d < 98 && HasKey(ChainOf(t, Key(d)), Key(d)) && u == Cut(t, Key(d))
    ensures Drained(u, d + 1) && |u.chains| == 128
  {
    var k := Key(d);
    CutValid(t, k);
    IndexFits(t, k);
    var c := ChainOf(t, k);
    CountChange(t.chains, Index(t, k), Without(c, Find(c, k)));
    assert Pow2(7) == 128;
    forall j: nat | j < 128 ensures Get(u, Key(j)).Some? <==> d + 1 <= j < 98 {
      if j != d { KeysDiffer(j, d); }
    }
  }

  /** The deletions down to 13 keys do not shrink the table. */
  lemma {:induction false} DrainDrains(fill: seq<Op>, d: nat)
    requires d <= 85 && ProperRun(Blank(1, 6), fill) && Drained(Run(Blank(1, 6), fill), 0)
    ensures ProperRun(Blank(1, 6), fill + Drain(d)) && Drained(Run(Blank(1, 6), fill + Drain(d)), d)
  {
    if d == 0 {
      assert fill + [] == fill;
    } else {
      var ops, op := fill + Drain(d - 1), Del(Key(d - 1), true);
      DrainDrains(fill, d - 1);
      Drains(Run(Blank(1, 6), ops), d - 1);
      RunLast(Blank(1, 6), ops, op);
      assert fill + Drain(d) == ops + [op];
    }
  }

  lemma Drains(t: Table, d: nat)
    requires Drained(t, d) && d < 85
    ensures Drained(Apply(t, Del(Key(d), true)), d + 1)
  {
    assert Get(t, Key(d)).Some?;
    var u := Cut(t, Key(d));
    DrainStep(t, d, u);
    assert !Sparse(u);
  }

  /** 98 insertions, which double the table, and 85 deletions lead to a table in which a key is present whose
      insertion uses an index outside the table. */
  lemma StaleRun() returns (ops: seq<Op>, key: nat)
    ensures ProperRun(Blank(1, BASE_LENGTH), ops) && key < WORD
    ensures forall op: Op :: op in ops ==> !op.Rep? && op.mem
    ensures var t := Run(Blank(1, BASE_LENGTH), ops); Get(t, key).Some? && Insert(t, key, 2, true) == None
  {
    var n, d := 97, 85;
    ops, key := StaleOps(n, d);
  }

  lemma StaleOps(n: nat, d: nat) returns (ops: seq<Op>, key: nat)
    requires n == 97 && d == 85
    ensures ProperRun(Blank(1, BASE_LENGTH), ops) && key < WORD
    ensures forall op: Op :: op in ops ==> !op.Rep? && op.mem
    ensures var t := Run(Blank(1, BASE_LENGTH), ops); Get(t, key).Some? && Insert(t, key, 2, true) == None
  {
    ops, key := Fill(n + 1) + Drain(d), Key(n);
    WithMemory(n + 1, d);
    FillExpands(n);
    DrainDrains(Fill(n + 1), d);
    StaleAt(Run(Blank(1, 6), ops));
  }

  lemma StaleAt(t: Table)
    requires Drained(t, 85)
    ensures Get(t, Key(97)).Some? && Insert(t, Key(97), 2, true) == None
  {
    var k := Key(97);
    assert Get(t, k).Some?;
    KeyIndex(t, 97);
    CutValid(t, k);
    IndexFits(t, k);
    var c := ChainOf(t, k);
    CountChange(t.chains, Index(t, k), Without(c, Find(c, k)));
    assert Pow2(7) == 128 && Pow2(6) == 64;
    assert Shrinks(t, k, true);
    RemoveMeans(t, k, true);
  }

  lemma {:induction false} WithMemory(n: nat, d: nat)
    ensures forall op: Op :: op in Fill(n) + Drain(d) ==> !op.Rep? && op.mem
    decreases n + d
  {
    if d > 0 {
      WithMemory(n, d - 1);
      assert Fill(n) + Drain(d) == Fill(n) + Drain(d - 1) + [Del(Key(d - 1), true)];
    } else if n > 0 {
      WithMemory(n - 1, 0);
      assert Fill(n) + Drain(0) == Fill(n - 1) + Drain(0) + [Ins(Key(n - 1), 1, true)];
    }
  }
}
