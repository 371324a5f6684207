/** Quick-find union with intrusive sibling lists: every item names its representative, a representative
    heads the list of the other members of its set, and one word is the list link of a member and the
    member count of a representative. */
module QuickFind {
  import opened Counting

  const BAD: nat := 0xffff_ffff

  /** `link` is the next sibling of an item that is not a representative, else its number of children. */
  datatype Item = Item(parent: nat, child: nat, link: nat)

  // ---- the sets ------------------------------------------------------------------------------------

  /** `root` gives the representative of each item, and `kids` the other members of each representative's
      set in list order. */
  datatype Sets = Sets(root: map<nat, nat>, kids: map<nat, seq<nat>>)

  const EMPTY := Sets(map[], map[])

  datatype Op = MakeSet(x: nat) | Union(x: nat, y: nat)

  function Make(s: Sets, x: nat): Sets {
    if x in s.root then s else Sets(s.root[x := x], s.kids[x := []])
  }

  /** The set of `l` becomes part of the set of `w`. */
  function Absorb(s: Sets, w: nat, l: nat): Sets
    requires w in s.kids && l in s.kids
  {
    Sets(map z | z in s.root :: if s.root[z] == l then w else s.root[z],
        (s.kids - {l})[w := [l] + s.kids[l] + s.kids[w]])
  }

  /** The smaller set is absorbed. */
  function Unite(s: Sets, x: nat, y: nat): Sets {
    if x !in s.root || y !in s.root || s.root[x] !in s.kids || s.root[y] !in s.kids then s
    else
      var r, q := s.root[x], s.root[y];
      if r == q then s else if |s.kids[r]| >= |s.kids[q]| then Absorb(s, r, q) else Absorb(s, q, r)
  }

  /** What the list of a representative holds. */
  ghost predicate KidsOk(s: Sets, r: nat)
    requires r in s.kids
  {
    && r in s.root && s.root[r] == r && NoTwice(s.kids[r])
    && forall z: nat :: z in s.kids[r] <==> z != r && z in s.root && s.root[z] == r
  }

  predicate RootOk(s: Sets, z: nat)
    requires z in s.root
  {
    s.root[z] in s.kids
  }

  ghost predicate Inv(s: Sets) {
    && (forall r: nat {:trigger KidsOk(s, r)} :: r in s.kids ==> KidsOk(s, r))
    && (forall z: nat {:trigger RootOk(s, z)} :: z in s.root ==> RootOk(s, z))
  }

  function Apply(s: Sets, op: Op): Sets {
    match op case MakeSet(x) => Make(s, x) case Union(x, y) => Unite(s, x, y)
  }

  function Run(s: Sets, ops: seq<Op>): Sets
    decreases |ops|
  {
    if ops == [] then s else Apply(Run(s, ops[..|ops| - 1]), ops[|ops| - 1])
  }

  lemma MakeInv(s: Sets, x: nat)
    requires Inv(s)
    ensures Inv(Make(s, x))
  {
    var t := Make(s, x);
    if x !in s.root {
      assert x in s.kids ==> KidsOk(s, x);
      forall z: nat | z in t.root ensures RootOk(t, z) { assert z != x ==> RootOk(s, z); }
      forall r: nat | r in t.kids ensures KidsOk(t, r) {
        if r != x { assert KidsOk(s, r); }
        assert forall z: nat :: z in s.root ==> RootOk(s, z);
      }
    }
  }

  lemma AbsorbInv(s: Sets, w: nat, l: nat)
    requires Inv(s) && w in s.kids && l in s.kids && w != l && |s.kids[w]| >= |s.kids[l]|
    ensures Inv(Absorb(s, w, l))
  {
    var t := Absorb(s, w, l);
    assert KidsOk(s, w) && KidsOk(s, l);
    forall z: nat | z in t.root ensures RootOk(t, z) { assert RootOk(s, z); }
    forall r: nat | r in t.kids ensures KidsOk(t, r) {
      assert KidsOk(s, r);
      if r == w { AbsorbKids(s, w, l); }
    }
  }

  lemma AbsorbKids(s: Sets, w: nat, l: nat)
    requires Inv(s) && w in s.kids && l in s.kids && w != l
    ensures KidsOk(Absorb(s, w, l), w)
  {
    assert KidsOk(s, w) && KidsOk(s, l);
    var t, a, b := Absorb(s, w, l), s.kids[l], s.kids[w];
    var k := [l] + a + b;
    forall z: nat ensures z in k <==> z == l || z in a || z in b {}
    forall i: nat, j: nat | i < j < |k| ensures k[i] != k[j] {
      assert k[i] == (if i == 0 then l else if i <= |a| then a[i - 1] else b[i - 1 - |a|]);
      assert k[j] == (if j <= |a| then a[j - 1] else b[j - 1 - |a|]);
      assert i > 0 && i <= |a| ==> a[i - 1] in a;
      assert j <= |a| ==> a[j - 1] in a;
      assert j > |a| ==> b[j - 1 - |a|] in b;
    }
  }

  lemma UniteInv(s: Sets, x: nat, y: nat)
    requires Inv(s)
    ensures Inv(Unite(s, x, y))
  {
    if x in s.root && y in s.root {
      assert RootOk(s, x) && RootOk(s, y);
      var r, q := s.root[x], s.root[y];
      if r != q { if |s.kids[r]| >= |s.kids[q]| { AbsorbInv(s, r, q); } else { AbsorbInv(s, q, r); } }
    }
  }

  lemma {:induction false} RunInv(s: Sets, ops: seq<Op>)
    requires Inv(s)
    ensures Inv(Run(s, ops))
    decreases |ops|
  {
    if ops != [] {
      var before := ops[..|ops| - 1];
      RunInv(s, before);
      match ops[|ops| - 1]
      case MakeSet(x) => MakeInv(Run(s, before), x);
      case Union(x, y) => UniteInv(Run(s, before), x, y);
    }
  }

  // ---- the equivalence closure of the unions --------------------------------------------------------

  predicate Step(pairs: seq<(nat, nat)>, a: nat, b: nat) { (a, b) in pairs || (b, a) in pairs }

  predicate StepAt(pairs: seq<(nat, nat)>, p: seq<nat>, i: nat) { i + 1 < |p| ==> Step(pairs, p[i], p[i + 1]) }

  predicate Path(pairs: seq<(nat, nat)>, p: seq<nat>) { forall i: nat :: i < |p| ==> StepAt(pairs, p, i) }

  /** `a` and `b` are related by the least equivalence that relates the two items of each pair. */
  ghost predicate Related(pairs: seq<(nat, nat)>, a: nat, b: nat) {
    exists p: seq<nat> :: p != [] && p[0] == a && p[|p| - 1] == b && Path(pairs, p)
  }

  lemma RelatedRefl(pairs: seq<(nat, nat)>, a: nat)
    ensures Related(pairs, a, a)
  {
    assert Path(pairs, [a]) && [a][0] == a;
  }

  lemma TailPath(pairs: seq<(nat, nat)>, p: seq<nat>)
    requires |p| > 1 && Path(pairs, p)
    ensures Path(pairs, p[1..]) && Step(pairs, p[0], p[1])
  {
    forall i: nat | i < |p[1..]| ensures StepAt(pairs, p[1..], i) { assert StepAt(pairs, p, i + 1); }
    assert StepAt(pairs, p, 0);
  }

  lemma {:induction false} Reversed(pairs: seq<(nat, nat)>, p: seq<nat>) returns (q: seq<nat>)
    requires p != [] && Path(pairs, p)
    ensures q != [] && q[0] == p[|p| - 1] && q[|q| - 1] == p[0] && Path(pairs, q)
    decreases |p|
  {
    if |p| == 1 { q := p; } else {
      TailPath(pairs, p);
      var t := Reversed(pairs, p[1..]);
      q := t + [p[0]];
      assert StepAt(pairs, p, 0);
      forall i: nat | i < |q| ensures StepAt(pairs, q, i) { assert i < |t| ==> StepAt(pairs, t, i); }
    }
  }

  lemma RelatedSym(pairs: seq<(nat, nat)>, a: nat, b: nat)
    requires Related(pairs, a, b)
    ensures Related(pairs, b, a)
  {
    var p: seq<nat> :| p != [] && p[0] == a && p[|p| - 1] == b && Path(pairs, p);
    var q := Reversed(pairs, p);
  }

  lemma RelatedTrans(pairs: seq<(nat, nat)>, a: nat, b: nat, c: nat)
    requires Related(pairs, a, b) && Related(pairs, b, c)
    ensures Related(pairs, a, c)
  {
    var p: seq<nat> :| p != [] && p[0] == a && p[|p| - 1] == b && Path(pairs, p);
    var q: seq<nat> :| q != [] && q[0] == b && q[|q| - 1] == c && Path(pairs, q);
    var t := p + q[1..];
    forall i: nat | i < |t| ensures StepAt(pairs, t, i) {
      if i + 1 < |p| { assert StepAt(pairs, p, i); } else { assert StepAt(pairs, q, i + 1 - |p|); }
    }
    assert t[|t| - 1] == c;
  }

  lemma RelatedMore(pairs: seq<(nat, nat)>, more: seq<(nat, nat)>, a: nat, b: nat)
    requires Related(pairs, a, b)
    ensures Related(pairs + more, a, b)
  {
    var p: seq<nat> :| p != [] && p[0] == a && p[|p| - 1] == b && Path(pairs, p);
    forall i: nat | i < |p| ensures StepAt(pairs + more, p, i) { assert StepAt(pairs, p, i); }
    assert Path(pairs + more, p);
  }

  // ---- what the operations ask for -------------------------------------------------------------------

  /** The items made so far. */
  function Items(ops: seq<Op>): set<nat> {
    if ops == [] then {}
    else
      var before := Items(ops[..|ops| - 1]);
      match ops[|ops| - 1] case MakeSet(x) => before + {x} case Union(_, _) => before
  }

  /** The unions of two items that had been made by then. */
  function Pairs(ops: seq<Op>): seq<(nat, nat)> {
    if ops == [] then []
    else
      var before := ops[..|ops| - 1];
      match ops[|ops| - 1]
      case MakeSet(_) => Pairs(before)
      case Union(x, y) => if x in Items(before) && y in Items(before) then Pairs(before) + [(x, y)] else Pairs(before)
  }

  predicate Together(s: Sets, a: nat, b: nat) { a in s.root && b in s.root && s.root[a] == s.root[b] }

  /** Items of one set are related, and the two items of a pair are in one set. */
  ghost predicate Means(s: Sets, pairs: seq<(nat, nat)>) {
    && (forall a: nat, b: nat {:trigger Together(s, a, b)} :: Together(s, a, b) ==> Related(pairs, a, b))
    && (forall i: nat :: i < |pairs| ==> Together(s, pairs[i].0, pairs[i].1))
  }

  lemma MakeMeans(s: Sets, x: nat, pairs: seq<(nat, nat)>)
    requires Inv(s) && Means(s, pairs)
    ensures Means(Make(s, x), pairs)
  {
    var t := Make(s, x);
    forall a: nat, b: nat | Together(t, a, b) ensures Related(pairs, a, b) {
      if a in s.root { assert RootOk(s, a) && KidsOk(s, s.root[a]); }
      if b in s.root { assert RootOk(s, b) && KidsOk(s, s.root[b]); }
      RelatedRefl(pairs, a);
      assert a in s.root && b in s.root ==> Together(s, a, b);
    }
    forall i: nat | i < |pairs| ensures Together(t, pairs[i].0, pairs[i].1) {
      assert Together(s, pairs[i].0, pairs[i].1);
    }
  }

  /** `a` is in the set of `x` or in that of `y`. */
  predicate Joined(s: Sets, x: nat, y: nat, a: nat) { Together(s, a, x) || Together(s, a, y) }

  /** Uniting two sets puts together exactly what was together, and the two sets. */
  lemma UniteTogether(s: Sets, x: nat, y: nat, a: nat, b: nat)
    requires Inv(s) && x in s.root && y in s.root
    ensures Together(Unite(s, x, y), a, b) <==> Together(s, a, b) || (Joined(s, x, y, a) && Joined(s, x, y, b))
  {
    assert RootOk(s, x) && RootOk(s, y);
    assert KidsOk(s, s.root[x]) && KidsOk(s, s.root[y]);
  }

  lemma UniteMeans(s: Sets, x: nat, y: nat, pairs: seq<(nat, nat)>)
    requires Inv(s) && Means(s, pairs) && x in s.root && y in s.root
    ensures Means(Unite(s, x, y), pairs + [(x, y)])
  {
    var t, all := Unite(s, x, y), pairs + [(x, y)];
    forall a: nat, b: nat | Together(t, a, b) ensures Related(all, a, b) {
      UniteTogether(s, x, y, a, b);
      UniteRelates(s, x, y, a, b, pairs);
    }
    forall i: nat | i < |all| ensures Together(t, all[i].0, all[i].1) {
      if i < |pairs| { assert Together(s, pairs[i].0, pairs[i].1); }
      UniteTogether(s, x, y, all[i].0, all[i].1);
    }
  }

  lemma UniteRelates(s: Sets, x: nat, y: nat, a: nat, b: nat, pairs: seq<(nat, nat)>)
    requires Inv(s) && Means(s, pairs)
    requires Together(s, a, b) || (Joined(s, x, y, a) && Joined(s, x, y, b))
    ensures Related(pairs + [(x, y)], a, b)
  {
    var more := [(x, y)];
    var all := pairs + more;
    if Together(s, a, b) {
      RelatedMore(pairs, more, a, b);
    } else {
      var u, v := if Together(s, a, x) then x else y, if Together(s, b, x) then x else y;
      assert Together(s, a, u) && Together(s, v, b);
      RelatedMore(pairs, more, a, u);
      RelatedMore(pairs, more, v, b);
      assert all[|pairs|] == (x, y);
      assert Path(all, [u, v]) && [u, v][0] == u;
      RelatedTrans(all, a, u, v);
      RelatedTrans(all, a, v, b);
    }
  }

  lemma {:induction false} RunMeans(ops: seq<Op>)
    ensures Inv(Run(EMPTY, ops)) && Run(EMPTY, ops).root.Keys == Items(ops) && Means(Run(EMPTY, ops), Pairs(ops))
    decreases |ops|
  {
    RunInv(EMPTY, ops);
    if ops != [] {
      var before := ops[..|ops| - 1];
      var s := Run(EMPTY, before);
      RunMeans(before);
      match ops[|ops| - 1]
      case MakeSet(x) => MakeMeans(s, x, Pairs(before));
      case Union(x, y) =>
        if x in s.root && y in s.root {
          UniteMeans(s, x, y, Pairs(before));
          UniteKeys(s, x, y);
        }
    }
  }

  lemma UniteKeys(s: Sets, x: nat, y: nat)
    ensures Unite(s, x, y).root.Keys == s.root.Keys
  {
  }

  /** Along a path, items stay together. */
  lemma {:induction false} PathTogether(s: Sets, pairs: seq<(nat, nat)>, p: seq<nat>)
    requires Means(s, pairs) && p != [] && p[0] in s.root && Path(pairs, p)
    ensures Together(s, p[0], p[|p| - 1])
    decreases |p|
  {
    if |p| > 1 {
      TailPath(pairs, p);
      var i: nat :| i < |pairs| && (pairs[i] == (p[0], p[1]) || pairs[i] == (p[1], p[0]));
      assert Together(s, pairs[i].0, pairs[i].1);
      PathTogether(s, pairs, p[1..]);
    }
  }

  /** After any run, the items that have a representative are those that were made, a representative represents
      itself, and two items have the same one exactly if the equivalence closure of the unions relates them. */
  lemma FindMeansRelated(ops: seq<Op>, a: nat, b: nat)
    requires a in Items(ops) && b in Items(ops)
    ensures var root := Run(EMPTY, ops).root;
            && root.Keys == Items(ops)
            && root[a] in Items(ops) && root[root[a]] == root[a]
            && (root[a] == root[b] <==> Related(Pairs(ops), a, b))
  {
    var s, pairs := Run(EMPTY, ops), Pairs(ops);
    RunMeans(ops);
    assert RootOk(s, a) && KidsOk(s, s.root[a]);
    if s.root[a] == s.root[b] { assert Together(s, a, b); }
    if Related(pairs, a, b) {
      var p: seq<nat> :| p != [] && p[0] == a && p[|p| - 1] == b && Path(pairs, p);
      PathTogether(s, pairs, p);
    }
  }

  // ---- how often an item moves ------------------------------------------------------------------------

  function Pow2(n: nat): nat { if n == 0 then 1 else 2 * Pow2(n - 1) }

  /** How many operations gave `x` another representative. */
  function Changes(ops: seq<Op>, x: nat): nat {
    if ops == [] then 0
    else
      var before := ops[..|ops| - 1];
      var s, t := Run(EMPTY, before), Run(EMPTY, ops);
      Changes(before, x) + if x in s.root && x in t.root && s.root[x] != t.root[x] then 1 else 0
  }

  /** An item that has moved `n` times is in a set of at least 2^n items. */
  predicate Heavy(s: Sets, x: nat, n: nat) {
    x in s.root && s.root[x] in s.kids && Pow2(n) <= |s.kids[s.root[x]]| + 1
  }

  /** An item that moves is in a set that is at least twice as large afterwards. */
  lemma UniteHeavy(s: Sets, x: nat, y: nat, z: nat, n: nat, t: Sets)
    requires Inv(s) && t == Unite(s, x, y) && Heavy(s, z, n)
    ensures z in t.root && Heavy(t, z, n + if s.root[z] != t.root[z] then 1 else 0)
  {
    if x in s.root && y in s.root {
      assert RootOk(s, x) && RootOk(s, y);
      assert KidsOk(s, s.root[x]) && KidsOk(s, s.root[y]);
    }
  }

  lemma {:induction false} RunHeavy(ops: seq<Op>, z: nat)
    requires z in Items(ops)
    ensures Heavy(Run(EMPTY, ops), z, Changes(ops, z))
    decreases |ops|
  {
    var before := ops[..|ops| - 1];
    var s := Run(EMPTY, before);
    RunMeans(before);
    if z in Items(before) {
      RunHeavy(before, z);
      match ops[|ops| - 1]
      case MakeSet(x) => MakeHeavy(s, x, z, Changes(before, z));
      case Union(x, y) => UniteHeavy(s, x, y, z, Changes(before, z), Run(EMPTY, ops));
    } else {
      NeverMoved(before, z);
    }
  }

  lemma MakeHeavy(s: Sets, x: nat, z: nat, n: nat)
    requires Inv(s) && Heavy(s, z, n)
    ensures Heavy(Make(s, x), z, n) && Make(s, x).root[z] == s.root[z]
  {
    if x !in s.root { assert x in s.kids ==> KidsOk(s, x); }
  }

  lemma {:induction false} NeverMoved(ops: seq<Op>, z: nat)
    requires z !in Items(ops)
    ensures Changes(ops, z) == 0
    decreases |ops|
  {
    if ops != [] {
      RunMeans(ops);
      NeverMoved(ops[..|ops| - 1], z);
    }
  }

  /** With `n` items in all, the representative of an item is changed at most log2(n) times. */
  lemma FewMoves(ops: seq<Op>, n: nat, x: nat)
    requires x in Items(ops) && forall z: nat :: z in Items(ops) ==> z < n
    ensures Pow2(Changes(ops, x)) <= n
  {
    var s := Run(EMPTY, ops);
    RunMeans(ops);
    RunHeavy(ops, x);
    var r := s.root[x];
    assert KidsOk(s, r);
    var all := [r] + s.kids[r];
    forall i: nat, j: nat | i < j < |all| ensures all[i] != all[j] { assert s.kids[r][j - 1] in s.kids[r]; }
    forall z: nat | z in all ensures z < n { assert z == r || z in s.kids[r]; }
    DistinctFit(all, n);
  }

  // ---- the array ----------------------------------------------------------------------------------------

  function LinkTo(l: seq<nat>, k: nat): nat { if k < |l| then l[k] else BAD }

  /** Item `z`, a member of the set of `r` or `r` itself, is as it should be. */
  predicate ItemOk(a: seq<Item>, s: Sets, z: nat)
    requires z in s.root
  {
    z < |a| && a[z].parent == s.root[z]
  }

  predicate HeadOk(a: seq<Item>, s: Sets, r: nat)
    requires r in s.kids
  {
    r < |a| && a[r].child == LinkTo(s.kids[r], 0) && a[r].link == |s.kids[r]|
  }

  predicate LinkOk(a: seq<Item>, s: Sets, r: nat, j: nat)
    requires r in s.kids && j < |s.kids[r]|
  {
    s.kids[r][j] < |a| && a[s.kids[r][j]].child == BAD && a[s.kids[r][j]].link == LinkTo(s.kids[r], j + 1)
  }

  ghost predicate Rep(a: seq<Item>, s: Sets) {
    && |a| < BAD
    && (forall z: nat {:trigger ItemOk(a, s, z)} :: z in s.root ==> ItemOk(a, s, z))
    && (forall z: nat :: z < |a| && z !in s.root ==> a[z].parent == BAD)
    && (forall r: nat {:trigger HeadOk(a, s, r)} :: r in s.kids ==> HeadOk(a, s, r))
    && (forall r: nat, j: nat {:trigger LinkOk(a, s, r, j)} :: r in s.kids && j < |s.kids[r]| ==> LinkOk(a, s, r, j))
  }

  lemma MakeTogether(s: Sets, x: nat)
    requires Inv(s)
    ensures forall a: nat, b: nat :: Together(Make(s, x), a, b) <==> Together(s, a, b) || (a == x && b == x)
  {
    forall a: nat, b: nat ensures Together(Make(s, x), a, b) <==> Together(s, a, b) || (a == x && b == x) {
      if a in s.root { assert RootOk(s, a) && KidsOk(s, s.root[a]); }
      if b in s.root { assert RootOk(s, b) && KidsOk(s, s.root[b]); }
    }
  }

  /** What a union of two items means: which items are together, and which of the two representatives stays. */
  ghost predicate Unites(s: Sets, x: nat, y: nat, t: Sets, r: nat) {
    && Together(t, x, y) && t.root[x] == r && t.root.Keys == s.root.Keys
    && (forall a: nat, b: nat :: Together(t, a, b) <==>
          Together(s, a, b) || (Joined(s, x, y, a) && Joined(s, x, y, b)))
    && (forall a: nat :: a in s.root && !Joined(s, x, y, a) ==> t.root[a] == s.root[a])
    && x in s.root && y in s.root && s.root[x] in s.kids && s.root[y] in s.kids
    && r == if |s.kids[s.root[x]]| >= |s.kids[s.root[y]]| then s.root[x] else s.root[y]
  }

  lemma UniteIs(s: Sets, x: nat, y: nat)
    requires Inv(s)
    ensures var t := Unite(s, x, y);
            if x in s.root && y in s.root then Unites(s, x, y, t, t.root[x]) else t == s
  {
    if x in s.root && y in s.root {
      var t := Unite(s, x, y);
      assert RootOk(s, x) && RootOk(s, y);
      assert KidsOk(s, s.root[x]) && KidsOk(s, s.root[y]);
      forall a: nat, b: nat
        ensures Together(t, a, b) <==> Together(s, a, b) || (Joined(s, x, y, a) && Joined(s, x, y, b))
      {
        UniteTogether(s, x, y, a, b);
      }
    }
  }

  class Finder {
    const items: array<Item>
    ghost var sets: Sets

    ghost predicate Valid()
      reads this, items
    {
      Rep(items[..], sets) && Inv(sets)
    }

    constructor (range: nat)
      requires 0 < range < BAD
      ensures Valid() && sets == EMPTY && fresh(items) && items.Length == range
    {
      items := new Item[range](_ => Item(BAD, BAD, BAD));
      sets := EMPTY;
    }

    /** The representative of `x`, or `BAD` if `x` is out of range or in no set. */
    method Find(x: nat) returns (r: nat)
      requires Valid()
      ensures r == if x in sets.root then sets.root[x] else BAD
      ensures r != BAD <==> x in sets.root
    {
      if x in sets.root {
        assert ItemOk(items[..], sets, x) && RootOk(sets, x) && HeadOk(items[..], sets, sets.root[x]);
      }
      r := if x >= items.Length then BAD else items[x].parent;
    }

    method MakeSet(x: nat)
      requires Valid() && x < items.Length
      modifies this, items
      ensures Valid() && sets == Make(old(sets), x)
      ensures sets.root == if x in old(sets).root then old(sets).root else old(sets).root[x := x]
      ensures forall a: nat, b: nat :: Together(sets, a, b) <==> Together(old(sets), a, b) || (a == x && b == x)
    {
      MakeInv(sets, x);
      MakeTogether(sets, x);
      var r := Find(x);
      if r != BAD { return; }
      ghost var a := items[..];
      items[x] := Item(x, BAD, 0);
      MakeRep(a, sets, x);
      sets := Make(sets, x);
    }

    /** Joins the sets of two items, and gives the representative, or `BAD` if either is in no set. The larger
        set keeps its representative, and that of the first item if they have one size. */
    method Union(x: nat, y: nat) returns (r: nat)
      requires Valid()
      modifies this, items
      ensures Valid() && sets == Unite(old(sets), x, y)
      ensures r == if x in old(sets).root && y in old(sets).root then sets.root[x] else BAD
      ensures r == BAD ==> sets == old(sets) && items[..] == old(items[..])
      ensures r != BAD ==> Unites(old(sets), x, y, sets, r)
    {
      UniteInv(sets, x, y);
      UniteIs(sets, x, y);
      var r1 := Find(x);
      var r2 := Find(y);
      if r1 == BAD || r2 == BAD { return BAD; }
      UnionReads(items[..], sets, x, y);
      r := r1;
      ghost var s := sets;
      if r1 != r2 {
        if items[r1].link >= items[r2].link { AbsorbItems(r1, r2); } else { AbsorbItems(r2, r1); r := r2; }
      }
      assert sets == Unite(s, x, y);
    }

    /** Relabels the set of `l` and splices it into the list of `w`. */
    method AbsorbItems(w: nat, l: nat)
      requires Valid() && w in sets.kids && l in sets.kids && w != l && |sets.kids[w]| >= |sets.kids[l]|
      modifies items, this`sets
      ensures Valid() && sets == Absorb(old(sets), w, l)
    {
      ghost var a, s := items[..], sets;
      ghost var kids := s.kids[l];
      AbsorbInv(s, w, l);
      assert HeadOk(a, s, w) && HeadOk(a, s, l);
      var tail := items[w].child;
      items[w] := Item(items[w].parent, l, items[w].link + items[l].link + 1);
      var last, cur := l, items[l].child;
      items[l] := Item(w, BAD, items[l].child);
      ghost var j := 0;
      StartRelabel(a, s, w, l, items[..]);
      while cur != BAD
        invariant j <= |kids| && cur == LinkTo(kids, j) && last == if j == 0 then l else kids[j - 1]
        invariant Relabelled(a, items[..], w, l, kids, s.kids[w], j)
        decreases |kids| - j
      {
        RelabelNext(a, s, w, l, items[..], j);
        items[cur] := items[cur].(parent := w);
        last, cur, j := cur, items[cur].link, j + 1;
      }
      EndRelabel(a, s, w, l, items[..], j);
      ghost var b := items[..];
      items[last] := items[last].(link := tail);
      AbsorbRep(a, s, w, l, b, items[..], last);
      sets := Absorb(s, w, l);
    }
  }

  lemma MakeRep(a: seq<Item>, s: Sets, x: nat)
    requires Rep(a, s) && Inv(s) && x < |a| && x !in s.root
    ensures Rep(a[x := Item(x, BAD, 0)], Make(s, x))
  {
    var b, t := a[x := Item(x, BAD, 0)], Make(s, x);
    forall z: nat | z in t.root ensures ItemOk(b, t, z) { assert z != x ==> ItemOk(a, s, z); }
    forall r: nat | r in t.kids ensures HeadOk(b, t, r) { if r != x { assert HeadOk(a, s, r) && KidsOk(s, r); } }
    forall r: nat, j: nat | r in t.kids && j < |t.kids[r]| ensures LinkOk(b, t, r, j) {
      assert LinkOk(a, s, r, j) && KidsOk(s, r) && s.kids[r][j] in s.kids[r];
    }
  }

  lemma UnionReads(a: seq<Item>, s: Sets, x: nat, y: nat)
    requires Rep(a, s) && Inv(s) && x in s.root && y in s.root
    ensures var r, q := s.root[x], s.root[y];
            && r in s.kids && q in s.kids && r < |a| && q < |a|
            && a[r].link == |s.kids[r]| && a[q].link == |s.kids[q]|
  {
    var r, q := s.root[x], s.root[y];
    assert RootOk(s, x) && RootOk(s, y);
    assert KidsOk(s, r) && KidsOk(s, q) && HeadOk(a, s, r) && HeadOk(a, s, q);
  }

  /** The array once the first `j` members of the absorbed set have been relabelled. */
  predicate Relabelled(a: seq<Item>, b: seq<Item>, w: nat, l: nat, kids: seq<nat>, others: seq<nat>, j: nat)
    requires j <= |kids|
  {
    && |b| == |a| && w < |a| && l < |a|
    && b[w] == Item(a[w].parent, l, |others| + |kids| + 1)
    && b[l] == Item(w, BAD, LinkTo(kids, 0))
    && forall z: nat {:trigger b[z]} :: z < |a| && z != w && z != l ==> b[z] == if z in kids[..j]
        then a[z].(parent := w) else a[z]
  }

  lemma StartRelabel(a: seq<Item>, s: Sets, w: nat, l: nat, b: seq<Item>)
    requires Rep(a, s) && Inv(s) && w in s.kids && l in s.kids && w != l && w < |a| && l < |a|
    requires b == a[w := Item(a[w].parent, l, a[w].link + a[l].link + 1)][l := Item(w, BAD, a[l].child)]
    ensures Relabelled(a, b, w, l, s.kids[l], s.kids[w], 0) && a[l].child == LinkTo(s.kids[l], 0)
  {
    assert HeadOk(a, s, w) && HeadOk(a, s, l) && s.kids[l][..0] == [];
  }

  /** The member at position `j` is in the array, is neither of the two representatives, and is not relabelled yet. */
  lemma RelabelNext(a: seq<Item>, s: Sets, w: nat, l: nat, b: seq<Item>, j: nat)
    requires Rep(a, s) && Inv(s) && w in s.kids && l in s.kids && w != l && j <= |s.kids[l]|
    requires Relabelled(a, b, w, l, s.kids[l], s.kids[w], j) && LinkTo(s.kids[l], j) != BAD
    ensures j < |s.kids[l]|
    ensures var c := s.kids[l][j];
            && c < |b| && b[c].link == LinkTo(s.kids[l], j + 1)
            && Relabelled(a, b[c := b[c].(parent := w)], w, l, s.kids[l], s.kids[w], j + 1)
  {
    var kids := s.kids[l];
    var c := kids[j];
    assert LinkOk(a, s, l, j) && KidsOk(s, l) && KidsOk(s, w) && c in kids;
    assert kids[..j + 1] == kids[..j] + [c];
    assert forall i: nat :: i < j ==> kids[..j][i] == kids[i] && kids[i] != c;
    assert b[c] == a[c];
  }

  lemma EndRelabel(a: seq<Item>, s: Sets, w: nat, l: nat, b: seq<Item>, j: nat)
    requires Rep(a, s) && Inv(s) && w in s.kids && l in s.kids && w != l && j <= |s.kids[l]|
        && LinkTo(s.kids[l], j) == BAD
    requires Relabelled(a, b, w, l, s.kids[l], s.kids[w], j)
    ensures j == |s.kids[l]|
    ensures (if j == 0 then l else s.kids[l][j - 1]) < |b|
  {
    assert j < |s.kids[l]| ==> LinkOk(a, s, l, j);
    if j > 0 { assert LinkOk(a, s, l, j - 1); }
  }

  /** `b` is the array with all members of `l` relabelled, and `c` with the lists spliced as well. */
  ghost predicate Spliced(a: seq<Item>, s: Sets, w: nat, l: nat, b: seq<Item>, c: seq<Item>, last: nat) {
    && Rep(a, s) && Inv(s) && w in s.kids && l in s.kids && w != l && w < |a| && l < |a|
    && Relabelled(a, b, w, l, s.kids[l], s.kids[w], |s.kids[l]|)
    && last == (if s.kids[l] == [] then l else s.kids[l][|s.kids[l]| - 1])
    && last < |b| && c == b[last := b[last].(link := a[w].child)]
  }

  lemma AbsorbRep(a: seq<Item>, s: Sets, w: nat, l: nat, b: seq<Item>, c: seq<Item>, last: nat)
    requires Spliced(a, s, w, l, b, c, last)
    ensures Rep(c, Absorb(s, w, l))
  {
    var t := Absorb(s, w, l);
    var kids := s.kids[l];
    assert kids[..|kids|] == kids;
    assert KidsOk(s, w) && KidsOk(s, l);
    assert kids != [] ==> kids[|kids| - 1] in kids;
    forall z: nat | z in t.root ensures ItemOk(c, t, z) { assert ItemOk(a, s, z) && RootOk(s, z); }
    forall z: nat | z < |c| && z !in t.root ensures c[z].parent == BAD { assert b[z] == a[z]; }
    forall r: nat | r in t.kids ensures HeadOk(c, t, r) { assert HeadOk(a, s, r) && KidsOk(s, r); }
    forall r: nat, j: nat | r in t.kids && j < |t.kids[r]| ensures LinkOk(c, t, r, j) {
      if r == w { SplicedLink(a, s, w, l, b, c, last, j); }
      else {
        assert LinkOk(a, s, r, j) && KidsOk(s, r) && s.kids[r][j] in s.kids[r];
      }
    }
  }

  lemma SplicedLink(a: seq<Item>, s: Sets, w: nat, l: nat, b: seq<Item>, c: seq<Item>, last: nat, j: nat)
    requires Spliced(a, s, w, l, b, c, last) && j < |Absorb(s, w, l).kids[w]|
    ensures LinkOk(c, Absorb(s, w, l), w, j)
  {
    var kids, others := s.kids[l], s.kids[w];
    var k := [l] + kids + others;
    assert kids[..|kids|] == kids && KidsOk(s, w) && KidsOk(s, l);
    assert HeadOk(a, s, w) && HeadOk(a, s, l);
    assert kids != [] ==> kids[|kids| - 1] in kids;
    if j == 0 {
      assert LinkTo(k, 1) == if kids != [] then kids[0] else LinkTo(others, 0);
    } else if j <= |kids| {
      var z := kids[j - 1];
      assert z in kids && k[j] == z && LinkOk(a, s, l, j - 1);
      assert LinkTo(k, j + 1) == if j < |kids| then kids[j] else LinkTo(others, 0);
      assert b[z] == a[z].(parent := w);
    } else {
      var i := j - 1 - |kids|;
      var z := others[i];
      assert z in others && k[j] == z && LinkOk(a, s, w, i);
      assert LinkTo(k, j + 1) == LinkTo(others, i + 1);
      assert b[z] == a[z] && z != last;
    }
  }
}
