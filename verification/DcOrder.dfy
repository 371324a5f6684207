/** New constraints run in preorder of the creation tree, before anything that is already scheduled. */
module DcOrder {
  import opened DcState
  import opened DcInv
  import opened DcLog
  import opened DcTurn
  import opened DcTheorems
  import opened DcLifecycle

  /** A constraint and the constraints created by its first execution, in creation order. */
  datatype Tree = Tree(k: nat, kids: seq<Tree>)

  /** A constraint taken from the list of new constraints, and those its execution created. */
  datatype Entry = Entry(k: nat, kids: seq<nat>)

  function Roots(f: seq<Tree>): (r: seq<nat>)
    ensures |r| == |f|
  {
    if f == [] then [] else [f[0].k] + Roots(f[1..])
  }

  function Preorder(f: seq<Tree>): seq<Entry> {
    if f == [] then [] else [Entry(f[0].k, Roots(f[0].kids))] + Preorder(f[0].kids) + Preorder(f[1..])
  }

  lemma {:induction false} RootsAppend(f: seq<Tree>, g: seq<Tree>)
    ensures Roots(f + g) == Roots(f) + Roots(g)
  {
    if f == [] {
      assert f + g == g;
    } else {
      assert (f + g)[1..] == f[1..] + g;
      RootsAppend(f[1..], g);
    }
  }

  lemma {:induction false} PreorderAppend(f: seq<Tree>, g: seq<Tree>)
    ensures Preorder(f + g) == Preorder(f) + Preorder(g)
  {
    if f == [] {
      assert f + g == g;
    } else {
      assert (f + g)[1..] == f[1..] + g;
      PreorderAppend(f[1..], g);
    }
  }

  /** `log` takes the constraints of `stack` one by one from the front, replacing each by those it
      creates, until `n` are left; before that there are always more. */
  predicate Drains(stack: seq<nat>, log: seq<Entry>, n: nat)
    decreases |log|
  {
    if log == [] then |stack| == n
    else |stack| > n && stack[0] == log[0].k && Drains(log[0].kids + stack[1..], log[1..], n)
  }

  function After(stack: seq<nat>, log: seq<Entry>): seq<nat>
    decreases |log|
  {
    if log == [] || stack == [] then stack else After(log[0].kids + stack[1..], log[1..])
  }

  /** Such a log is the preorder of a creation forest, and what lies below is not touched. */
  lemma {:induction false} DrainIsPreorder(top: seq<nat>, rest: seq<nat>, log: seq<Entry>) returns (f: seq<Tree>)
    requires Drains(top + rest, log, |rest|)
    ensures Roots(f) == top && Preorder(f) == log && After(top + rest, log) == rest
    decreases |log|
  {
    if log == [] {
      f := [];
    } else {
      var kids := log[0].kids;
      assert top + rest == [top[0]] + (top[1..] + rest);
      assert kids + (top + rest)[1..] == (kids + top[1..]) + rest;
      var f' := DrainIsPreorder(kids + top[1..], rest, log[1..]);
      var mine, others := f'[..|kids|], f'[|kids|..];
      assert f' == mine + others;
      RootsAppend(mine, others);
      PreorderAppend(mine, others);
      assert Roots(mine) == (kids + top[1..])[..|kids|] == kids;
      assert Roots(others) == (kids + top[1..])[|kids|..] == top[1..];
      f := [Tree(top[0], mine)] + others;
      assert f[1..] == others;
      assert log == [log[0]] + log[1..];
    }
  }

  /** The run takes new constraints only, until `n` of them are left. */
  ghost predicate Stays(s: State, ops: seq<Op>, n: nat)
    decreases |ops|
  {
    if ops == [] then s.pc == Loop && |s.initList| == n
    else (s.pc == Body || (s.pc == Loop && |s.initList| > n)) && Stays(Apply(s, ops[0]), ops[1..], n)
  }

  /** The new constraint an operation disposes of: by ending its execution, or, if it was deleted in the
      meantime, by freeing it. */
  function TakenBy(s: State, op: Op): seq<Entry> {
    if s.pc == Loop && op.Turn? && s.initList != [] && Apply(s, op).pc == Loop then [Entry(s.initList[0], [])]
    else if s.pc == Body && op.EndBody? && s.curr.Some? then [Entry(s.curr.value, s.tempList)]
    else []
  }

  function Taken(s: State, ops: seq<Op>): seq<Entry>
    decreases |ops|
  {
    if ops == [] then [] else TakenBy(s, ops[0]) + Taken(Apply(s, ops[0]), ops[1..])
  }

  /** The new constraints still to finish: the running one comes first. */
  function Pending(s: State): seq<nat> {
    if s.pc == Body && s.curr.Some? then [s.curr.value] + s.initList else s.initList
  }

  lemma BodyKeepsPending(s: State, op: Op)
    requires s.pc == Body && s.curr.Some? && s.atomic == 1 && !op.EndBody?
    ensures Apply(s, op).pc == Body && Pending(Apply(s, op)) == Pending(s)
  {
    if Enabled(s, op) {
      match op
      case Read(a) => assert ReadOp(s, a).initList == s.initList;
      case _ =>
    }
  }

  lemma LeavePending(s: State)
    requires Good(s) && s.pc == Body
    ensures Pending(Leave(s)) == s.tempList + s.initList && Leave(s).pc == Loop
  {
    LeaveFlushes(s);
  }

  lemma TurnPending(s: State, item: Item, k: nat)
    requires Good(s) && s.pc == Loop && s.initList != []
    ensures var s' := DispatchTurn(s, item, k);
            && (s'.pc == Body ==> Pending(s') == Pending(s))
            && (s'.pc == Loop ==> Pending(s') == s.initList[1..])
            && (s'.pc == Body || s'.pc == Loop || s'.pc == Halted)
  {
    RunNewInv(s);
  }

  lemma StepPending(s: State, op: Op)
    requires Good(s) && (s.pc == Body || (s.pc == Loop && s.initList != []))
    ensures var s' := Apply(s, op);
            var t := TakenBy(s, op);
            && (s'.pc == Body || s'.pc == Loop || s'.pc == Halted)
            && (s'.pc != Halted && t == [] ==> Pending(s') == Pending(s))
            && (t != [] ==> |t| == 1 && Pending(s) != [] && t[0].k == Pending(s)[0]
                            && Pending(s') == t[0].kids + Pending(s)[1..] && s'.pc == Loop)
            && (s'.pc == Body && s.pc == Loop ==> t == [])
  {
    if s.pc == Body {
      if op.EndBody? { LeavePending(s); } else { BodyKeepsPending(s, op); }
    } else if op.Turn? {
      TurnPending(s, op.item, op.k);
    }
  }

  lemma {:induction false} RunDrains(s: State, ops: seq<Op>, n: nat)
    requires Good(s) && Stays(s, ops, n)
    requires if s.pc == Body then |Pending(s)| > n else |Pending(s)| >= n
    ensures Drains(Pending(s), Taken(s, ops), n) && After(Pending(s), Taken(s, ops)) == Pending(Run(s, ops))
    decreases |ops|
  {
    if ops != [] {
      var s' := Apply(s, ops[0]);
      ApplyInv(s, ops[0]);
      StepPending(s, ops[0]);
      assert s'.pc == Body || s'.pc == Loop;
      RunDrains(s', ops[1..], n);
      DrainsOneMore(Pending(s), Pending(s'), TakenBy(s, ops[0]), Taken(s', ops[1..]), n);
    }
  }

  lemma DrainsOneMore(p: seq<nat>, p': seq<nat>, t: seq<Entry>, log: seq<Entry>, n: nat)
    requires t == [] ==> p' == p
    requires t != [] ==> |t| == 1 && |p| > n && t[0].k == p[0] && p' == t[0].kids + p[1..]
    requires Drains(p', log, n)
    ensures Drains(p, t + log, n) && After(p, t + log) == After(p', log)
  {
    if t == [] { assert t + log == log; } else { assert (t + log)[1..] == log; }
  }

  /** Running a new constraint leaves a queued one where it is. */
  lemma NewRunKeeps(s: State, item: Item, j: nat, k: nat)
    requires Good(s) && s.pc == Loop && s.initList != [] && k < |s.cons|
    requires s.cons[k].place == InGroup || s.cons[k].place.InTop?
    ensures var s' := DispatchTurn(s, item, j); k < |s'.cons| && s'.cons[k] == s.cons[k]
  {
    var h := s.initList[0];
    RunNewInv(s);
    assert s.initList == [h] + s.initList[1..];
    CountCons(h, s.initList[1..]);
    assert Count(s.tempList, h) + Count(s.initList, h) == AmongNew(s, None, h);
    ExecOther(s.(initList := s.initList[1..]), h, k);
  }

  /** A run that takes only new constraints leaves every queued constraint in its scheduler. */
  lemma {:induction false} StaysKeepsQueued(s: State, ops: seq<Op>, n: nat, k: nat)
    requires Good(s) && Stays(s, ops, n) && forall i: nat :: i < |ops| ==> ops[i] != Del(k)
    requires k < |s.cons| && (s.cons[k].place == InGroup || s.cons[k].place.InTop?)
    ensures k < |Run(s, ops).cons| && Run(s, ops).cons[k] == s.cons[k]
    decreases |ops|
  {
    if ops != [] {
      var s' := Apply(s, ops[0]);
      ApplyInv(s, ops[0]);
      assert s'.pc == Body || s'.pc == Loop;
      StepKeepsQueued(s, ops[0], n, k);
      forall i: nat | i < |ops[1..]| ensures ops[1..][i] != Del(k) { assert ops[1..][i] == ops[i + 1]; }
      StaysKeepsQueued(s', ops[1..], n, k);
    }
  }

  lemma StepKeepsQueued(s: State, op: Op, n: nat, k: nat)
    requires Good(s) && (s.pc == Body || (s.pc == Loop && |s.initList| > n)) && op != Del(k)
    requires k < |s.cons| && (s.cons[k].place == InGroup || s.cons[k].place.InTop?)
    ensures k < |Apply(s, op).cons| && Apply(s, op).cons[k] == s.cons[k]
  {
    if Enabled(s, op) {
      if op.Turn? { NewRunKeeps(s, op.item, op.k, k); } else { UserOther(s, op, k); }
    }
  }

  /** Execution order: from the moment the first `m` new constraints are pending until they and all
      they create are done, the constraints taken are the preorder of the creation forest whose roots
      are those `m`, and the other new constraints keep their turn. */
  lemma NewInPreorder(s: State, ops: seq<Op>, m: nat) returns (f: seq<Tree>)
    requires Reachable(s) && s.pc == Loop && m <= |s.initList|
    requires Stays(s, ops, |s.initList| - m)
    ensures Roots(f) == s.initList[..m] && Preorder(f) == Taken(s, ops)
    ensures Run(s, ops).initList == s.initList[m..]
  {
    ReachableInv(s);
    var rest := s.initList[m..];
    StaysEnds(s, ops, |rest|);
    RunDrains(s, ops, |rest|);
    assert s.initList[..m] + rest == s.initList;
    f := DrainIsPreorder(s.initList[..m], rest, Taken(s, ops));
  }

  lemma {:induction false} StaysEnds(s: State, ops: seq<Op>, n: nat)
    requires Stays(s, ops, n)
    ensures Run(s, ops).pc == Loop
    decreases |ops|
  {
    if ops != [] { StaysEnds(Apply(s, ops[0]), ops[1..], n); }
  }
}
