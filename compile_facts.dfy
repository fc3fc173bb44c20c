/** What the flattening of src/backend/builder.rs (and its copies) guarantees about
    the bodies it builds: every instruction names locals the body declares, every
    agent local has each of its slots stored exactly once, in order 1..arity, and
    each equation contributes exactly one `push_equation`, after the stores of its
    two sides.  These are the facts the VM and the generated code rely on when they
    index slots and locals. */
module CompileFacts {

  import opened Wrappers
  import opened Locals
  import opened CompileSpec
  import A = Ast

  // ---------------------------------------------------------------------------
  // Slot stores

  /** The slots stored into agent local `j`, in instruction order. */
  function StoredSlots(ops: seq<Op>, j: nat): seq<nat>
  {
    if |ops| == 0 then []
    else
      var last := ops[|ops| - 1];
      StoredSlots(ops[..|ops| - 1], j)
        + (if last.SetOp? && last.target == Agent(j) then [last.slot] else [])
  }

  /** `1, 2, ..., n`. */
  function Upto(n: nat): (s: seq<nat>)
    ensures |s| == n && forall k :: 0 <= k < n ==> s[k] == k + 1
  {
    seq(n, k requires 0 <= k < n => k + 1)
  }

  lemma {:induction false} StoredSlotsAppend(a: seq<Op>, c: seq<Op>, j: nat)
    ensures StoredSlots(a + c, j) == StoredSlots(a, j) + StoredSlots(c, j)
    decreases |c|
  {
    if |c| == 0 {
      assert a + c == a;
    } else {
      assert (a + c)[..|a + c| - 1] == a + c[..|c| - 1];
      StoredSlotsAppend(a, c[..|c| - 1], j);
    }
  }

  /** Instructions that only store into agent locals numbered `lo..hi-1`. */
  predicate FreshStores(ops: seq<Op>, lo: nat, hi: nat)
  {
    forall i :: 0 <= i < |ops| ==>
      ops[i].SetOp? && ops[i].target.Agent? && lo <= ops[i].target.index < hi
  }

  lemma {:induction false} StoredSlotsOutside(ops: seq<Op>, lo: nat, hi: nat, j: nat)
    requires FreshStores(ops, lo, hi)
    requires j < lo || hi <= j
    ensures StoredSlots(ops, j) == []
    decreases |ops|
  {
    if |ops| > 0 {
      StoredSlotsOutside(ops[..|ops| - 1], lo, hi, j);
    }
  }

  /** Three consecutive extensions of one sequence, seen from the first. */
  lemma SliceThree<T>(a: seq<T>, b: seq<T>, c: seq<T>, z: T)
    requires IsPrefix(a, b) && IsPrefix(b, c)
    ensures (c + [z])[|a|..] == b[|a|..] + c[|b|..] + [z]
  {
    assert (c + [z])[|a|..] == c[|a|..] + [z];
    assert c[|a|..] == c[|a|..|b|] + c[|b|..];
  }

  /** One more sub-term of an agent: what the earlier sub-terms added, then what the
      new sub-term adds, then the store of the new sub-term into its slot. */
  lemma ChildrenStep(b: Body, g: seq<AgentMeta>, target: nat, ts: seq<A.Term>)
    requires |ts| > 0
    ensures var fin := CompileChildren(b, g, target, ts);
      var o := CompileChildren(b, g, target, ts[..|ts| - 1]);
      var s := CompileTerm(o.body, o.agents, ts[|ts| - 1]);
      fin.result.Ok? ==>
        && o.result.Ok? && s.result.Ok?
        && fin.body.terms == s.body.terms && fin.agents == s.agents
        && IsPrefix(o.body.terms, s.body.terms) && IsPrefix(o.agents, s.agents)
        && fin.body.ops[|b.ops|..] == o.body.ops[|b.ops|..] + s.body.ops[|o.body.ops|..]
                                      + [SetOp(Agent(target), |ts|, s.result.value)]
  {
    var fin := CompileChildren(b, g, target, ts);
    if fin.result.Ok? {
      var o := CompileChildren(b, g, target, ts[..|ts| - 1]);
      var s := CompileTerm(o.body, o.agents, ts[|ts| - 1]);
      SliceThree(b.ops, o.body.ops, s.body.ops, SetOp(Agent(target), |ts|, s.result.value));
    }
  }

  lemma FreshStoresJoin(x: seq<Op>, y: seq<Op>, z: Op, lo: nat, mid: nat, hi: nat)
    requires FreshStores(x, lo, mid) && FreshStores(y, mid, hi) && lo <= mid <= hi
    requires z.SetOp? && z.target.Agent? && lo <= z.target.index < hi
    ensures FreshStores(x + y + [z], lo, hi)
  {
    var all := x + y + [z];
    forall i | 0 <= i < |all|
      ensures all[i].SetOp? && all[i].target.Agent? && lo <= all[i].target.index < hi
    {
      if i < |x| {
        assert all[i] == x[i];
      } else if i < |x| + |y| {
        assert all[i] == y[i - |x|];
      }
    }
  }

  /** The instructions a term adds are stores, into the agent locals it creates. */
  lemma {:induction false} TermStores(b: Body, g: seq<AgentMeta>, t: A.Term)
    ensures var o := CompileTerm(b, g, t);
      o.result.Ok? ==> FreshStores(o.body.ops[|b.ops|..], |b.terms|, |o.body.terms|)
    decreases t, 1
  {
    match t
    case NameTerm(_) =>
    case AgentTerm(a) =>
      var r := AddAgent(g, a.name, |a.body|);
      if r.1.Ok? {
        ChildrenStores(b.(terms := b.terms + [r.1.value]), r.0, |b.terms|, a.body);
      }
  }

  lemma {:induction false} ChildrenStores(b: Body, g: seq<AgentMeta>, target: nat, ts: seq<A.Term>)
    requires target < |b.terms|
    ensures var o := CompileChildren(b, g, target, ts);
      o.result.Ok? ==> FreshStores(o.body.ops[|b.ops|..], target, |o.body.terms|)
    decreases ts, 0
  {
    var fin := CompileChildren(b, g, target, ts);
    if |ts| > 0 && fin.result.Ok? {
      ChildrenStep(b, g, target, ts);
      var o := CompileChildren(b, g, target, ts[..|ts| - 1]);
      ChildrenStores(b, g, target, ts[..|ts| - 1]);
      var s := CompileTerm(o.body, o.agents, ts[|ts| - 1]);
      TermStores(o.body, o.agents, ts[|ts| - 1]);
      FreshStoresJoin(o.body.ops[|b.ops|..], s.body.ops[|o.body.ops|..],
                      SetOp(Agent(target), |ts|, s.result.value),
                      target, |o.body.terms|, |s.body.terms|);
    }
  }

  lemma SlotsJoin(x: seq<Op>, y: seq<Op>, target: nat, n: nat, v: Local, mid: nat, hi: nat)
    requires n > 0 && StoredSlots(x, target) == Upto(n - 1)
    requires FreshStores(y, mid, hi) && target < mid
    ensures StoredSlots(x + y + [SetOp(Agent(target), n, v)], target) == Upto(n)
  {
    var z := SetOp(Agent(target), n, v);
    StoredSlotsAppend(x + y, [z], target);
    StoredSlotsAppend(x, y, target);
    StoredSlotsOutside(y, mid, hi, target);
    assert [z][..0] == [];
    assert Upto(n - 1) + [n] == Upto(n);
  }

  /** The term's own agent has its slots stored in order `1..n`, once each. */
  lemma TermOwnSlots(b: Body, g: seq<AgentMeta>, t: A.Term)
    requires t.AgentTerm?
    ensures var o := CompileTerm(b, g, t);
      o.result.Ok? ==> StoredSlots(o.body.ops[|b.ops|..], |b.terms|) == Upto(|t.agent.body|)
  {
    var r := AddAgent(g, t.agent.name, |t.agent.body|);
    if r.1.Ok? {
      ChildrenSlots(b.(terms := b.terms + [r.1.value]), r.0, |b.terms|, t.agent.body);
    }
  }

  lemma {:induction false} ChildrenSlots(b: Body, g: seq<AgentMeta>, target: nat, ts: seq<A.Term>)
    requires target < |b.terms|
    ensures var o := CompileChildren(b, g, target, ts);
      o.result.Ok? ==> StoredSlots(o.body.ops[|b.ops|..], target) == Upto(|ts|)
    decreases |ts|
  {
    var fin := CompileChildren(b, g, target, ts);
    if |ts| > 0 && fin.result.Ok? {
      ChildrenStep(b, g, target, ts);
      var o := CompileChildren(b, g, target, ts[..|ts| - 1]);
      ChildrenSlots(b, g, target, ts[..|ts| - 1]);
      var s := CompileTerm(o.body, o.agents, ts[|ts| - 1]);
      TermStores(o.body, o.agents, ts[|ts| - 1]);
      SlotsJoin(o.body.ops[|b.ops|..], s.body.ops[|o.body.ops|..], target, |ts|, s.result.value,
                |o.body.terms|, |s.body.terms|);
    } else if |ts| == 0 {
      assert fin.body.ops[|b.ops|..] == [];
    }
  }

  /** Every agent local numbered `lo..hi-1` of `terms` has its slots stored in order
      `1..arity`, once each. */
  predicate Filled(ops: seq<Op>, terms: seq<nat>, g: seq<AgentMeta>, lo: nat, hi: nat)
    requires hi <= |terms|
  {
    forall j :: lo <= j < hi ==> terms[j] < |g| && StoredSlots(ops, j) == Upto(g[terms[j]].arity)
  }

  lemma FillsJoin(x: seq<Op>, y: seq<Op>, z: Op, t1: seq<nat>, t2: seq<nat>,
                  g1: seq<AgentMeta>, g2: seq<AgentMeta>, target: nat, lo: nat)
    requires target < lo <= |t1|
    requires IsPrefix(t1, t2) && IsPrefix(g1, g2)
    requires Filled(x, t1, g1, lo, |t1|) && Filled(y, t2, g2, |t1|, |t2|)
    requires FreshStores(x, target, |t1|) && FreshStores(y, |t1|, |t2|)
    requires z.SetOp? && z.target == Agent(target)
    ensures Filled(x + y + [z], t2, g2, lo, |t2|)
  {
    forall j | lo <= j < |t2|
      ensures t2[j] < |g2| && StoredSlots(x + y + [z], j) == Upto(g2[t2[j]].arity)
    {
      StoredSlotsAppend(x + y, [z], j);
      StoredSlotsAppend(x, y, j);
      assert [z][..0] == [];
      if j < |t1| {
        StoredSlotsOutside(y, |t1|, |t2|, j);
        assert t2[j] == t1[j];
        assert g2[t1[j]] == g1[t1[j]];
      } else {
        StoredSlotsOutside(x, target, |t1|, j);
      }
    }
  }

  /** A term fills every agent local it creates. */
  lemma {:induction false} TermFills(b: Body, g: seq<AgentMeta>, t: A.Term)
    ensures var o := CompileTerm(b, g, t);
      o.result.Ok? ==> Filled(o.body.ops[|b.ops|..], o.body.terms, o.agents, |b.terms|, |o.body.terms|)
    decreases t, 1
  {
    match t
    case NameTerm(_) =>
    case AgentTerm(a) =>
      var r := AddAgent(g, a.name, |a.body|);
      if r.1.Ok? {
        var b' := b.(terms := b.terms + [r.1.value]);
        var o := CompileTerm(b, g, t);
        assert o == CompileChildren(b', r.0, |b.terms|, a.body);
        ChildrenFills(b', r.0, |b.terms|, a.body);
        ChildrenSlots(b', r.0, |b.terms|, a.body);
        if o.result.Ok? {
          FilledCons(o.body.ops[|b.ops|..], o.body.terms, o.agents, |b.terms|, |o.body.terms|);
        }
      }
  }

  lemma FilledCons(ops: seq<Op>, terms: seq<nat>, g: seq<AgentMeta>, lo: nat, hi: nat)
    requires lo < hi <= |terms|
    requires Filled(ops, terms, g, lo + 1, hi)
    requires terms[lo] < |g| && StoredSlots(ops, lo) == Upto(g[terms[lo]].arity)
    ensures Filled(ops, terms, g, lo, hi)
  {
  }

  lemma {:induction false} ChildrenFills(b: Body, g: seq<AgentMeta>, target: nat, ts: seq<A.Term>)
    requires target < |b.terms|
    ensures var o := CompileChildren(b, g, target, ts);
      o.result.Ok? ==> Filled(o.body.ops[|b.ops|..], o.body.terms, o.agents, |b.terms|, |o.body.terms|)
    decreases ts, 0
  {
    var fin := CompileChildren(b, g, target, ts);
    if |ts| > 0 && fin.result.Ok? {
      ChildrenStep(b, g, target, ts);
      var o := CompileChildren(b, g, target, ts[..|ts| - 1]);
      ChildrenFills(b, g, target, ts[..|ts| - 1]);
      ChildrenStores(b, g, target, ts[..|ts| - 1]);
      var s := CompileTerm(o.body, o.agents, ts[|ts| - 1]);
      TermFills(o.body, o.agents, ts[|ts| - 1]);
      TermStores(o.body, o.agents, ts[|ts| - 1]);
      FillsJoin(o.body.ops[|b.ops|..], s.body.ops[|o.body.ops|..],
                SetOp(Agent(target), |ts|, s.result.value),
                o.body.terms, s.body.terms, o.agents, s.agents, target, |b.terms|);
    }
  }

  // ---------------------------------------------------------------------------
  // Scope

  /** `l` is declared by body `b`. */
  predicate InScope(b: Body, l: Local)
  {
    match l
    case Slot(i) => i < |b.arguments|
    case Name(i) => i < |b.names|
    case Agent(i) => i < |b.terms|
  }

  predicate OpInScope(b: Body, op: Op)
  {
    match op
    case SetOp(t, _, v) => t.Agent? && InScope(b, t) && InScope(b, v)
    case PushOp(l, r, _) => InScope(b, l) && InScope(b, r)
  }

  /** Every instruction of `b` names only locals that `b` declares. */
  predicate WellScoped(b: Body)
  {
    forall i :: 0 <= i < |b.ops| ==> OpInScope(b, b.ops[i])
  }

  /** A well-scoped body stores into no agent local it has not declared. */
  lemma {:induction false} ScopedStores(b: Body, ops: seq<Op>, j: nat)
    requires forall i :: 0 <= i < |ops| ==> OpInScope(b, ops[i])
    requires |b.terms| <= j
    ensures StoredSlots(ops, j) == []
    decreases |ops|
  {
    if |ops| > 0 {
      ScopedStores(b, ops[..|ops| - 1], j);
    }
  }

  lemma ScopeGrows(b: Body, b2: Body, l: Local)
    requires Extends(b, b2) && InScope(b, l)
    ensures InScope(b2, l)
  {
  }

  lemma WellScopedGrows(b: Body, b2: Body, extra: seq<Op>)
    requires Extends(b, b2) && WellScoped(b)
    requires b2.ops == b.ops + extra
    requires forall i :: 0 <= i < |extra| ==> OpInScope(b2, extra[i])
    ensures WellScoped(b2)
  {
    forall i | 0 <= i < |b2.ops| ensures OpInScope(b2, b2.ops[i]) {
      if i < |b.ops| {
        assert b2.ops[i] == b.ops[i];
        match b.ops[i]
        case SetOp(t, _, v) => ScopeGrows(b, b2, t); ScopeGrows(b, b2, v);
        case PushOp(l, r, _) => ScopeGrows(b, b2, l); ScopeGrows(b, b2, r);
      } else {
        assert b2.ops[i] == extra[i - |b.ops|];
      }
    }
  }

  /** Compiling a term keeps the body well scoped and returns a declared local. */
  lemma {:induction false} TermScoped(b: Body, g: seq<AgentMeta>, t: A.Term)
    requires WellScoped(b)
    ensures var o := CompileTerm(b, g, t);
      WellScoped(o.body) && (o.result.Ok? ==> InScope(o.body, o.result.value))
    decreases t, 1
  {
    match t
    case NameTerm(n) =>
      var r := ResolveName(b, A.AsName(n));
      WellScopedGrows(b, r.0, []);
      assert r.0.ops == b.ops + [];
    case AgentTerm(a) =>
      var r := AddAgent(g, a.name, |a.body|);
      if r.1.Ok? {
        var b' := b.(terms := b.terms + [r.1.value]);
        WellScopedGrows(b, b', []);
        assert b'.ops == b.ops + [];
        ChildrenScoped(b', r.0, |b.terms|, a.body);
      }
  }

  lemma {:induction false} ChildrenScoped(b: Body, g: seq<AgentMeta>, target: nat, ts: seq<A.Term>)
    requires WellScoped(b) && target < |b.terms|
    ensures var o := CompileChildren(b, g, target, ts);
      WellScoped(o.body) && (o.result.Ok? ==> InScope(o.body, o.result.value))
    decreases ts, 0
  {
    if |ts| > 0 {
      var o := CompileChildren(b, g, target, ts[..|ts| - 1]);
      ChildrenScoped(b, g, target, ts[..|ts| - 1]);
      if o.result.Ok? {
        var s := CompileTerm(o.body, o.agents, ts[|ts| - 1]);
        TermScoped(o.body, o.agents, ts[|ts| - 1]);
        if s.result.Ok? {
          var z := SetOp(Agent(target), |ts|, s.result.value);
          var fin := s.body.(ops := s.body.ops + [z]);
          assert Extends(s.body, fin);
          WellScopedGrows(s.body, fin, [z]);
          ScopeGrows(s.body, fin, s.result.value);
        }
      }
    }
  }

  // ---------------------------------------------------------------------------
  // Equations

  function PushCount(ops: seq<Op>): nat
  {
    if |ops| == 0 then 0 else PushCount(ops[..|ops| - 1]) + (if ops[|ops| - 1].PushOp? then 1 else 0)
  }

  lemma {:induction false} PushCountAppend(a: seq<Op>, c: seq<Op>)
    ensures PushCount(a + c) == PushCount(a) + PushCount(c)
    decreases |c|
  {
    if |c| == 0 {
      assert a + c == a;
    } else {
      assert (a + c)[..|a + c| - 1] == a + c[..|c| - 1];
      PushCountAppend(a, c[..|c| - 1]);
    }
  }

  lemma {:induction false} PushCountStores(ops: seq<Op>, lo: nat, hi: nat)
    requires FreshStores(ops, lo, hi)
    ensures PushCount(ops) == 0
    decreases |ops|
  {
    if |ops| > 0 {
      PushCountStores(ops[..|ops| - 1], lo, hi);
    }
  }

  lemma PushJoin(x: seq<Op>, y: seq<Op>, z: Op, l1: nat, l2: nat, l3: nat)
    requires FreshStores(x, l1, l2) && FreshStores(y, l2, l3) && z.PushOp?
    ensures PushCount(x + y + [z]) == 1
  {
    PushCountAppend(x + y, [z]);
    PushCountAppend(x, y);
    PushCountStores(x, l1, l2);
    PushCountStores(y, l2, l3);
    assert [z][..0] == [];
  }

  /** An equation adds the stores of its left side, those of its right side, and one
      `push_equation` of the two sides' locals carrying its printed form. */
  lemma EquationShape(b: Body, g: seq<AgentMeta>, e: A.Equation)
    ensures var o := CompileEquation(b, g, e);
      o.error.None? ==>
        var l := CompileTerm(b, g, e.left);
        var r := CompileTerm(l.body, l.agents, e.right);
        && o.body.ops == r.body.ops + [PushOp(l.result.value, r.result.value, A.EquationToString(e))]
        && PushCount(o.body.ops[|b.ops|..]) == 1
  {
    var o := CompileEquation(b, g, e);
    if o.error.None? {
      var l := CompileTerm(b, g, e.left);
      var r := CompileTerm(l.body, l.agents, e.right);
      TermStores(b, g, e.left);
      TermStores(l.body, l.agents, e.right);
      var z := PushOp(l.result.value, r.result.value, A.EquationToString(e));
      SliceThree(b.ops, l.body.ops, r.body.ops, z);
      PushJoin(l.body.ops[|b.ops|..], r.body.ops[|l.body.ops|..], z,
               |b.terms|, |l.body.terms|, |r.body.terms|);
    }
  }

  /** A list of equations that compiles adds exactly one `push_equation` per
      equation. */
  lemma {:induction false} EquationsPushCount(b: Body, g: seq<AgentMeta>, es: seq<A.Equation>)
    ensures var o := CompileEquations(b, g, es);
      o.error.None? ==> PushCount(o.body.ops[|b.ops|..]) == |es|
    decreases |es|
  {
    var fin := CompileEquations(b, g, es);
    if |es| == 0 {
      assert fin.body.ops[|b.ops|..] == [];
    } else if fin.error.None? {
      var o := CompileEquations(b, g, es[..|es| - 1]);
      EquationsPushCount(b, g, es[..|es| - 1]);
      EquationPushCountStep(b, o, es[|es| - 1], |es| - 1);
    }
  }

  /** One more equation adds one more `push_equation`. */
  lemma EquationPushCountStep(b: Body, o: BodyOut, e: A.Equation, n: nat)
    requires Extends(b, o.body) && o.error.None?
    requires PushCount(o.body.ops[|b.ops|..]) == n
    ensures var fin := CompileEquation(o.body, o.agents, e);
      fin.error.None? ==> PushCount(fin.body.ops[|b.ops|..]) == n + 1
  {
    var fin := CompileEquation(o.body, o.agents, e);
    if fin.error.None? {
      EquationShape(o.body, o.agents, e);
      PushCountSplit(b.ops, o.body.ops, fin.body.ops);
    }
  }

  lemma PushCountSplit(ops: seq<Op>, mid: seq<Op>, all: seq<Op>)
    requires IsPrefix(ops, mid) && IsPrefix(mid, all)
    ensures PushCount(all[|ops|..]) == PushCount(mid[|ops|..]) + PushCount(all[|mid|..])
  {
    assert all[|ops|..] == mid[|ops|..] + all[|mid|..];
    PushCountAppend(mid[|ops|..], all[|mid|..]);
  }

  /** The invariant a body keeps between equations: declared locals only, and every
      agent local filled. */
  predicate Sound(b: Body, g: seq<AgentMeta>)
  {
    WellScoped(b) && Filled(b.ops, b.terms, g, 0, |b.terms|)
  }

  /** Every agent local created before `ops2` keeps its stores when only stores to
      newer locals and equations follow. */
  lemma FilledKept(b: Body, g: seq<AgentMeta>, b2: Body, g2: seq<AgentMeta>, extra: seq<Op>, hi: nat)
    requires Filled(b.ops, b.terms, g, 0, |b.terms|)
    requires Extends(b, b2) && IsPrefix(g, g2)
    requires b2.ops == b.ops + extra
    requires forall i :: 0 <= i < |extra| ==>
      extra[i].PushOp? || (extra[i].target.Agent? && extra[i].target.index >= |b.terms|)
    ensures Filled(b2.ops, b2.terms, g2, 0, |b.terms|)
  {
    forall j | 0 <= j < |b.terms|
      ensures b2.terms[j] < |g2| && StoredSlots(b2.ops, j) == Upto(g2[b2.terms[j]].arity)
    {
      StoredSlotsAppend(b.ops, extra, j);
      NoStores(extra, j);
      assert b2.terms[j] == b.terms[j];
      assert g2[b.terms[j]] == g[b.terms[j]];
    }
  }

  lemma {:induction false} NoStores(ops: seq<Op>, j: nat)
    requires forall i :: 0 <= i < |ops| ==> ops[i].PushOp? || (ops[i].target.Agent? && ops[i].target.index > j)
    ensures StoredSlots(ops, j) == []
    decreases |ops|
  {
    if |ops| > 0 {
      NoStores(ops[..|ops| - 1], j);
    }
  }

  /** A term keeps a body sound. */
  lemma TermSound(b: Body, g: seq<AgentMeta>, t: A.Term)
    requires Sound(b, g)
    ensures var o := CompileTerm(b, g, t);
      o.result.Ok? ==> Sound(o.body, o.agents) && InScope(o.body, o.result.value)
  {
    var o := CompileTerm(b, g, t);
    TermScoped(b, g, t);
    if o.result.Ok? {
      TermStores(b, g, t);
      TermFills(b, g, t);
      var extra := o.body.ops[|b.ops|..];
      assert o.body.ops == b.ops + extra;
      FilledKept(b, g, o.body, o.agents, extra, |o.body.terms|);
      forall j | 0 <= j < |o.body.terms|
        ensures o.body.terms[j] < |o.agents|
        ensures StoredSlots(o.body.ops, j) == Upto(o.agents[o.body.terms[j]].arity)
      {
        if |b.terms| <= j {
          StoredSlotsAppend(b.ops, extra, j);
          ScopedStores(b, b.ops, j);
        }
      }
    }
  }

  /** An equation keeps a body sound. */
  lemma EquationSound(b: Body, g: seq<AgentMeta>, e: A.Equation)
    requires Sound(b, g)
    ensures var o := CompileEquation(b, g, e); o.error.None? ==> Sound(o.body, o.agents)
  {
    var o := CompileEquation(b, g, e);
    if o.error.None? {
      var l := CompileTerm(b, g, e.left);
      TermSound(b, g, e.left);
      var r := CompileTerm(l.body, l.agents, e.right);
      TermSound(l.body, l.agents, e.right);
      ScopeGrows(l.body, r.body, l.result.value);
      var z := PushOp(l.result.value, r.result.value, A.EquationToString(e));
      assert Extends(r.body, o.body);
      ScopeGrows(r.body, o.body, l.result.value);
      ScopeGrows(r.body, o.body, r.result.value);
      WellScopedGrows(r.body, o.body, [z]);
      FilledKept(r.body, r.agents, o.body, o.agents, [z], |o.body.terms|);
    }
  }

  /** A list of equations keeps a body sound. */
  lemma {:induction false} EquationsSound(b: Body, g: seq<AgentMeta>, es: seq<A.Equation>)
    requires Sound(b, g)
    ensures var o := CompileEquations(b, g, es); o.error.None? ==> Sound(o.body, o.agents)
    decreases |es|
  {
    if |es| > 0 {
      var o := CompileEquations(b, g, es[..|es| - 1]);
      EquationsSound(b, g, es[..|es| - 1]);
      if o.error.None? {
        EquationSound(o.body, o.agents, es[|es| - 1]);
      }
    }
  }

  /** The collected outputs of a net are declared locals, and the body stays sound. */
  lemma {:induction false} OutputsSound(b: Body, g: seq<AgentMeta>, ts: seq<A.Term>)
    requires Sound(b, g)
    ensures var o := CompileOutputs(b, g, ts);
      o.result.Ok? ==>
        Sound(o.body, o.agents) && forall k :: 0 <= k < |ts| ==> InScope(o.body, o.result.value[k])
    decreases |ts|
  {
    if |ts| > 0 {
      var o := CompileOutputs(b, g, ts[..|ts| - 1]);
      OutputsSound(b, g, ts[..|ts| - 1]);
      if o.result.Ok? {
        var t := CompileTerm(o.body, o.agents, ts[|ts| - 1]);
        TermSound(o.body, o.agents, ts[|ts| - 1]);
        if t.result.Ok? {
          var fin := CompileOutputs(b, g, ts);
          forall k | 0 <= k < |ts| ensures InScope(fin.body, fin.result.value[k]) {
            if k < |ts| - 1 {
              ScopeGrows(o.body, t.body, o.result.value[k]);
            }
          }
        }
      }
    }
  }

  /** An empty body whose only content is a list of arguments is sound. */
  lemma StartSound(args: seq<(string, ArgSlot)>, g: seq<AgentMeta>)
    ensures Sound(EmptyBody.(arguments := args), g)
  {
  }

  /** Every argument of a rule reads a slot that its agent has: slots `1..n` of the
      left agent, then slots `1..m` of the right one, in order. */
  lemma RuleArgsInArity(g: seq<AgentMeta>, p: A.RuleTermPair)
    requires RuleHead(g, p).result.Ok?
    ensures var o := RuleHead(g, p); var h := o.result.value; var args := RuleArgs(h);
      && |args| == o.agents[h.agentLeft].arity + o.agents[h.agentRight].arity
      && (forall k :: 0 <= k < |args| ==>
            if k < o.agents[h.agentLeft].arity then args[k].1 == Left(k + 1)
            else args[k].1 == Right(k - o.agents[h.agentLeft].arity + 1))
  {
  }

  /** A rule that compiles is a sound body over its two agents' arguments, with one
      `push_equation` per equation of the rule. */
  lemma RuleSound(g: seq<AgentMeta>, r: A.Rule)
    ensures var o := CompileRule(g, r);
      o.result.Ok? ==>
        var c := o.result.value;
        && c.body.arguments == RuleArgs(c.head)
        && Sound(c.body, o.agents)
        && PushCount(c.body.ops) == |r.equations|
  {
    var o := CompileRule(g, r);
    var h := RuleHead(g, r.termPair);
    if o.result.Ok? {
      var start := EmptyBody.(arguments := RuleArgs(h.result.value));
      StartSound(start.arguments, h.agents);
      EquationsSound(start, h.agents, r.equations);
      EquationsPushCount(start, h.agents, r.equations);
      assert o.result.value.body.ops[|start.ops|..] == o.result.value.body.ops;
    }
  }

  /** A net that compiles is a sound body without arguments, its outputs are declared
      locals, one per interface, and it has one `push_equation` per equation. */
  lemma NetSound(g: seq<AgentMeta>, n: A.Net)
    ensures var o := CompileNet(g, n);
      o.result.Ok? ==>
        var c := o.result.value;
        && c.body.arguments == []
        && Sound(c.body, o.agents)
        && |c.outputs| == |n.interfaces|
        && (forall k :: 0 <= k < |c.outputs| ==> InScope(c.body, c.outputs[k]))
        && PushCount(c.body.ops) == |n.equations|
  {
    var o := CompileNet(g, n);
    if o.result.Ok? {
      var es := CompileEquations(EmptyBody, g, n.equations);
      StartSound([], g);
      assert EmptyBody.(arguments := []) == EmptyBody;
      EquationsSound(EmptyBody, g, n.equations);
      EquationsPushCount(EmptyBody, g, n.equations);
      assert es.body.ops[|EmptyBody.ops|..] == es.body.ops;
      OutputsSound(es.body, es.agents, n.interfaces);
      var os := CompileOutputs(es.body, es.agents, n.interfaces);
      OutputsAddNoPush(es.body, es.agents, n.interfaces);
    }
  }

  /** Interface terms add stores only. */
  lemma {:induction false} OutputsAddNoPush(b: Body, g: seq<AgentMeta>, ts: seq<A.Term>)
    ensures var o := CompileOutputs(b, g, ts);
      o.result.Ok? ==> PushCount(o.body.ops) == PushCount(b.ops)
    decreases |ts|
  {
    if |ts| > 0 {
      var o := CompileOutputs(b, g, ts[..|ts| - 1]);
      OutputsAddNoPush(b, g, ts[..|ts| - 1]);
      if o.result.Ok? {
        var t := CompileTerm(o.body, o.agents, ts[|ts| - 1]);
        TermStores(o.body, o.agents, ts[|ts| - 1]);
        if t.result.Ok? {
          var extra := t.body.ops[|o.body.ops|..];
          assert t.body.ops == o.body.ops + extra;
          PushCountAppend(o.body.ops, extra);
          PushCountStores(extra, |o.body.terms|, |t.body.terms|);
        }
      }
    }
  }

  // ---------------------------------------------------------------------------
  // The agent table stays free of duplicate names

  lemma {:induction false} TermTableDistinct(b: Body, g: seq<AgentMeta>, t: A.Term)
    requires Distinct(AgentNames(g))
    ensures Distinct(AgentNames(CompileTerm(b, g, t).agents))
    decreases t, 1
  {
    match t
    case NameTerm(_) =>
    case AgentTerm(a) =>
      var r := AddAgent(g, a.name, |a.body|);
      AddAgentDistinct(g, a.name, |a.body|);
      if r.1.Ok? {
        ChildrenTableDistinct(b.(terms := b.terms + [r.1.value]), r.0, |b.terms|, a.body);
      }
  }

  lemma {:induction false} ChildrenTableDistinct(b: Body, g: seq<AgentMeta>, target: nat, ts: seq<A.Term>)
    requires Distinct(AgentNames(g))
    ensures Distinct(AgentNames(CompileChildren(b, g, target, ts).agents))
    decreases ts, 0
  {
    if |ts| > 0 {
      var o := CompileChildren(b, g, target, ts[..|ts| - 1]);
      ChildrenTableDistinct(b, g, target, ts[..|ts| - 1]);
      if o.result.Ok? {
        TermTableDistinct(o.body, o.agents, ts[|ts| - 1]);
      }
    }
  }

  lemma EquationTableDistinct(b: Body, g: seq<AgentMeta>, e: A.Equation)
    requires Distinct(AgentNames(g))
    ensures Distinct(AgentNames(CompileEquation(b, g, e).agents))
  {
    var l := CompileTerm(b, g, e.left);
    TermTableDistinct(b, g, e.left);
    TermTableDistinct(l.body, l.agents, e.right);
  }

  lemma {:induction false} EquationsTableDistinct(b: Body, g: seq<AgentMeta>, es: seq<A.Equation>)
    requires Distinct(AgentNames(g))
    ensures Distinct(AgentNames(CompileEquations(b, g, es).agents))
    decreases |es|
  {
    if |es| > 0 {
      var o := CompileEquations(b, g, es[..|es| - 1]);
      EquationsTableDistinct(b, g, es[..|es| - 1]);
      EquationTableDistinct(o.body, o.agents, es[|es| - 1]);
    }
  }

  lemma {:induction false} OutputsTableDistinct(b: Body, g: seq<AgentMeta>, ts: seq<A.Term>)
    requires Distinct(AgentNames(g))
    ensures Distinct(AgentNames(CompileOutputs(b, g, ts).agents))
    decreases |ts|
  {
    if |ts| > 0 {
      var o := CompileOutputs(b, g, ts[..|ts| - 1]);
      OutputsTableDistinct(b, g, ts[..|ts| - 1]);
      TermTableDistinct(o.body, o.agents, ts[|ts| - 1]);
    }
  }

  /** Compiling a rule never enters a name twice in the agent table. */
  lemma RuleTableDistinct(g: seq<AgentMeta>, r: A.Rule)
    requires Distinct(AgentNames(g))
    ensures Distinct(AgentNames(CompileRule(g, r).agents))
  {
    var p := r.termPair;
    var r1 := AddAgent(g, p.left.agent, |p.left.body|);
    AddAgentDistinct(g, p.left.agent, |p.left.body|);
    AddAgentDistinct(r1.0, p.right.agent, |p.right.body|);
    var h := RuleHead(g, p);
    if h.result.Ok? {
      EquationsTableDistinct(EmptyBody.(arguments := RuleArgs(h.result.value)), h.agents, r.equations);
    }
  }

  /** Compiling a net never enters a name twice in the agent table. */
  lemma NetTableDistinct(g: seq<AgentMeta>, n: A.Net)
    requires Distinct(AgentNames(g))
    ensures Distinct(AgentNames(CompileNet(g, n).agents))
  {
    var es := CompileEquations(EmptyBody, g, n.equations);
    EquationsTableDistinct(EmptyBody, g, n.equations);
    OutputsTableDistinct(es.body, es.agents, n.interfaces);
  }

  /** When both agents of a rule head are already in the table, the head is filed
      under the same pair of ids whichever side each is written on: `A >> B` and
      `B >> A` land on the same rule-map key. */
  lemma HeadKeySymmetric(g: seq<AgentMeta>, p: A.RuleTermPair)
    requires RuleHead(g, p).result.Ok? && RuleHead(g, p).agents == g
    ensures var q := A.RuleTermPair(p.right, p.left);
      var h, h' := RuleHead(g, p), RuleHead(g, q);
      && h'.result.Ok? && h'.agents == g
      && h'.result.value.agentLeft == h.result.value.agentLeft
      && h'.result.value.agentRight == h.result.value.agentRight
  {
    var r1 := AddAgent(g, p.left.agent, |p.left.body|);
    var r2 := AddAgent(r1.0, p.right.agent, |p.right.body|);
    assert IsPrefix(g, r1.0) && IsPrefix(r1.0, r2.0) && r2.0 == g;
    assert r1.0 == g;
  }
}
