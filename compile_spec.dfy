/** The part of the builders that turns syntax into a flat body: the global agent
    table (`GlobalBuilder::add_or_get_agent`), name resolution
    (`add_or_get_name`), term flattening (`term`), equations (`equation`), and the
    rule and net walks around them.  The three builders (src/backend/builder.rs,
    src/runtime/builder.rs, src/runtime.rs) carry the same code, differing only in
    the instruction type they push; that instruction is `Op` here, and each builder
    module maps it to its own type.

    This module holds the specification as functions on values, with what each
    guarantees on its own; CompileFacts proves what they guarantee together, and the
    builder classes run the same steps on fields and are proved equal to them. */
module CompileSpec {

  import opened Wrappers
  import opened Strings
  import opened Locals
  import A = Ast

  /** An instruction of a body, before it is given its IR type. */
  datatype Op =
    | SetOp(target: Local, slot: nat, value: Local)
    | PushOp(left: Local, right: Local, description: string)

  /** Where a rule argument comes from: a 1-based slot of the left or right agent. */
  datatype ArgSlot = Left(slot: nat) | Right(slot: nat)

  /** The state of a body builder: `arguments`, `names`, `terms` (the agent id of
      each agent local) and the instructions pushed so far. */
  datatype Body = Body(arguments: seq<(string, ArgSlot)>, names: seq<string>,
                       terms: seq<nat>, ops: seq<Op>)

  const EmptyBody := Body([], [], [], [])

  /** `GlobalBuilder::default`: the table starts with the interface agent `$`/1. */
  const InitialAgents := [AgentMeta("$", 1)]

  // ---------------------------------------------------------------------------
  // First-match search, as `iter().enumerate().find_map(...)` does it.

  function FirstIndexOf(keys: seq<string>, x: string): (r: Option<nat>)
    ensures r.Some? ==> r.value < |keys| && keys[r.value] == x
    ensures r.Some? ==> forall k :: 0 <= k < r.value ==> keys[k] != x
    ensures r.None? <==> forall k :: 0 <= k < |keys| ==> keys[k] != x
  {
    if |keys| == 0 then None
    else
      match FirstIndexOf(keys[..|keys| - 1], x)
      case Some(i) => Some(i)
      case None => if keys[|keys| - 1] == x then Some(|keys| - 1) else None
  }

  /** The index of the first occurrence is the only index with both properties. */
  lemma FirstIndexOfUnique(keys: seq<string>, x: string, i: nat)
    requires i < |keys| && keys[i] == x
    requires forall k :: 0 <= k < i ==> keys[k] != x
    ensures FirstIndexOf(keys, x) == Some(i)
  {
  }

  /** In a list without repetitions the search finds every element at its place. */
  lemma FirstIndexOfDistinct(keys: seq<string>, i: nat)
    requires i < |keys|
    requires forall j, k :: 0 <= j < k < |keys| ==> keys[j] != keys[k]
    ensures FirstIndexOf(keys, keys[i]) == Some(i)
  {
    FirstIndexOfUnique(keys, keys[i], i);
  }

  function AgentNames(agents: seq<AgentMeta>): (ns: seq<string>)
    ensures |ns| == |agents| && forall k :: 0 <= k < |agents| ==> ns[k] == agents[k].name
  {
    seq(|agents|, k requires 0 <= k < |agents| => agents[k].name)
  }

  function ArgNames(args: seq<(string, ArgSlot)>): (ns: seq<string>)
    ensures |ns| == |args| && forall k :: 0 <= k < |args| ==> ns[k] == args[k].0
  {
    seq(|args|, k requires 0 <= k < |args| => args[k].0)
  }

  predicate Distinct(xs: seq<string>)
  {
    forall j, k :: 0 <= j < k < |xs| ==> xs[j] != xs[k]
  }

  predicate IsPrefix<T(==)>(a: seq<T>, b: seq<T>)
  {
    |a| <= |b| && b[..|a|] == a
  }

  lemma PrefixTrans<T>(a: seq<T>, b: seq<T>, c: seq<T>)
    requires IsPrefix(a, b) && IsPrefix(b, c)
    ensures IsPrefix(a, c)
  {
    assert c[..|a|] == c[..|b|][..|a|];
  }

  // ---------------------------------------------------------------------------
  // The global agent table

  function ArityMessage(name: string, declared: nat, given: nat): string
  {
    "agent `" + name + "` has arity " + NatToString(declared) + ", but "
      + NatToString(given) + " is given"
  }

  /** `add_or_get_agent`: the id of `name` if it is known with this arity, a new id
      at the end of the table if it is unknown, an error (table unchanged) if it is
      known with another arity. */
  function AddAgent(agents: seq<AgentMeta>, name: string, arity: nat)
    : (r: (seq<AgentMeta>, Result<nat, string>))
    ensures r.1.Ok? ==> r.1.value < |r.0| && r.0[r.1.value] == AgentMeta(name, arity)
    ensures r.1.Err? <==>
      (exists k :: 0 <= k < |agents| && agents[k].name == name && agents[k].arity != arity
         && FirstIndexOf(AgentNames(agents), name) == Some(k))
    ensures r.1.Err? ==> r.0 == agents
    ensures r.0 == agents || (r.0 == agents + [AgentMeta(name, arity)]
                              && name !in AgentNames(agents) && r.1 == Ok(|agents|))
  {
    match FirstIndexOf(AgentNames(agents), name)
    case Some(id) =>
      if agents[id].arity == arity then (agents, Ok(id))
      else (agents, Err(ArityMessage(name, agents[id].arity, arity)))
    case None => (agents + [AgentMeta(name, arity)], Ok(|agents|))
  }

  /** The table never holds two agents of the same name. */
  lemma AddAgentDistinct(agents: seq<AgentMeta>, name: string, arity: nat)
    requires Distinct(AgentNames(agents))
    ensures Distinct(AgentNames(AddAgent(agents, name, arity).0))
  {
    var r := AddAgent(agents, name, arity);
    if r.0 != agents {
      var ns, ns' := AgentNames(agents), AgentNames(r.0);
      forall j, k | 0 <= j < k < |ns'| ensures ns'[j] != ns'[k] {
        if k == |agents| {
          assert ns'[j] == ns[j];
        } else {
          assert ns'[j] == ns[j] && ns'[k] == ns[k];
        }
      }
    }
  }

  /** An agent already in the table keeps its id whatever is added afterwards. */
  lemma AddAgentStable(agents: seq<AgentMeta>, name: string, arity: nat, other: string)
    requires FirstIndexOf(AgentNames(agents), other).Some?
    ensures FirstIndexOf(AgentNames(AddAgent(agents, name, arity).0), other)
         == FirstIndexOf(AgentNames(agents), other)
  {
    var r := AddAgent(agents, name, arity);
    var i := FirstIndexOf(AgentNames(agents), other).value;
    if r.0 != agents {
      var ns, ns' := AgentNames(agents), AgentNames(r.0);
      forall k | 0 <= k < i ensures ns'[k] != other {
        assert ns'[k] == ns[k];
      }
      assert ns'[i] == ns[i];
      FirstIndexOfUnique(ns', other, i);
    }
  }

  /** Asking again for an agent that was just granted gives the same id and leaves
      the table as it is. */
  lemma AddAgentIdempotent(agents: seq<AgentMeta>, name: string, arity: nat)
    requires Distinct(AgentNames(agents))
    requires AddAgent(agents, name, arity).1.Ok?
    ensures var r := AddAgent(agents, name, arity);
      AddAgent(r.0, name, arity) == r
  {
    var r := AddAgent(agents, name, arity);
    AddAgentDistinct(agents, name, arity);
    FirstIndexOfDistinct(AgentNames(r.0), r.1.value);
  }

  /** The `$` agent is always id 0 with arity 1. */
  lemma InterfaceAgentFirst(agents: seq<AgentMeta>, name: string, arity: nat)
    requires |agents| > 0 && agents[0] == AgentMeta("$", 1)
    ensures var r := AddAgent(agents, name, arity).0; |r| > 0 && r[0] == AgentMeta("$", 1)
  {
  }

  // ---------------------------------------------------------------------------
  // Name resolution

  /** `l` stands for the variable `x` in body `b`. */
  predicate Denotes(b: Body, l: Local, x: string)
  {
    match l
    case Slot(i) => i < |b.arguments| && b.arguments[i].0 == x
    case Name(i) => i < |b.names| && b.names[i] == x
    case Agent(_) => false
  }

  /** `add_or_get_name`: an argument of that name wins; otherwise the name already
      declared, or a new one at the end of `names`.  Nothing but `names` changes. */
  function ResolveName(b: Body, x: string): (r: (Body, Local))
    ensures r.0.arguments == b.arguments && r.0.terms == b.terms && r.0.ops == b.ops
    ensures Denotes(r.0, r.1, x)
    ensures r.1.Slot? <==> x in ArgNames(b.arguments)
    ensures r.1.Slot? ==> r.0 == b && r.1 == Slot(FirstIndexOf(ArgNames(b.arguments), x).value)
    ensures r.1.Name? && x in b.names ==> r.0 == b && r.1 == Name(FirstIndexOf(b.names, x).value)
    ensures r.1.Name? && x !in b.names ==> r.0 == b.(names := b.names + [x]) && r.1 == Name(|b.names|)
  {
    match FirstIndexOf(ArgNames(b.arguments), x)
    case Some(i) => (b, Slot(i))
    case None =>
      match FirstIndexOf(b.names, x)
      case Some(i) => (b, Name(i))
      case None => (b.(names := b.names + [x]), Name(|b.names|))
  }

  /** Resolving the same name a second time changes nothing and gives the same
      local. */
  lemma ResolveNameIdempotent(b: Body, x: string)
    ensures var r := ResolveName(b, x); ResolveName(r.0, x) == r
  {
    var r := ResolveName(b, x);
    if x !in ArgNames(b.arguments) && x !in b.names {
      var ns := b.names + [x];
      forall k | 0 <= k < |b.names| ensures ns[k] != x {
        assert ns[k] == b.names[k];
      }
      FirstIndexOfUnique(ns, x, |b.names|);
    }
  }

  /** Resolution keeps `names` free of repetitions, and two different variables never
      share a local. */
  lemma ResolveNameDistinct(b: Body, x: string, y: string)
    requires Distinct(b.names)
    ensures Distinct(ResolveName(b, x).0.names)
    ensures var r := ResolveName(b, x); x != y ==> !Denotes(r.0, r.1, y)
  {
    var r := ResolveName(b, x);
    if r.0 != b {
      var ns := r.0.names;
      forall j, k | 0 <= j < k < |ns| ensures ns[j] != ns[k] {
        assert ns[j] == b.names[j];
        if k < |b.names| { assert ns[k] == b.names[k]; }
      }
    }
  }

  // ---------------------------------------------------------------------------
  // Terms

  /** A builder state after a step, with what the step returned. */
  datatype TermOut = TermOut(body: Body, agents: seq<AgentMeta>, result: Result<Local, string>)

  /** Everything `b` has is still in `b2`, in the same places. */
  predicate Extends(b: Body, b2: Body)
  {
    && b2.arguments == b.arguments
    && IsPrefix(b.names, b2.names)
    && IsPrefix(b.terms, b2.terms)
    && IsPrefix(b.ops, b2.ops)
  }

  /** `term`: a variable resolves to its local; an agent gets its id in the table,
      a new agent local, then each sub-term in order, each followed by the `SetOp`
      that stores it in the next slot. */
  function CompileTerm(b: Body, g: seq<AgentMeta>, t: A.Term): (o: TermOut)
    ensures Extends(b, o.body) && IsPrefix(g, o.agents)
    ensures t.NameTerm? ==> o.result.Ok? && o.agents == g
    ensures t.AgentTerm? && o.result.Ok? ==>
      && o.result.value == Agent(|b.terms|)
      && |b.terms| < |o.body.terms|
      && o.body.terms[|b.terms|] < |o.agents|
      && o.agents[o.body.terms[|b.terms|]] == AgentMeta(t.agent.name, |t.agent.body|)
    decreases t, 1
  {
    match t
    case NameTerm(n) =>
      var r := ResolveName(b, A.AsName(n));
      TermOut(r.0, g, Ok(r.1))
    case AgentTerm(a) =>
      var (g', id) := AddAgent(g, a.name, |a.body|);
      match id
      case Err(e) => TermOut(b, g', Err(e))
      case Ok(i) =>
        var b' := b.(terms := b.terms + [i]);
        assert b'.terms[|b.terms|] == i;
        CompileChildren(b', g', |b.terms|, a.body)
  }

  /** The loop over an agent's sub-terms, for the first `|ts|` of them: sub-term `k`
      (1-based) ends with `SetOp(Agent(target), k, local of the sub-term)`. */
  function CompileChildren(b: Body, g: seq<AgentMeta>, target: nat, ts: seq<A.Term>)
    : (o: TermOut)
    ensures Extends(b, o.body) && IsPrefix(g, o.agents)
    ensures o.result.Ok? ==> o.result.value == Agent(target)
    decreases ts, 0
  {
    if |ts| == 0 then TermOut(b, g, Ok(Agent(target)))
    else
      var o := CompileChildren(b, g, target, ts[..|ts| - 1]);
      if o.result.Err? then o
      else
        var s := CompileTerm(o.body, o.agents, ts[|ts| - 1]);
        match s.result
        case Err(_) => s
        case Ok(v) =>
          TermOut(s.body.(ops := s.body.ops + [SetOp(Agent(target), |ts|, v)]), s.agents,
                  Ok(Agent(target)))
  }

  // ---------------------------------------------------------------------------
  // Equations

  /** A builder state after a step that returns nothing but may fail. */
  datatype BodyOut = BodyOut(body: Body, agents: seq<AgentMeta>, error: Option<string>)

  /** `equation`: both sides, left first, then one `PushOp` carrying the equation's
      printed form. */
  function CompileEquation(b: Body, g: seq<AgentMeta>, e: A.Equation): (o: BodyOut)
    ensures Extends(b, o.body) && IsPrefix(g, o.agents)
  {
    var l := CompileTerm(b, g, e.left);
    if l.result.Err? then BodyOut(l.body, l.agents, Some(l.result.error))
    else
      var r := CompileTerm(l.body, l.agents, e.right);
      if r.result.Err? then BodyOut(r.body, r.agents, Some(r.result.error))
      else
        BodyOut(r.body.(ops := r.body.ops + [PushOp(l.result.value, r.result.value,
                                                     A.EquationToString(e))]),
                r.agents, None)
  }

  /** The loop over a list of equations, stopping at the first error. */
  function CompileEquations(b: Body, g: seq<AgentMeta>, es: seq<A.Equation>): (o: BodyOut)
    ensures Extends(b, o.body) && IsPrefix(g, o.agents)
  {
    if |es| == 0 then BodyOut(b, g, None)
    else
      var o := CompileEquations(b, g, es[..|es| - 1]);
      if o.error.Some? then o
      else
        var o' := CompileEquation(o.body, o.agents, es[|es| - 1]);
        PrefixTrans(b.names, o.body.names, o'.body.names);
        PrefixTrans(b.terms, o.body.terms, o'.body.terms);
        PrefixTrans(b.ops, o.body.ops, o'.body.ops);
        PrefixTrans(g, o.agents, o'.agents);
        o'
  }

  /** The loop over a net's interface terms, collecting each one's local. */
  datatype OutputsOut = OutputsOut(body: Body, agents: seq<AgentMeta>,
                                   result: Result<seq<Local>, string>)

  function CompileOutputs(b: Body, g: seq<AgentMeta>, ts: seq<A.Term>): (o: OutputsOut)
    ensures Extends(b, o.body) && IsPrefix(g, o.agents)
    ensures o.result.Ok? ==> |o.result.value| == |ts|
  {
    if |ts| == 0 then OutputsOut(b, g, Ok([]))
    else
      var o := CompileOutputs(b, g, ts[..|ts| - 1]);
      if o.result.Err? then o
      else
        var t := CompileTerm(o.body, o.agents, ts[|ts| - 1]);
        match t.result
        case Err(e) => OutputsOut(t.body, t.agents, Err(e))
        case Ok(l) => OutputsOut(t.body, t.agents, Ok(o.result.value + [l]))
  }

  // ---------------------------------------------------------------------------
  // Rules and nets

  /** The argument list of one side of a rule head: the `k`-th variable (1-based)
      comes from slot `k` of that side. */
  function SideArgs(ns: seq<A.Name>, left: bool): (args: seq<(string, ArgSlot)>)
    ensures |args| == |ns|
    ensures forall k :: 0 <= k < |ns| ==>
      args[k] == (A.AsName(ns[k]), if left then Left(k + 1) else Right(k + 1))
  {
    seq(|ns|, k requires 0 <= k < |ns| =>
      (A.AsName(ns[k]), if left then Left(k + 1) else Right(k + 1)))
  }

  /** The two agents of a rule head, looked up (or added) in the order written, then
      put so that the smaller id is on the left; the rule's arguments follow that
      order. */
  datatype Head = Head(agentLeft: nat, agentRight: nat, termLeft: A.RuleTerm, termRight: A.RuleTerm)

  datatype HeadOut = HeadOut(agents: seq<AgentMeta>, result: Result<Head, string>)

  function RuleHead(g: seq<AgentMeta>, p: A.RuleTermPair): (o: HeadOut)
    ensures IsPrefix(g, o.agents)
    ensures o.result.Ok? ==>
      var h := o.result.value;
      && h.agentLeft <= h.agentRight
      && h.agentRight < |o.agents|
      && {h.termLeft, h.termRight} == {p.left, p.right}
      && o.agents[h.agentLeft] == AgentMeta(h.termLeft.agent, |h.termLeft.body|)
      && o.agents[h.agentRight] == AgentMeta(h.termRight.agent, |h.termRight.body|)
    ensures var a := AddAgent(g, p.left.agent, |p.left.body|);
      var b := AddAgent(a.0, p.right.agent, |p.right.body|);
      && (o.result.Ok? <==> a.1.Ok? && b.1.Ok?)
      && (o.result.Ok? ==>
            var h := o.result.value;
            if a.1.value <= b.1.value
            then h.termLeft == p.left && h.termRight == p.right && h.agentLeft == a.1.value && h.agentRight == b.1.value
            else h.termLeft == p.right && h.termRight == p.left && h.agentLeft == b.1.value && h.agentRight == a.1.value)
    ensures o.result.Ok? ==>
      var h := o.result.value;
      (h.termLeft == p.left && h.termRight == p.right) || h.agentLeft < h.agentRight
  {
    var (g1, r1) := AddAgent(g, p.left.agent, |p.left.body|);
    match r1
    case Err(e) => HeadOut(g1, Err(e))
    case Ok(a1) =>
      var (g2, r2) := AddAgent(g1, p.right.agent, |p.right.body|);
      match r2
      case Err(e) => HeadOut(g2, Err(e))
      case Ok(a2) =>
        assert g1[a1] == g2[a1];
        if a1 <= a2 then HeadOut(g2, Ok(Head(a1, a2, p.left, p.right)))
        else HeadOut(g2, Ok(Head(a2, a1, p.right, p.left)))
  }

  /** A rule between two copies of the same agent, such as `A(x) >> A(y)`, keeps the
      written order: both heads get the same id, so no swap happens. */
  lemma RuleHeadTieKeepsOrder(g: seq<AgentMeta>, p: A.RuleTermPair)
    requires Distinct(AgentNames(g))
    requires p.left.agent == p.right.agent && |p.left.body| == |p.right.body|
    requires RuleHead(g, p).result.Ok?
    ensures var h := RuleHead(g, p).result.value;
      h.termLeft == p.left && h.termRight == p.right && h.agentLeft == h.agentRight
  {
    AddAgentIdempotent(g, p.left.agent, |p.left.body|);
  }

  /** The body a rule starts from: the left agent's variables, then the right's. */
  function RuleArgs(h: Head): seq<(string, ArgSlot)>
  {
    SideArgs(h.termLeft.body, true) + SideArgs(h.termRight.body, false)
  }

  /** What a rule compiles to, before it is given its IR type. */
  datatype CompiledRule = CompiledRule(head: Head, body: Body)

  datatype RuleOut = RuleOut(agents: seq<AgentMeta>, result: Result<CompiledRule, string>)

  /** `RulesBuilder::rule` up to `body.build()`: head, arguments, then the equations. */
  function CompileRule(g: seq<AgentMeta>, r: A.Rule): (o: RuleOut)
    ensures IsPrefix(g, o.agents)
    ensures o.result.Ok? ==>
      o.result.value.head.agentLeft <= o.result.value.head.agentRight < |o.agents|
  {
    var h := RuleHead(g, r.termPair);
    match h.result
    case Err(e) => RuleOut(h.agents, Err(e))
    case Ok(head) =>
      var es := CompileEquations(EmptyBody.(arguments := RuleArgs(head)), h.agents, r.equations);
      match es.error
      case Some(e) => RuleOut(es.agents, Err(e))
      case None => RuleOut(es.agents, Ok(CompiledRule(head, es.body)))
  }

  datatype CompiledNet = CompiledNet(body: Body, outputs: seq<Local>)

  datatype NetOut = NetOut(agents: seq<AgentMeta>, result: Result<CompiledNet, string>)

  /** `FunctionsBuilder::function` up to `body.build()`: the equations, then the
      interface terms, whose locals are the outputs. */
  function CompileNet(g: seq<AgentMeta>, n: A.Net): (o: NetOut)
    ensures IsPrefix(g, o.agents)
    ensures o.result.Ok? ==> |o.result.value.outputs| == |n.interfaces|
  {
    var es := CompileEquations(EmptyBody, g, n.equations);
    match es.error
    case Some(e) => NetOut(es.agents, Err(e))
    case None =>
      var os := CompileOutputs(es.body, es.agents, n.interfaces);
      match os.result
      case Err(e) => NetOut(os.agents, Err(e))
      case Ok(outs) => NetOut(os.agents, Ok(CompiledNet(os.body, outs)))
  }

  // ---------------------------------------------------------------------------
  // The loops stop at the first error: once a prefix fails, every longer prefix
  // fails the same way.

  lemma {:induction false} ChildrenErrSticky(b: Body, g: seq<AgentMeta>, target: nat,
                                             ts: seq<A.Term>, i: nat)
    requires i <= |ts| && CompileChildren(b, g, target, ts[..i]).result.Err?
    ensures CompileChildren(b, g, target, ts) == CompileChildren(b, g, target, ts[..i])
    decreases |ts| - i
  {
    if i < |ts| {
      assert ts[..|ts| - 1][..i] == ts[..i];
      ChildrenErrSticky(b, g, target, ts[..|ts| - 1], i);
      assert CompileChildren(b, g, target, ts[..|ts| - 1]).result.Err?;
    } else {
      assert ts[..i] == ts;
    }
  }

  lemma {:induction false} EquationsErrSticky(b: Body, g: seq<AgentMeta>, es: seq<A.Equation>, i: nat)
    requires i <= |es| && CompileEquations(b, g, es[..i]).error.Some?
    ensures CompileEquations(b, g, es) == CompileEquations(b, g, es[..i])
    decreases |es| - i
  {
    if i < |es| {
      assert es[..|es| - 1][..i] == es[..i];
      EquationsErrSticky(b, g, es[..|es| - 1], i);
      assert CompileEquations(b, g, es[..|es| - 1]).error.Some?;
    } else {
      assert es[..i] == es;
    }
  }

  lemma {:induction false} OutputsErrSticky(b: Body, g: seq<AgentMeta>, ts: seq<A.Term>, i: nat)
    requires i <= |ts| && CompileOutputs(b, g, ts[..i]).result.Err?
    ensures CompileOutputs(b, g, ts) == CompileOutputs(b, g, ts[..i])
    decreases |ts| - i
  {
    if i < |ts| {
      assert ts[..|ts| - 1][..i] == ts[..i];
      OutputsErrSticky(b, g, ts[..|ts| - 1], i);
      assert CompileOutputs(b, g, ts[..|ts| - 1]).result.Err?;
    } else {
      assert ts[..i] == ts;
    }
  }
}
