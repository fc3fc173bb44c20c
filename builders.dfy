/** The builder objects shared by src/backend/builder.rs, src/runtime/builder.rs and
    src/runtime.rs: `GlobalBuilder` (the agent table) and the body builder
    (`RuleBuilder` / `FunctionBuilder` in the backend, `BodyBuilder` in the runtime
    builder, `FunctionBuilder` in src/runtime.rs).  Their methods update fields in
    place, as the Rust `&mut self` methods do, and each is proved to leave the
    object in the state the matching function of CompileSpec computes. */
module Builders {

  import opened Wrappers
  import opened Locals
  import opened CompileSpec
  import A = Ast

  class GlobalBuilder {
    var agents: seq<AgentMeta>

    /** `GlobalBuilder::default`. */
    constructor ()
      ensures agents == InitialAgents
    {
      agents := InitialAgents;
    }

    /** `add_or_get_agent`: a linear search for the name, then either the id, the
        arity error, or a new entry at the end. */
    method AddOrGetAgent(name: string, arity: nat) returns (r: Result<nat, string>)
      modifies this
      ensures (agents, r) == AddAgent(old(agents), name, arity)
    {
      var i := 0;
      while i < |agents|
        invariant 0 <= i <= |agents|
        invariant forall k :: 0 <= k < i ==> agents[k].name != name
      {
        if agents[i].name == name {
          FirstIndexOfUnique(AgentNames(agents), name, i);
          if agents[i].arity == arity {
            return Ok(i);
          }
          return Err(ArityMessage(name, agents[i].arity, arity));
        }
        i := i + 1;
      }
      assert FirstIndexOf(AgentNames(agents), name).None?;
      r := Ok(|agents|);
      agents := agents + [AgentMeta(name, arity)];
    }
  }

  class BodyBuilder {
    var arguments: seq<(string, ArgSlot)>
    var names: seq<string>
    var terms: seq<nat>
    var ops: seq<Op>

    /** The builder's fields as one value. */
    function State(): Body
      reads this
    {
      Body(arguments, names, terms, ops)
    }

    /** `Default::default()`. */
    constructor ()
      ensures State() == EmptyBody
    {
      arguments, names, terms, ops := [], [], [], [];
    }

    /** `slot`: declares the next argument. */
    method Slot(name: string, slot: ArgSlot)
      modifies this
      ensures State() == old(State()).(arguments := old(arguments) + [(name, slot)])
    {
      arguments := arguments + [(name, slot)];
    }

    /** `add_or_get_name`: the arguments are searched first, then the names; an
        unknown name is appended. */
    method AddOrGetName(x: string) returns (l: Local)
      modifies this
      ensures (State(), l) == ResolveName(old(State()), x)
    {
      var i := 0;
      while i < |arguments|
        invariant 0 <= i <= |arguments|
        invariant forall k :: 0 <= k < i ==> arguments[k].0 != x
      {
        if arguments[i].0 == x {
          FirstIndexOfUnique(ArgNames(arguments), x, i);
          return Local.Slot(i);
        }
        i := i + 1;
      }
      assert FirstIndexOf(ArgNames(arguments), x).None?;
      i := 0;
      while i < |names|
        invariant 0 <= i <= |names|
        invariant forall k :: 0 <= k < i ==> names[k] != x
      {
        if names[i] == x {
          FirstIndexOfUnique(names, x, i);
          return Name(i);
        }
        i := i + 1;
      }
      l := Name(|names|);
      names := names + [x];
    }

    /** `add_term`: a new agent local for an agent of id `id`. */
    method AddTerm(id: nat) returns (l: Local)
      modifies this
      ensures State() == old(State()).(terms := old(terms) + [id])
      ensures l == Agent(|old(terms)|)
    {
      l := Agent(|terms|);
      terms := terms + [id];
    }

    /** `term`: flattens a term into the body, recursively. */
    method Term(global: GlobalBuilder, t: A.Term) returns (r: Result<Local, string>)
      modifies this, global
      ensures TermOut(State(), global.agents, r) == CompileTerm(old(State()), old(global.agents), t)
      decreases t, 1
    {
      match t {
        case NameTerm(n) =>
          var l := AddOrGetName(A.AsName(n));
          r := Ok(l);
        case AgentTerm(a) =>
          var id := global.AddOrGetAgent(a.name, |a.body|);
          if id.Err? {
            return Err(id.error);
          }
          var target := AddTerm(id.value);
          r := Children(global, target, a.body);
      }
    }

    /** The loop of `term` over the sub-terms of agent local `target`. */
    method Children(global: GlobalBuilder, target: Local, ts: seq<A.Term>) returns (r: Result<Local, string>)
      requires target.Agent?
      modifies this, global
      ensures TermOut(State(), global.agents, r) == CompileChildren(old(State()), old(global.agents), target.index, ts)
      decreases ts, 0
    {
      ghost var g := global.agents;
      ghost var b := State();
      assert TermOut(State(), global.agents, Ok(target)) == CompileChildren(b, g, target.index, ts[..0]);
      var i := 0;
      while i < |ts|
        invariant 0 <= i <= |ts|
        invariant TermOut(State(), global.agents, Ok(target)) == CompileChildren(b, g, target.index, ts[..i])
      {
        var sub := Term(global, ts[i]);
        assert ts[..i + 1][..i] == ts[..i];
        if sub.Err? {
          ChildrenErrSticky(b, g, target.index, ts, i + 1);
          return Err(sub.error);
        }
        ops := ops + [SetOp(target, i + 1, sub.value)];
        i := i + 1;
      }
      assert ts[..|ts|] == ts;
      r := Ok(target);
    }

    /** `equation`: both sides, then the `push_equation`. */
    method Equation(global: GlobalBuilder, e: A.Equation) returns (err: Option<string>)
      modifies this, global
      ensures BodyOut(State(), global.agents, err) == CompileEquation(old(State()), old(global.agents), e)
    {
      var description := A.EquationToString(e);
      var left := Term(global, e.left);
      if left.Err? {
        return Some(left.error);
      }
      var right := Term(global, e.right);
      if right.Err? {
        return Some(right.error);
      }
      ops := ops + [PushOp(left.value, right.value, description)];
      err := None;
    }

    /** The loop over a list of equations (`for equation in ...`), stopping at the
        first error. */
    method Equations(global: GlobalBuilder, es: seq<A.Equation>) returns (err: Option<string>)
      modifies this, global
      ensures BodyOut(State(), global.agents, err) == CompileEquations(old(State()), old(global.agents), es)
    {
      ghost var b, g := State(), global.agents;
      var i := 0;
      while i < |es|
        invariant 0 <= i <= |es|
        invariant BodyOut(State(), global.agents, None) == CompileEquations(b, g, es[..i])
      {
        err := Equation(global, es[i]);
        assert es[..i + 1][..i] == es[..i];
        if err.Some? {
          EquationsErrSticky(b, g, es, i + 1);
          return;
        }
        i := i + 1;
      }
      assert es[..|es|] == es;
      err := None;
    }

    /** The loop over a net's interfaces, collecting each one's local. */
    method Outputs(global: GlobalBuilder, ts: seq<A.Term>) returns (r: Result<seq<Local>, string>)
      modifies this, global
      ensures OutputsOut(State(), global.agents, r) == CompileOutputs(old(State()), old(global.agents), ts)
    {
      ghost var b, g := State(), global.agents;
      var outputs := [];
      var i := 0;
      while i < |ts|
        invariant 0 <= i <= |ts|
        invariant OutputsOut(State(), global.agents, Ok(outputs)) == CompileOutputs(b, g, ts[..i])
      {
        var t := Term(global, ts[i]);
        assert ts[..i + 1][..i] == ts[..i];
        if t.Err? {
          OutputsErrSticky(b, g, ts, i + 1);
          return Err(t.error);
        }
        outputs := outputs + [t.value];
        i := i + 1;
      }
      assert ts[..|ts|] == ts;
      r := Ok(outputs);
    }
  }

  /** The head of `RulesBuilder::rule`: both agents looked up in the order written,
      then the side with the smaller id put on the left. */
  method RuleHeadOf(global: GlobalBuilder, p: A.RuleTermPair) returns (h: Result<Head, string>)
    modifies global
    ensures HeadOut(global.agents, h) == RuleHead(old(global.agents), p)
  {
    var a1 := global.AddOrGetAgent(p.left.agent, |p.left.body|);
    if a1.Err? {
      return Err(a1.error);
    }
    var a2 := global.AddOrGetAgent(p.right.agent, |p.right.body|);
    if a2.Err? {
      return Err(a2.error);
    }
    if a1.value <= a2.value {
      h := Ok(Head(a1.value, a2.value, p.left, p.right));
    } else {
      h := Ok(Head(a2.value, a1.value, p.right, p.left));
    }
  }

  /** A fresh body builder for one rule: its arguments, then its equations. */
  method RuleBody(global: GlobalBuilder, head: Head, es: seq<A.Equation>) returns (err: Option<string>, b: Body)
    modifies global
    ensures BodyOut(b, global.agents, err)
         == CompileEquations(EmptyBody.(arguments := RuleArgs(head)), old(global.agents), es)
  {
    var body := new BodyBuilder();
    Arguments(body, head.termLeft.body, true);
    Arguments(body, head.termRight.body, false);
    assert body.State() == EmptyBody.(arguments := RuleArgs(head));
    err := body.Equations(global, es);
    b := body.State();
  }

  /** The `for (i, name) in ...enumerate()` loops of `rule`: each variable of one
      side becomes the argument read from its 1-based slot. */
  method Arguments(body: BodyBuilder, ns: seq<A.Name>, left: bool)
    modifies body
    ensures body.State() == old(body.State()).(arguments := old(body.arguments) + SideArgs(ns, left))
  {
    ghost var start := body.arguments;
    var i := 0;
    while i < |ns|
      invariant 0 <= i <= |ns|
      invariant body.State() == old(body.State()).(arguments := start + SideArgs(ns, left)[..i])
    {
      body.Slot(A.AsName(ns[i]), if left then Left(i + 1) else Right(i + 1));
      assert SideArgs(ns, left)[..i + 1] == SideArgs(ns, left)[..i] + [SideArgs(ns, left)[i]];
      i := i + 1;
    }
    assert SideArgs(ns, left)[..i] == SideArgs(ns, left);
  }
}
