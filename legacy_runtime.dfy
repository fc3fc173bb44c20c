/** The string-emitting builder of src/runtime.rs as objects.  `FunctionBuilder`
    keeps its arguments, names, agents and body lines as text; beside them it
    carries, as a ghost field, the compilation state of CompileSpec those fields are
    the text of, so each method is proved to take the same step as the other two
    builders and to push the C line LegacySpec gives for it.  The agent table and
    the rule head are the shared ones of the Builders module. */
module LegacyRuntime {

  import opened Wrappers
  import opened Strings
  import opened Locals
  import opened CompileSpec
  import opened Builders
  import S = LegacySpec
  import A = Ast

  class FunctionBuilder {
    var arguments: seq<(string, string)>
    var names: seq<string>
    var terms: seq<nat>
    var body: seq<string>
    var signature: Option<string>
    var before: Option<string>
    var after: Option<string>
    /** The compilation state the text fields spell out. */
    ghost var model: Body

    /** The text fields are the text of `model`. */
    ghost predicate Valid()
      reads this
    {
      && arguments == S.ArgTexts(model.arguments) && names == model.names
      && terms == model.terms && body == S.OpTexts(model.ops)
    }

    /** `Default::default()`. */
    constructor ()
      ensures Valid() && model == EmptyBody
      ensures signature == None && before == None && after == None
    {
      arguments, names, terms, body := [], [], [], [];
      signature, before, after := None, None, None;
      model := EmptyBody;
    }

    /** `argument`: declares the next argument, read from `slot`. */
    method Argument(name: string, slot: ArgSlot)
      requires Valid()
      modifies this
      ensures Valid() && model == old(model).(arguments := old(model.arguments) + [(name, slot)])
      ensures signature == old(signature) && before == old(before) && after == old(after)
    {
      S.ArgTextsSnoc(model.arguments, (name, slot));
      arguments := arguments + [(name, S.ArgExpr(slot))];
      model := model.(arguments := model.arguments + [(name, slot)]);
    }

    /** The position of the first argument named `x`. */
    method ArgumentIndex(x: string) returns (i: Option<nat>)
      requires Valid()
      ensures i == FirstIndexOf(ArgNames(model.arguments), x)
    {
      var k := 0;
      while k < |arguments|
        invariant 0 <= k <= |arguments|
        invariant forall j :: 0 <= j < k ==> model.arguments[j].0 != x
      {
        if arguments[k].0 == x {
          FirstIndexOfUnique(ArgNames(model.arguments), x, k);
          return Some(k);
        }
        k := k + 1;
      }
      assert forall j :: 0 <= j < |ArgNames(model.arguments)| ==> ArgNames(model.arguments)[j] != x;
      i := None;
    }

    /** The position of the name `x` among those declared. */
    method NameIndex(x: string) returns (i: Option<nat>)
      ensures i == FirstIndexOf(names, x)
    {
      var k := 0;
      while k < |names|
        invariant 0 <= k <= |names|
        invariant forall j :: 0 <= j < k ==> names[j] != x
      {
        if names[k] == x {
          FirstIndexOfUnique(names, x, k);
          return Some(k);
        }
        k := k + 1;
      }
      i := None;
    }

    /** `add_or_get_name`: `a{i}` for the argument of that name, else `x{i}` for the
        name already declared or a new one at the end. */
    method AddOrGetName(x: string) returns (s: string)
      requires Valid()
      modifies this
      ensures Valid()
      ensures var r := ResolveName(old(model), x); model == r.0 && s == S.LocalText(r.1)
      ensures signature == old(signature) && before == old(before) && after == old(after)
    {
      var a := ArgumentIndex(x);
      if a.Some? {
        return "a" + NatToString(a.value);
      }
      var n := NameIndex(x);
      if n.Some? {
        return "x" + NatToString(n.value);
      }
      s := "x" + NatToString(|names|);
      names := names + [x];
      model := model.(names := model.names + [x]);
    }

    /** `add_term`: `t{k}`, `k` the number of agents before it. */
    method AddTerm(id: nat) returns (s: string)
      requires Valid()
      modifies this
      ensures Valid() && model == old(model).(terms := old(model.terms) + [id])
      ensures s == S.LocalText(Agent(|old(terms)|))
      ensures signature == old(signature) && before == old(before) && after == old(after)
    {
      s := "t" + NatToString(|terms|);
      terms := terms + [id];
      model := model.(terms := model.terms + [id]);
    }

    /** Pushes the line of `op`. */
    method Push(ghost op: Op, line: string)
      requires Valid() && line == S.OpText(op)
      modifies this
      ensures Valid() && model == old(model).(ops := old(model.ops) + [op])
      ensures signature == old(signature) && before == old(before) && after == old(after)
    {
      S.OpTextsSnoc(model.ops, op);
      body := body + [line];
      model := model.(ops := model.ops + [op]);
    }

    /** Pushes `t[j] = (size_t) v;`. */
    method PushSet(ghost target: Local, t: string, j: nat, ghost value: Local, v: string)
      requires Valid() && t == S.LocalText(target) && v == S.LocalText(value)
      modifies this
      ensures Valid() && model == old(model).(ops := old(model.ops) + [SetOp(target, j, value)])
      ensures signature == old(signature) && before == old(before) && after == old(after)
    {
      Push(SetOp(target, j, value), t + "[" + NatToString(j) + "] = (size_t) " + v + ";");
    }

    /** Pushes `push_equation(l, r);`. */
    method PushEquation(ghost left: Local, l: string, ghost right: Local, r: string, ghost description: string)
      requires Valid() && l == S.LocalText(left) && r == S.LocalText(right)
      modifies this
      ensures Valid() && model == old(model).(ops := old(model.ops) + [PushOp(left, right, description)])
      ensures signature == old(signature) && before == old(before) && after == old(after)
    {
      Push(PushOp(left, right, description), "push_equation(" + l + ", " + r + ");");
    }

    /** `term`: flattens a term, pushing `t[j] = (size_t) sub;` after each sub-term. */
    method Term(global: GlobalBuilder, t: A.Term) returns (r: Result<string, string>)
      requires Valid()
      modifies this, global
      ensures Valid()
      ensures var o := CompileTerm(old(model), old(global.agents), t);
        model == o.body && global.agents == o.agents && r == S.ResultText(o.result)
      ensures signature == old(signature) && before == old(before) && after == old(after)
      decreases t, 1
    {
      match t {
        case NameTerm(n) =>
          var s := AddOrGetName(A.AsName(n));
          r := Ok(s);
        case AgentTerm(a) =>
          var id := global.AddOrGetAgent(a.name, |a.body|);
          if id.Err? {
            return Err(id.error);
          }
          ghost var k := |terms|;
          var name := AddTerm(id.value);
          r := Children(global, k, name, a.body);
      }
    }

    /** The loop of `term` over the sub-terms of agent `t{target}`. */
    method Children(global: GlobalBuilder, ghost target: nat, name: string, ts: seq<A.Term>)
        returns (r: Result<string, string>)
      requires Valid() && name == S.LocalText(Agent(target))
      modifies this, global
      ensures Valid()
      ensures var o := CompileChildren(old(model), old(global.agents), target, ts);
        model == o.body && global.agents == o.agents && r == S.ResultText(o.result)
      ensures signature == old(signature) && before == old(before) && after == old(after)
      decreases ts, 0
    {
      ghost var g := global.agents;
      ghost var b := model;
      assert TermOut(model, global.agents, Ok(Agent(target))) == CompileChildren(b, g, target, ts[..0]);
      var i := 0;
      while i < |ts|
        invariant 0 <= i <= |ts|
        invariant Valid()
        invariant TermOut(model, global.agents, Ok(Agent(target))) == CompileChildren(b, g, target, ts[..i])
        invariant signature == old(signature) && before == old(before) && after == old(after)
      {
        ghost var m0, g0 := model, global.agents;
        var sub := Term(global, ts[i]);
        assert ts[..i + 1][..i] == ts[..i];
        if sub.Err? {
          ChildrenErrSticky(b, g, target, ts, i + 1);
          return Err(sub.error);
        }
        ghost var v := CompileTerm(m0, g0, ts[i]).result.value;
        PushSet(Agent(target), name, i + 1, v, sub.value);
        i := i + 1;
      }
      assert ts[..|ts|] == ts;
      r := Ok(name);
    }

    /** `equation`: both sides, then `push_equation(l, r);`. */
    method Equation(global: GlobalBuilder, e: A.Equation) returns (err: Option<string>)
      requires Valid()
      modifies this, global
      ensures Valid()
      ensures BodyOut(model, global.agents, err) == CompileEquation(old(model), old(global.agents), e)
      ensures signature == old(signature) && before == old(before) && after == old(after)
    {
      ghost var m0, g0 := model, global.agents;
      var left := Term(global, e.left);
      if left.Err? {
        return Some(left.error);
      }
      ghost var l := CompileTerm(m0, g0, e.left);
      var right := Term(global, e.right);
      if right.Err? {
        return Some(right.error);
      }
      ghost var rr := CompileTerm(l.body, l.agents, e.right);
      PushEquation(l.result.value, left.value, rr.result.value, right.value, A.EquationToString(e));
      err := None;
    }

    /** The `for equation in ...` loops of `rule` and `program`, stopping at the
        first error. */
    method Equations(global: GlobalBuilder, es: seq<A.Equation>) returns (err: Option<string>)
      requires Valid()
      modifies this, global
      ensures Valid()
      ensures BodyOut(model, global.agents, err) == CompileEquations(old(model), old(global.agents), es)
      ensures signature == old(signature) && before == old(before) && after == old(after)
    {
      ghost var b, g := model, global.agents;
      var i := 0;
      while i < |es|
        invariant 0 <= i <= |es|
        invariant Valid()
        invariant BodyOut(model, global.agents, None) == CompileEquations(b, g, es[..i])
        invariant signature == old(signature) && before == old(before) && after == old(after)
      {
        err := Equation(global, es[i]);
        assert es[..i + 1][..i] == es[..i];
        if err.Some? {
          EquationsErrSticky(b, g, es, i + 1);
          return;
        }
        i := i + 1;
      }
      assert es[..|es|] == es;
      err := None;
    }

    /** `signature`, `before` and `after`: the text around the body. */
    method SetText(s: Option<string>, b: Option<string>, a: Option<string>)
      modifies this
      ensures signature == s && before == b && after == a
      ensures arguments == old(arguments) && names == old(names) && terms == old(terms)
      ensures body == old(body) && model == old(model)
    {
      signature, before, after := s, b, a;
    }

    /** `FunctionBuilder::build`. */
    function Build(): Result<string, string>
      reads this
    {
      S.FunctionBuild(signature, before, after, arguments, names, terms, body)
    }
  }

  /** The argument loops of `RulesBuilder::rule`: variable `i` of one side is read
      from `left[i + 1]` or `right[i + 1]`. */
  method ArgumentLines(fb: FunctionBuilder, ns: seq<A.Name>, left: bool)
    requires fb.Valid()
    modifies fb
    ensures fb.Valid()
    ensures fb.model == old(fb.model).(arguments := old(fb.model.arguments) + SideArgs(ns, left))
    ensures fb.signature == old(fb.signature)
    ensures fb.before == old(fb.before) && fb.after == old(fb.after)
  {
    ghost var start := fb.model.arguments;
    var i := 0;
    while i < |ns|
      invariant 0 <= i <= |ns|
      invariant fb.Valid()
      invariant fb.model == old(fb.model).(arguments := start + SideArgs(ns, left)[..i])
      invariant fb.signature == old(fb.signature)
      invariant fb.before == old(fb.before) && fb.after == old(fb.after)
    {
      fb.Argument(A.AsName(ns[i]), if left then Left(i + 1) else Right(i + 1));
      assert SideArgs(ns, left)[..i + 1] == SideArgs(ns, left)[..i] + [SideArgs(ns, left)[i]];
      i := i + 1;
    }
    assert SideArgs(ns, left)[..i] == SideArgs(ns, left);
  }

  class RulesBuilder {
    var rules: seq<(nat, nat)>
    var functions: seq<string>

    constructor ()
      ensures rules == [] && functions == []
    {
      rules, functions := [], [];
    }

    /** The function body of rule `id` in `RulesBuilder::rule`: the smaller-id
        agent's variables as `left[1..]`, the other's as `right[1..]`, then the
        equations. */
    static method RuleFunction(global: GlobalBuilder, id: nat, head: Head, es: seq<A.Equation>)
        returns (err: Option<string>, text: string, ghost b: Body)
      modifies global
      ensures BodyOut(b, global.agents, err)
           == CompileEquations(EmptyBody.(arguments := RuleArgs(head)), old(global.agents), es)
      ensures err.None? ==> text == S.RuleText(id, CompiledRule(head, b))
    {
      var fb := new FunctionBuilder();
      fb.SetText(Some(S.RuleSignature(id, head)), None, None);
      ArgumentLines(fb, head.termLeft.body, true);
      ArgumentLines(fb, head.termRight.body, false);
      assert fb.model == EmptyBody.(arguments := RuleArgs(head));
      err := fb.Equations(global, es);
      b := fb.model;
      var r := fb.Build();
      text := r.value;
    }

    /** `RulesBuilder::rule`: the C function `rule{id}` for the next id, and the
        agent pair it is registered under, smaller id first. */
    method Rule(global: GlobalBuilder, r: A.Rule) returns (err: Option<string>)
      modifies this, global
      ensures var x := S.AddRule(S.State(old(global.agents), old(rules), old(functions), EmptyBody, None), r);
        global.agents == x.0.agents && rules == x.0.pairs && functions == x.0.functions && err == x.1
    {
      ghost var st := S.State(old(global.agents), old(rules), old(functions), EmptyBody, None);
      var h := RuleHeadOf(global, r.termPair);
      if h.Err? {
        S.AddRuleHeadFails(st, r);
        return Some(h.error);
      }
      var head := h.value;
      var text;
      ghost var b;
      err, text, b := RuleFunction(global, |rules|, head, r.equations);
      if err.Some? {
        S.AddRuleBodyFails(st, r, head, b, global.agents, err.value);
        return;
      }
      S.AddRuleSucceeds(st, r, head, b, global.agents);
      rules := rules + [(head.agentLeft, head.agentRight)];
      functions := functions + [text];
    }

    /** `RulesBuilder::build`. */
    function Build(): string
      reads this
    {
      S.RulesText(rules, functions)
    }
  }

  class RuntimeBuilder {
    const global: GlobalBuilder
    const rules: RulesBuilder
    const main: FunctionBuilder
    var interface: Option<string>

    /** The builders' fields as one builder state. */
    ghost function Snapshot(): S.State
      reads this, global, rules, main
    {
      S.State(global.agents, rules.rules, rules.functions, main.model, interface)
    }

    /** `RuntimeBuilder::new`. */
    constructor ()
      ensures main.Valid() && Snapshot() == S.Initial
      ensures fresh(global) && fresh(rules) && fresh(main)
    {
      global := new GlobalBuilder();
      rules := new RulesBuilder();
      main := new FunctionBuilder();
      interface := None;
    }

    /** `RuntimeBuilder::rule`. */
    method Rule(r: A.Rule) returns (err: Option<string>)
      modifies global, rules
      ensures (Snapshot(), err) == S.AddRule(old(Snapshot()), r)
    {
      S.AddRuleFrame(Snapshot(), r);
      err := rules.Rule(global, r);
    }

    /** `RuntimeBuilder::interface`: the term goes into `main`, and its variable is
        what `main` prints. */
    method Interface(t: A.Term) returns (err: Option<string>)
      requires main.Valid()
      modifies this, global, main
      ensures main.Valid() && (Snapshot(), err) == S.SetInterface(old(Snapshot()), t)
    {
      var s := main.Term(global, t);
      if s.Err? {
        return Some(s.error);
      }
      interface := Some(s.value);
      err := None;
    }

    /** `RuntimeBuilder::program`: every rule, then the net's equations (each through
        `equation`, into `main`), then the interface. */
    method Program(p: S.Program) returns (err: Option<string>)
      requires main.Valid()
      modifies this, global, rules, main
      ensures main.Valid() && (Snapshot(), err) == S.AddProgram(old(Snapshot()), p)
    {
      ghost var st0 := Snapshot();
      var i := 0;
      while i < |p.rules|
        invariant 0 <= i <= |p.rules|
        invariant main.Valid() && main.model == st0.main && interface == st0.interface
        invariant (Snapshot(), None) == S.AddRules(st0, p.rules[..i])
      {
        S.AddRulesNext(st0, p.rules, i, Snapshot());
        err := rules.Rule(global, p.rules[i]);
        if err.Some? {
          S.AddRulesErrSticky(st0, p.rules, i + 1);
          return;
        }
        i := i + 1;
      }
      assert p.rules[..i] == p.rules;
      err := main.Equations(global, p.net);
      if err.Some? {
        return;
      }
      err := Interface(p.interface);
    }

    /** `RuntimeBuilder::build`: refuses a program without an interface; otherwise
        gives `main` its signature and its text around the body, and pastes the
        prelude, the agent table, the reduction loop, the rules and `main`
        together. */
    method Build(prelude: string, runtime: string) returns (r: Result<string, string>)
      requires main.Valid()
      modifies main
      ensures r == S.Build(old(Snapshot()), prelude, runtime)
    {
      if interface.None? {
        return Err(S.InterfaceMissing);
      }
      main.SetText(Some(S.MainSignature), Some(S.MainBefore), Some(S.MainAfter(interface.value)));
      var m := main.Build();
      var g := S.GlobalText(global.agents);
      var rs := rules.Build();
      r := Ok(S.ProgramText(prelude, runtime, g, rs, m.value));
    }
  }
}
