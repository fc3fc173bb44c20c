/** The runtime builder of src/backend/builder.rs as objects: `RulesBuilder`,
    `FunctionsBuilder` and the `RuntimeBuilder` that owns them and the agent table.
    Each method updates its fields in place and is proved to reach the state the
    matching function of BackendSpec computes, so everything proved there about
    valid states holds of these objects. */
module BackendBuilder {

  import opened Wrappers
  import opened Locals
  import opened BackendIr
  import opened CompileSpec
  import opened Builders
  import S = BackendSpec
  import A = Ast

  class RulesBuilder {
    var rules: seq<Rule>
    var ruleMap: seq<(nat, nat, nat)>

    constructor ()
      ensures rules == [] && ruleMap == []
    {
      rules, ruleMap := [], [];
    }

    /** `RulesBuilder::rule`: the two head agents are looked up in the order written,
        the side with the smaller id becomes the left one, its variables and then the
        other side's become the arguments, the equations are compiled, and the rule
        is filed under the next index. */
    method Rule(global: GlobalBuilder, r: A.Rule) returns (err: Option<string>)
      modifies this, global
      ensures var x := S.AddRule(S.State(old(global.agents), old(rules), old(ruleMap), [], [], None), r);
        global.agents == x.0.agents && rules == x.0.rules && ruleMap == x.0.ruleMap && err == x.1
    {
      var description := A.RuleToString(r);
      ghost var st := S.State(old(global.agents), old(rules), old(ruleMap), [], [], None);
      var h := RuleHeadOf(global, r.termPair);
      if h.Err? {
        S.AddRuleHeadFails(st, r);
        return Some(h.error);
      }
      var head := h.value;
      var b;
      err, b := RuleBody(global, head, r.equations);
      if err.Some? {
        S.AddRuleBodyFails(st, r, head, b, global.agents, err.value);
        return;
      }
      S.AddRuleSucceeds(st, r, head, b, global.agents);
      var built := S.BuildRule(b);
      var index := |rules|;
      rules := rules + [BackendIr.Rule(index, description, built.0, built.1)];
      ruleMap := ruleMap + [(head.agentLeft, head.agentRight, index)];
    }
  }

  class FunctionsBuilder {
    var functions: seq<Function>
    var functionMeta: seq<FunctionMeta>
    var entryPoint: Option<nat>

    constructor ()
      ensures functions == [] && functionMeta == [] && entryPoint == None
    {
      functions, functionMeta, entryPoint := [], [], None;
    }

    /** `entry_point`: refuses a second entry point. */
    method EntryPoint(index: nat) returns (err: Option<string>)
      modifies this
      ensures old(entryPoint).Some? ==> err == Some(S.EntryExists) && entryPoint == old(entryPoint)
      ensures old(entryPoint).None? ==> err == None && entryPoint == Some(index)
      ensures functions == old(functions) && functionMeta == old(functionMeta)
    {
      if entryPoint.Some? {
        return Some(S.EntryExists);
      }
      entryPoint := Some(index);
      err := None;
    }

    /** `FunctionsBuilder::function`: a net named `Main` becomes the entry point
        first; then the equations and the interface terms are compiled, and the
        function is filed under the next index with its output count. */
    method Function(global: GlobalBuilder, n: A.Net) returns (err: Option<string>)
      modifies this, global
      ensures var x := S.AddFunction(S.State(old(global.agents), [], [], old(functions),
                                             old(functionMeta), old(entryPoint)), n);
        && global.agents == x.0.agents && functions == x.0.functions
        && functionMeta == x.0.functionMeta && entryPoint == x.0.entryPoint && err == x.1
    {
      if n.name == "Main" {
        err := EntryPoint(|functions|);
        if err.Some? {
          return;
        }
      }
      var body := new BodyBuilder();
      err := body.Equations(global, n.equations);
      if err.Some? {
        return;
      }
      var outputs := body.Outputs(global, n.interfaces);
      if outputs.Err? {
        return Some(outputs.error);
      }
      var built := S.BuildFunction(body.State());
      var index := |functions|;
      functions := functions + [BackendIr.Function(index, built.0, built.1, outputs.value)];
      functionMeta := functionMeta + [FunctionMeta(n.name, |n.interfaces|)];
    }
  }

  class RuntimeBuilder {
    const global: GlobalBuilder
    const rules: RulesBuilder
    const functions: FunctionsBuilder

    /** The three builders' fields as one builder state. */
    function Snapshot(): S.State
      reads this, global, rules, functions
    {
      S.State(global.agents, rules.rules, rules.ruleMap,
              functions.functions, functions.functionMeta, functions.entryPoint)
    }

    /** `RuntimeBuilder::new`. */
    constructor ()
      ensures Snapshot() == S.Initial
      ensures fresh(global) && fresh(rules) && fresh(functions)
    {
      global := new GlobalBuilder();
      rules := new RulesBuilder();
      functions := new FunctionsBuilder();
    }

    /** `RuntimeBuilder::module`: every rule, then every net, stopping at the first
        error. */
    method Module(m: A.Module) returns (err: Option<string>)
      modifies global, rules, functions
      ensures (Snapshot(), err) == S.AddModule(old(Snapshot()), m)
    {
      ghost var st0 := Snapshot();
      var i := 0;
      while i < |m.rules|
        invariant 0 <= i <= |m.rules|
        invariant (Snapshot(), None) == S.AddRules(st0, m.rules[..i])
      {
        S.AddRulesNext(st0, m.rules, i, Snapshot());
        err := rules.Rule(global, m.rules[i]);
        if err.Some? {
          S.AddRulesErrSticky(st0, m.rules, i + 1);
          return;
        }
        i := i + 1;
      }
      assert m.rules[..i] == m.rules;
      ghost var st1 := Snapshot();
      i := 0;
      while i < |m.nets|
        invariant 0 <= i <= |m.nets|
        invariant (Snapshot(), None) == S.AddFunctions(st1, m.nets[..i])
      {
        S.AddFunctionsNext(st1, m.nets, i, Snapshot());
        err := functions.Function(global, m.nets[i]);
        if err.Some? {
          S.AddFunctionsErrSticky(st1, m.nets, i + 1);
          return;
        }
        i := i + 1;
      }
      assert m.nets[..i] == m.nets;
      err := None;
    }

    /** `RuntimeBuilder::build`: the program, or an error when no entry point was
        declared. */
    method Build() returns (r: Result<Program, string>)
      ensures r == S.Build(Snapshot())
    {
      match functions.entryPoint
      case None =>
        r := Err(S.EntryMissing);
      case Some(e) =>
        r := Ok(Program(global.agents, rules.rules, rules.ruleMap,
                        functions.functions, functions.functionMeta, e));
    }
  }

  /** `RuntimeBuilder::build_runtime`. */
  method BuildRuntime(m: A.Module) returns (r: Result<Program, string>)
    ensures r == S.BuildRuntime(m)
  {
    var builder := new RuntimeBuilder();
    var err := builder.Module(m);
    if err.Some? {
      return Err(err.value);
    }
    r := builder.Build();
  }
}
