/** What the string-emitting builder of src/runtime.rs produces, as functions on
    values.  It walks the syntax exactly as the other two builders do (the shared
    steps of CompileSpec), but instead of instructions it pushes lines of C: a local
    is the C variable `a{i}` (an argument), `x{i}` (a name) or `t{i}` (an agent), a
    stored slot is `t[j] = (size_t) v;` and an equation is `push_equation(l, r);`.
    The prelude and the C reduction loop it pastes around the generated code are
    taken as parameters. */
module LegacySpec {

  import opened Wrappers
  import opened Strings
  import opened Locals
  import opened CompileSpec
  import CompileFacts
  import A = Ast

  /** The program src/runtime.rs reads: the rules, the net's equations, and a single
      interface term. */
  datatype Program = Program(rules: seq<A.Rule>, net: seq<A.Equation>, interface: A.Term)

  const SignatureMissing := "signature is not given"
  const InterfaceMissing := "interface is not given"

  // ---------------------------------------------------------------------------
  // Locals and lines

  /** The letter of a C variable: `a` for an argument, `x` for a name, `t` for an
      agent. */
  function LocalLetter(l: Local): char
  {
    match l
    case Slot(_) => 'a'
    case Name(_) => 'x'
    case Agent(_) => 't'
  }

  function LocalText(l: Local): string
  {
    [LocalLetter(l)] + NatToString(l.index)
  }

  function LocalOf(c: char, i: nat): Local
  {
    if c == 'a' then Slot(i) else if c == 'x' then Name(i) else Agent(i)
  }

  /** Reads a C variable back from the front of `s`. */
  function ParseLocalText(s: string): Option<(Local, string)>
  {
    if |s| == 0 || s[0] !in "axt" then None
    else
      match ParseNatPrefix(s[1..])
      case None => None
      case Some((i, rest)) => Some((LocalOf(s[0], i), rest))
  }

  /** A variable followed by a non-digit reads back as the same local. */
  lemma LocalTextRoundTrip(l: Local, rest: string)
    requires rest == [] || !IsDigit(rest[0])
    ensures ParseLocalText(LocalText(l) + rest) == Some((l, rest))
  {
    var s := LocalText(l) + rest;
    assert s[0] == LocalLetter(l);
    assert s[1..] == NatToString(l.index) + rest;
    ParseNatPrefixOf(l.index, rest);
  }

  /** Different locals get different C variables. */
  lemma LocalTextInjective(a: Local, b: Local)
    ensures LocalText(a) == LocalText(b) ==> a == b
  {
    if LocalText(a) == LocalText(b) {
      LocalTextRoundTrip(a, "");
      LocalTextRoundTrip(b, "");
      assert LocalText(a) + "" == LocalText(b) + "";
    }
  }

  /** What `term` returns: the variable of the local, or the error. */
  function ResultText(r: Result<Local, string>): Result<string, string>
  {
    match r
    case Ok(l) => Ok(LocalText(l))
    case Err(e) => Err(e)
  }

  /** The expression an argument is read from: element `j` of `left` or `right`. */
  function ArgExpr(slot: ArgSlot): string
  {
    match slot
    case Left(j) => "(size_t*) left[" + NatToString(j) + "]"
    case Right(j) => "(size_t*) right[" + NatToString(j) + "]"
  }

  /** The line `term` or `equation` pushes for a step. */
  function OpText(op: Op): string
  {
    match op
    case SetOp(t, j, v) => LocalText(t) + "[" + NatToString(j) + "] = (size_t) " + LocalText(v) + ";"
    case PushOp(l, r, _) => "push_equation(" + LocalText(l) + ", " + LocalText(r) + ");"
  }

  function ArgTexts(args: seq<(string, ArgSlot)>): (r: seq<(string, string)>)
    ensures |r| == |args| && forall k :: 0 <= k < |args| ==> r[k] == (args[k].0, ArgExpr(args[k].1))
  {
    seq(|args|, k requires 0 <= k < |args| => (args[k].0, ArgExpr(args[k].1)))
  }

  function OpTexts(ops: seq<Op>): (r: seq<string>)
    ensures |r| == |ops| && forall k :: 0 <= k < |ops| ==> r[k] == OpText(ops[k])
  {
    seq(|ops|, k requires 0 <= k < |ops| => OpText(ops[k]))
  }

  lemma ArgTextsSnoc(args: seq<(string, ArgSlot)>, a: (string, ArgSlot))
    ensures ArgTexts(args + [a]) == ArgTexts(args) + [(a.0, ArgExpr(a.1))]
  {
  }

  lemma OpTextsSnoc(ops: seq<Op>, op: Op)
    ensures OpTexts(ops + [op]) == OpTexts(ops) + [OpText(op)]
  {
  }

  // ---------------------------------------------------------------------------
  // `FunctionBuilder::build`

  function ArgumentLines(args: seq<(string, string)>): (r: seq<string>)
    ensures |r| == |args| && forall k :: 0 <= k < |args| ==>
      r[k] == DeclPrefix + (LocalText(Slot(k)) + (" = " + (args[k].1 + ";")))
  {
    seq(|args|, k requires 0 <= k < |args| => DeclPrefix + (LocalText(Slot(k)) + (" = " + (args[k].1 + ";"))))
  }

  function NameLines(n: nat): (r: seq<string>)
    ensures |r| == n && forall k :: 0 <= k < n ==> r[k] == DeclPrefix + (LocalText(Name(k)) + (" = " + "new_name();"))
  {
    seq(n, k requires 0 <= k < n => DeclPrefix + (LocalText(Name(k)) + (" = " + "new_name();")))
  }

  function TermLines(terms: seq<nat>): (r: seq<string>)
    ensures |r| == |terms| && forall k :: 0 <= k < |terms| ==>
      r[k] == DeclPrefix + (LocalText(Agent(k)) + (" = " + ("new_agent(" + NatToString(terms[k]) + ");")))
  {
    seq(|terms|, k requires 0 <= k < |terms| =>
      DeclPrefix + (LocalText(Agent(k)) + (" = " + ("new_agent(" + NatToString(terms[k]) + ");"))))
  }

  const DeclPrefix := "    size_t* "

  /** The C variable a declaration line `size_t* v = …;` declares. */
  function DeclaredLocal(line: string): Option<Local>
  {
    match After(line, DeclPrefix)
    case None => None
    case Some(t) =>
      match ParseLocalText(t)
      case None => None
      case Some((l, rest)) => if After(rest, " = ").Some? then Some(l) else None
  }

  /** A declaration of `l` with initializer `init` reads back as declaring `l`. */
  lemma DeclaredLocalOf(l: Local, init: string)
    ensures DeclaredLocal(DeclPrefix + (LocalText(l) + (" = " + init))) == Some(l)
  {
    var rest := " = " + init;
    AfterOf(DeclPrefix, LocalText(l) + rest);
    LocalTextRoundTrip(l, rest);
    AfterOf(" = ", init);
  }

  /** The declarations of a function, in the order `FunctionBuilder::build` writes
      them: the arguments, then the names, then the agents. */
  function Declarations(args: seq<(string, string)>, names: nat, terms: seq<nat>): seq<string>
  {
    ArgumentLines(args) + NameLines(names) + TermLines(terms)
  }

  /** Where a body's local is declared. */
  function DeclIndex(b: Body, l: Local): nat
  {
    match l
    case Slot(i) => i
    case Name(i) => |b.arguments| + i
    case Agent(i) => |b.arguments| + |b.names| + i
  }

  /** The local declared at line `d`, after `na` arguments and `nn` names. */
  function DeclaredAt(na: nat, nn: nat, d: nat): Local
  {
    if d < na then Slot(d) else if d < na + nn then Name(d - na) else Agent(d - na - nn)
  }

  lemma DeclarationLine(args: seq<(string, string)>, nn: nat, terms: seq<nat>, d: nat)
    requires d < |args| + nn + |terms|
    ensures DeclaredLocal(Declarations(args, nn, terms)[d]) == Some(DeclaredAt(|args|, nn, d))
  {
    var ds := Declarations(args, nn, terms);
    var na := |args|;
    if d < na {
      assert ds[d] == ArgumentLines(args)[d];
      DeclaredLocalOf(Slot(d), args[d].1 + ";");
    } else if d < na + nn {
      assert ds[d] == NameLines(nn)[d - na];
      DeclaredLocalOf(Name(d - na), "new_name();");
    } else {
      assert ds[d] == TermLines(terms)[d - na - nn];
      DeclaredLocalOf(Agent(d - na - nn), "new_agent(" + NatToString(terms[d - na - nn]) + ");");
    }
  }

  /** The declaration lines of a body's C function declare `a0…`, then `x0…`, then
      `t0…`: every local the body may use (every `InScope` one) is declared at its own
      line, and no variable is declared twice. */
  lemma BodyDeclarations(b: Body)
    ensures var ds := Declarations(ArgTexts(b.arguments), |b.names|, b.terms);
      && |ds| == |b.arguments| + |b.names| + |b.terms|
      && (forall l :: CompileFacts.InScope(b, l) ==> DeclIndex(b, l) < |ds| && DeclaredLocal(ds[DeclIndex(b, l)]) == Some(l))
      && (forall d, e :: 0 <= d < e < |ds| ==> DeclaredLocal(ds[d]) != DeclaredLocal(ds[e]))
  {
    var args := ArgTexts(b.arguments);
    var ds := Declarations(args, |b.names|, b.terms);
    var na, nn := |b.arguments|, |b.names|;
    forall d | 0 <= d < |ds|
      ensures DeclaredLocal(ds[d]) == Some(DeclaredAt(na, nn, d))
    {
      DeclarationLine(args, nn, b.terms, d);
    }
    forall l | CompileFacts.InScope(b, l)
      ensures DeclIndex(b, l) < |ds| && DeclaredLocal(ds[DeclIndex(b, l)]) == Some(l)
    {
      assert DeclaredAt(na, nn, DeclIndex(b, l)) == l;
    }
  }

  /** The C function text: its signature, then the `before` text, the argument,
      name and agent declarations, the body lines and the `after` text. */
  function FunctionText(signature: string, before: string, after: string,
                        args: seq<(string, string)>, names: seq<string>, terms: seq<nat>,
                        body: seq<string>): string
  {
    "\n" + signature + " {\n" + before + "\n" + Join(ArgumentLines(args), "\n") + "\n"
      + Join(NameLines(|names|), "\n") + "\n" + Join(TermLines(terms), "\n") + "\n"
      + Join(Indent(body), "\n") + "\n" + after + "\n}\n"
  }

  /** `unwrap_or_default` on an optional text. */
  function OrEmpty(o: Option<string>): string
  {
    match o
    case None => ""
    case Some(s) => s
  }

  /** `FunctionBuilder::build`: fails exactly when no signature was given; a missing
      `before` or `after` is empty. */
  function FunctionBuild(signature: Option<string>, before: Option<string>, after: Option<string>,
                         args: seq<(string, string)>, names: seq<string>, terms: seq<nat>,
                         body: seq<string>): (r: Result<string, string>)
    ensures r.Err? <==> signature.None?
    ensures r.Err? ==> r.error == SignatureMissing
  {
    match signature
    case None => Err(SignatureMissing)
    case Some(s) =>
      Ok(FunctionText(s, OrEmpty(before), OrEmpty(after), args, names, terms, body))
  }

  /** The function text of a body, under a given signature. */
  function BodyText(signature: string, before: string, after: string, b: Body): string
  {
    FunctionText(signature, before, after, ArgTexts(b.arguments), b.names, b.terms, OpTexts(b.ops))
  }

  // ---------------------------------------------------------------------------
  // `GlobalBuilder::build`

  function Quoted(agents: seq<AgentMeta>): (r: seq<string>)
    ensures |r| == |agents| && forall k :: 0 <= k < |agents| ==> r[k] == "\"" + agents[k].name + "\""
  {
    seq(|agents|, k requires 0 <= k < |agents| => "\"" + agents[k].name + "\"")
  }

  function Arities(agents: seq<AgentMeta>): (r: seq<string>)
    ensures |r| == |agents| && forall k :: 0 <= k < |agents| ==> r[k] == NatToString(agents[k].arity)
  {
    seq(|agents|, k requires 0 <= k < |agents| => NatToString(agents[k].arity))
  }

  /** The `AGENTS` list, split at its separators, gives back each agent's name
      between quotes, in id order, when no name contains a comma. */
  lemma GlobalTextNames(agents: seq<AgentMeta>)
    requires |agents| > 0
    requires forall k :: 0 <= k < |agents| ==> ',' !in agents[k].name
    ensures Split(Join(Quoted(agents), ", "), ", ") == Quoted(agents)
    ensures forall k :: 0 <= k < |agents| ==> var q := Quoted(agents)[k];
      |q| >= 2 && q[0] == '"' && q[|q| - 1] == '"' && q[1..|q| - 1] == agents[k].name
  {
    var xs := Quoted(agents);
    forall i | 0 <= i < |xs| ensures ", "[0] !in xs[i] {
      assert xs[i] == "\"" + agents[i].name + "\"";
    }
    SplitJoin(xs, ", ");
    forall k | 0 <= k < |agents|
      ensures |xs[k]| >= 2 && xs[k][0] == '"' && xs[k][|xs[k]| - 1] == '"' && xs[k][1..|xs[k]| - 1] == agents[k].name
    {
      assert xs[k] == "\"" + agents[k].name + "\"";
    }
  }

  const AgentCountPrefix := "\n#define AGENT_COUNT "

  /** The agent table as C: the count, the names and the arities, in id order. */
  function GlobalText(agents: seq<AgentMeta>): string
  {
    AgentCountPrefix + NatToString(|agents|) + AgentLists(agents)
  }

  /** The lines after `AGENT_COUNT`: the names, quoted, and the arities. */
  function AgentLists(agents: seq<AgentMeta>): string
  {
    "\nchar* AGENTS[] = { " + Join(Quoted(agents), ", ")
      + " };\nsize_t ARITY[] = { " + Join(Arities(agents), ", ")
      + " };\nsize_t NAME_COUNTER = AGENT_COUNT;\n"
  }

  /** `AGENT_COUNT` reads back as the number of agents. */
  lemma GlobalTextCount(agents: seq<AgentMeta>)
    ensures var s := GlobalText(agents);
      && s[..|AgentCountPrefix|] == AgentCountPrefix
      && ParseNatPrefix(s[|AgentCountPrefix|..]) == Some((|agents|, AgentLists(agents)))
  {
    var s := GlobalText(agents);
    assert s == AgentCountPrefix + (NatToString(|agents|) + AgentLists(agents));
    assert s[|AgentCountPrefix|..] == NatToString(|agents|) + AgentLists(agents);
    ParseNatPrefixOf(|agents|, AgentLists(agents));
  }

  /** The arity list, split at its separators, gives back each agent's arity, in
      id order. */
  lemma GlobalTextArities(agents: seq<AgentMeta>)
    requires |agents| > 0
    ensures Split(Join(Arities(agents), ", "), ", ") == Arities(agents)
    ensures forall k :: 0 <= k < |agents| ==> ParseDigits(Arities(agents)[k]) == agents[k].arity
  {
    var xs := Arities(agents);
    forall i | 0 <= i < |xs| ensures ", "[0] !in xs[i] {
      DigitsFree(xs[i]);
    }
    SplitJoin(xs, ", ");
    forall k | 0 <= k < |agents| ensures ParseDigits(xs[k]) == agents[k].arity {
      ParseNatToString(agents[k].arity);
    }
  }

  /** A decimal number has neither separator in it. */
  lemma DigitsFree(d: string)
    requires AllDigits(d)
    ensures ',' !in d && '\n' !in d
  {
    forall j | 0 <= j < |d| ensures d[j] != ',' && d[j] != '\n' {
      assert IsDigit(d[j]);
    }
  }

  // ---------------------------------------------------------------------------
  // `RulesBuilder`

  /** The signature of the C function of rule `id`, with its two agents (the one with
      the smaller id first) in a comment. */
  function RuleSignature(id: nat, h: Head): string
  {
    "void rule" + NatToString(id) + " /* " + h.termLeft.agent + "(" + NatToString(h.agentLeft) + "), "
      + h.termRight.agent + "(" + NatToString(h.agentRight) + ") */ (size_t* left, size_t* right)"
  }

  /** The C function of a compiled rule. */
  function RuleText(id: nat, c: CompiledRule): string
  {
    BodyText(RuleSignature(id, c.head), "", "", c.body)
  }

  function InitLine(id: nat, pair: (nat, nat)): string
  {
    "    RULES[" + NatToString(pair.0) + "][" + NatToString(pair.1) + "] = rule" + NatToString(id) + ";"
  }

  function InitLines(pairs: seq<(nat, nat)>): (r: seq<string>)
    ensures |r| == |pairs| && forall k :: 0 <= k < |pairs| ==> r[k] == InitLine(k, pairs[k])
  {
    seq(|pairs|, k requires 0 <= k < |pairs| => InitLine(k, pairs[k]))
  }

  /** `RulesBuilder::build`: every rule function, then `init_rules`, which files
      rule `k` under its two agent ids. */
  function RulesText(pairs: seq<(nat, nat)>, functions: seq<string>): string
  {
    "\n" + Join(functions, "\n") + "\n\nvoid init_rules() {\n" + Join(InitLines(pairs), "\n") + "\n}\n"
  }

  /** The body of `init_rules`, split into lines, is one `RULES` assignment per
      rule, in order. */
  lemma InitLinesSplit(pairs: seq<(nat, nat)>)
    requires |pairs| > 0
    ensures Split(Join(InitLines(pairs), "\n"), "\n") == InitLines(pairs)
  {
    var xs := InitLines(pairs);
    forall i | 0 <= i < |xs| ensures "\n"[0] !in xs[i] {
      var p := pairs[i];
      DigitsFree(NatToString(p.0));
      DigitsFree(NatToString(p.1));
      DigitsFree(NatToString(i));
    }
    SplitJoin(xs, "\n");
  }

  // ---------------------------------------------------------------------------
  // The builder state

  /** `RuntimeBuilder`'s fields: the agent table, the rule pairs with their C
      functions, the `main` function body, and the interface variable. */
  datatype State = State(agents: seq<AgentMeta>, pairs: seq<(nat, nat)>, functions: seq<string>,
                         main: Body, interface: Option<string>)

  const Initial := State(InitialAgents, [], [], EmptyBody, None)

  /** `RulesBuilder::rule`: the rule is compiled into a C function named after its
      position, and its agent pair, smaller id first, is recorded. */
  function AddRule(st: State, r: A.Rule): (State, Option<string>)
  {
    var o := CompileRule(st.agents, r);
    match o.result
    case Err(e) => (st.(agents := o.agents), Some(e))
    case Ok(c) =>
      (st.(agents := o.agents,
           pairs := st.pairs + [(c.head.agentLeft, c.head.agentRight)],
           functions := st.functions + [RuleText(|st.pairs|, c)]),
       None)
  }

  function AddRules(st: State, rs: seq<A.Rule>): (State, Option<string>)
  {
    if |rs| == 0 then (st, None)
    else
      var p := AddRules(st, rs[..|rs| - 1]);
      if p.1.Some? then p else AddRule(p.0, rs[|rs| - 1])
  }

  /** `RuntimeBuilder::equation`, over a list: the equations go into `main`. */
  function AddEquations(st: State, es: seq<A.Equation>): (State, Option<string>)
  {
    var o := CompileEquations(st.main, st.agents, es);
    (st.(agents := o.agents, main := o.body), o.error)
  }

  /** `RuntimeBuilder::interface`: the term is compiled into `main` and its variable
      recorded. */
  function SetInterface(st: State, t: A.Term): (State, Option<string>)
  {
    var o := CompileTerm(st.main, st.agents, t);
    match o.result
    case Err(e) => (st.(agents := o.agents, main := o.body), Some(e))
    case Ok(l) => (st.(agents := o.agents, main := o.body, interface := Some(LocalText(l))), None)
  }

  /** `RuntimeBuilder::program`: all rules, then the net's equations, then the
      interface, stopping at the first error. */
  function AddProgram(st: State, p: Program): (State, Option<string>)
  {
    var x := AddRules(st, p.rules);
    if x.1.Some? then x
    else
      var y := AddEquations(x.0, p.net);
      if y.1.Some? then y else SetInterface(y.0, p.interface)
  }

  const MainSignature := "int main()"
  const MainBefore := "\n    clock_t start = clock();\n                "

  /** The text after `main`'s body: run the net, print the interface, then the
      timing report. */
  function MainAfter(interface: string): string
  {
    "\n    run();\n    print_term(" + interface + MainReport
  }

  const MainReport := ", 1000);\n    printf(\"\\n\");\n\n    clock_t end = clock();\n    double time = (double) (end - start) / CLOCKS_PER_SEC;\n    double reductions_per_second = (double) REDUCTIONS / time;\n\n    printf(\"\\n[Reductions: %zu, CPU time: %f, R/s: %f]\\n\", REDUCTIONS, time, reductions_per_second);\n    \n    return 0;\n"

  /** The whole C program: prelude, agent table, reduction loop, rules, `main`. */
  function ProgramText(prelude: string, runtime: string, global: string, rules: string, main: string): string
  {
    "\n" + prelude + "\n" + global + "\n" + runtime + "\n" + rules + "\n" + main + "\n"
  }

  /** `RuntimeBuilder::build`: fails exactly when no interface was given; otherwise
      `main` gets its signature and its `before`/`after` text around the body. */
  function Build(st: State, prelude: string, runtime: string): (r: Result<string, string>)
    ensures r.Err? <==> st.interface.None?
    ensures r.Err? ==> r.error == InterfaceMissing
  {
    match st.interface
    case None => Err(InterfaceMissing)
    case Some(i) =>
      Ok(ProgramText(prelude, runtime, GlobalText(st.agents), RulesText(st.pairs, st.functions),
                     BodyText(MainSignature, MainBefore, MainAfter(i), st.main)))
  }

  // ---------------------------------------------------------------------------
  // Properties

  /** What holds between steps: the table starts with `$`/1 and has distinct names,
      there is one C function per rule pair, and every pair has the smaller agent id
      first. */
  predicate Valid(st: State)
  {
    && |st.agents| > 0 && st.agents[0] == AgentMeta("$", 1)
    && Distinct(AgentNames(st.agents))
    && |st.functions| == |st.pairs|
    && forall k :: 0 <= k < |st.pairs| ==> st.pairs[k].0 <= st.pairs[k].1 < |st.agents|
  }

  lemma TableKept(g: seq<AgentMeta>, g2: seq<AgentMeta>)
    requires |g| > 0 && g[0] == AgentMeta("$", 1) && IsPrefix(g, g2)
    ensures |g2| > 0 && g2[0] == AgentMeta("$", 1)
  {
    assert g2[..|g|][0] == g2[0];
  }

  lemma AddRuleValid(st: State, r: A.Rule)
    requires Valid(st)
    ensures Valid(AddRule(st, r).0)
  {
    var o := CompileRule(st.agents, r);
    CompileFacts.RuleTableDistinct(st.agents, r);
    TableKept(st.agents, o.agents);
  }

  lemma {:induction false} AddRulesValid(st: State, rs: seq<A.Rule>)
    requires Valid(st)
    ensures Valid(AddRules(st, rs).0)
    ensures AddRules(st, rs).0.main == st.main && AddRules(st, rs).0.interface == st.interface
    decreases |rs|
  {
    if |rs| > 0 {
      AddRulesValid(st, rs[..|rs| - 1]);
      AddRuleValid(AddRules(st, rs[..|rs| - 1]).0, rs[|rs| - 1]);
    }
  }

  lemma AddEquationsValid(st: State, es: seq<A.Equation>)
    requires Valid(st)
    ensures Valid(AddEquations(st, es).0)
  {
    var o := CompileEquations(st.main, st.agents, es);
    CompileFacts.EquationsTableDistinct(st.main, st.agents, es);
    TableKept(st.agents, o.agents);
    forall k | 0 <= k < |st.pairs| ensures st.pairs[k].1 < |o.agents| {
    }
  }

  lemma SetInterfaceValid(st: State, t: A.Term)
    requires Valid(st)
    ensures Valid(SetInterface(st, t).0)
  {
    var o := CompileTerm(st.main, st.agents, t);
    CompileFacts.TermTableDistinct(st.main, st.agents, t);
    TableKept(st.agents, o.agents);
  }

  /** A program whose rules, equations and interface all compile builds: its
      interface is then set, so `build` has the variable to print.  Whatever happens,
      every recorded rule pair has the smaller id first. */
  lemma ProgramBuilds(p: Program, prelude: string, runtime: string)
    ensures Valid(AddProgram(Initial, p).0)
    ensures AddProgram(Initial, p).1.None? ==> Build(AddProgram(Initial, p).0, prelude, runtime).Ok?
  {
    var x := AddRules(Initial, p.rules);
    AddRulesValid(Initial, p.rules);
    if x.1.None? {
      var y := AddEquations(x.0, p.net);
      AddEquationsValid(x.0, p.net);
      if y.1.None? {
        SetInterfaceValid(y.0, p.interface);
      }
    }
  }

  // ---------------------------------------------------------------------------
  // Facts the builder classes rely on

  /** The first rule that fails ends `program`: later rules change nothing. */
  lemma {:induction false} AddRulesErrSticky(st: State, rs: seq<A.Rule>, i: nat)
    requires i <= |rs| && AddRules(st, rs[..i]).1.Some?
    ensures AddRules(st, rs) == AddRules(st, rs[..i])
    decreases |rs|
  {
    if i < |rs| {
      var front := rs[..|rs| - 1];
      assert front[..i] == rs[..i];
      AddRulesErrSticky(st, front, i);
    } else {
      assert rs[..i] == rs;
    }
  }

  /** A rule step reads and writes only the agent table and the rule lists. */
  lemma AddRuleFrame(st: State, r: A.Rule)
    ensures var x := AddRule(State(st.agents, st.pairs, st.functions, EmptyBody, None), r);
      AddRule(st, r) == (st.(agents := x.0.agents, pairs := x.0.pairs, functions := x.0.functions), x.1)
  {
  }

  /** One more rule of `program`, as the rules builder sees it. */
  lemma AddRulesNext(st0: State, rs: seq<A.Rule>, i: nat, st: State)
    requires i < |rs| && AddRules(st0, rs[..i]) == (st, None)
    ensures var x := AddRule(State(st.agents, st.pairs, st.functions, EmptyBody, None), rs[i]);
      AddRules(st0, rs[..i + 1]) == (st.(agents := x.0.agents, pairs := x.0.pairs, functions := x.0.functions), x.1)
  {
    assert rs[..i + 1][..i] == rs[..i];
    AddRuleFrame(st, rs[i]);
  }

  /** A rule step whose head fails records the table as far as it got. */
  lemma AddRuleHeadFails(st: State, r: A.Rule)
    requires RuleHead(st.agents, r.termPair).result.Err?
    ensures var h := RuleHead(st.agents, r.termPair);
      AddRule(st, r) == (st.(agents := h.agents), Some(h.result.error))
  {
  }

  /** A rule step whose head succeeds but whose equations fail. */
  lemma AddRuleBodyFails(st: State, r: A.Rule, head: Head, b: Body, g: seq<AgentMeta>, e: string)
    requires RuleHead(st.agents, r.termPair).result == Ok(head)
    requires CompileEquations(EmptyBody.(arguments := RuleArgs(head)),
                              RuleHead(st.agents, r.termPair).agents, r.equations) == BodyOut(b, g, Some(e))
    ensures AddRule(st, r) == (st.(agents := g), Some(e))
  {
  }

  /** A rule step that succeeds, given what its head and equations compile to. */
  lemma AddRuleSucceeds(st: State, r: A.Rule, head: Head, b: Body, g: seq<AgentMeta>)
    requires RuleHead(st.agents, r.termPair).result == Ok(head)
    requires CompileEquations(EmptyBody.(arguments := RuleArgs(head)),
                              RuleHead(st.agents, r.termPair).agents, r.equations) == BodyOut(b, g, None)
    ensures AddRule(st, r) ==
        (st.(agents := g,
             pairs := st.pairs + [(head.agentLeft, head.agentRight)],
             functions := st.functions + [RuleText(|st.pairs|, CompiledRule(head, b))]),
         None)
  {
  }
}
