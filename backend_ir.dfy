/** The intermediate representation the backend builders produce (src/backend/mod.rs)
    and its `Display` implementations, which print it as JavaScript-like text.
    `AgentId` is a plain `nat`: the Rust newtype derives its order from the wrapped
    `usize`, which is exactly the order of `nat`. */
module BackendIr {

  import opened Wrappers
  import opened Strings
  import opened Locals

  datatype RuleInitializer =
    | InitName(index: nat)
    | InitAgent(index: nat, id: nat)
    | SlotFromLeft(index: nat, slot: nat)
    | SlotFromRight(index: nat, slot: nat)
    | ReuseLeft(index: nat)
    | ReuseRight(index: nat)

  datatype NetInitializer = NetName(index: nat) | NetAgent(index: nat, id: nat)

  datatype RuleInstruction =
    | SetSlot(target: Local, slot: nat, value: Local)
    | PushEquation(left: Local, right: Local, description: string)
    | FreeLeft
    | FreeRight

  datatype NetInstruction =
    | NetSetSlot(target: Local, slot: nat, value: Local)
    | NetPushEquation(left: Local, right: Local, description: string)

  datatype Rule = Rule(index: nat, description: string,
                       initializers: seq<RuleInitializer>, instructions: seq<RuleInstruction>)

  datatype Function = Function(index: nat, initializers: seq<NetInitializer>,
                               instructions: seq<NetInstruction>, outputs: seq<Local>)

  datatype FunctionMeta = FunctionMeta(name: string, outputCount: nat)

  datatype Program = Program(agents: seq<AgentMeta>, rules: seq<Rule>,
                             ruleMap: seq<(nat, nat, nat)>, functions: seq<Function>,
                             functionMeta: seq<FunctionMeta>, entryPoint: nat)

  /** The local an initializer declares. */
  function RuleInitLocal(i: RuleInitializer): Local
  {
    match i
    case InitName(k) => Name(k)
    case InitAgent(k, _) => Agent(k)
    case SlotFromLeft(k, _) => Slot(k)
    case SlotFromRight(k, _) => Slot(k)
    case ReuseLeft(k) => Agent(k)
    case ReuseRight(k) => Agent(k)
  }

  function NetInitLocal(i: NetInitializer): Local
  {
    match i
    case NetName(k) => Name(k)
    case NetAgent(k, _) => Agent(k)
  }

  // ---------------------------------------------------------------------------
  // Display

  /** The letter a local prints with. */
  function LocalLetter(l: Local): char
  {
    match l
    case Name(_) => 'x'
    case Agent(_) => 'a'
    case Slot(_) => 's'
  }

  function LocalToString(l: Local): string
  {
    [LocalLetter(l)] + NatToString(l.index)
  }

  function LocalOf(c: char, i: nat): Local
  {
    if c == 'x' then Name(i) else if c == 'a' then Agent(i) else Slot(i)
  }

  /** Reads a local back from the front of `s`. */
  function ParseLocal(s: string): (r: Option<(Local, string)>)
    ensures r.Some? ==> |r.value.1| < |s|
  {
    if |s| == 0 || s[0] !in "xas" then None
    else
      match ParseNatPrefix(s[1..])
      case None => None
      case Some((i, rest)) => Some((LocalOf(s[0], i), rest))
  }

  /** A printed local followed by a non-digit reads back as the same local: the prefix
      letter tells the kind and the number the index. */
  lemma LocalRoundTrip(l: Local, rest: string)
    requires rest == [] || !IsDigit(rest[0])
    ensures ParseLocal(LocalToString(l) + rest) == Some((l, rest))
  {
    var s := LocalToString(l) + rest;
    assert s == [LocalLetter(l)] + (NatToString(l.index) + rest);
    assert s[0] == LocalLetter(l);
    assert s[1..] == NatToString(l.index) + rest;
    ParseNatPrefixOf(l.index, rest);
  }

  lemma LocalToStringInjective(a: Local, b: Local)
    ensures LocalToString(a) == LocalToString(b) ==> a == b
  {
    if LocalToString(a) == LocalToString(b) {
      LocalRoundTrip(a, "");
      LocalRoundTrip(b, "");
      assert LocalToString(a) + "" == LocalToString(b) + "";
    }
  }

  function RuleInitializerToString(i: RuleInitializer): string
  {
    match i
    case InitName(k) => "let x" + NatToString(k) + " = new_name();"
    case InitAgent(k, id) => "let a" + NatToString(k) + " = new_agent(" + NatToString(id) + ");"
    case SlotFromLeft(k, slot) => "let s" + NatToString(k) + " = left[" + NatToString(slot) + "];"
    case SlotFromRight(k, slot) => "let s" + NatToString(k) + " = right[" + NatToString(slot) + "];"
    case ReuseLeft(k) => "let a" + NatToString(k) + " = left;"
    case ReuseRight(k) => "let a" + NatToString(k) + " = right;"
  }

  function NetInitializerToString(i: NetInitializer): string
  {
    match i
    case NetName(k) => RuleInitializerToString(InitName(k))
    case NetAgent(k, id) => RuleInitializerToString(InitAgent(k, id))
  }

  function SetSlotText(target: Local, slot: nat, value: Local): string
  {
    LocalToString(target) + "[" + NatToString(slot) + "] = " + LocalToString(value) + ";"
  }

  function PushText(left: Local, right: Local, description: string): string
  {
    "push_equation(" + LocalToString(left) + ", " + LocalToString(right) + "); // " + description
  }

  function RuleInstructionToString(i: RuleInstruction): string
  {
    match i
    case SetSlot(t, s, v) => SetSlotText(t, s, v)
    case PushEquation(l, r, d) => PushText(l, r, d)
    case FreeLeft => "free(left);"
    case FreeRight => "free(right);"
  }

  function NetInstructionToString(i: NetInstruction): string
  {
    match i
    case NetSetSlot(t, s, v) => SetSlotText(t, s, v)
    case NetPushEquation(l, r, d) => PushText(l, r, d)
  }

  function AgentMetaToString(m: AgentMeta): string
  {
    AgentLinePrefix + (m.name + (DefineAgent + (NatToString(m.arity) + ");")))
  }

  /** A function's metadata line; its `Display` ends the line itself. */
  function FunctionMetaToString(m: FunctionMeta): string
  {
    AgentLinePrefix + (m.name + (DefineFunction + (NatToString(m.outputCount) + ");\n")))
  }

  /** `writeln!(f, "    {}", x)` for each `x`. */
  function Indented(ls: seq<string>): string
  {
    if |ls| == 0 then "" else "    " + ls[0] + "\n" + Indented(ls[1..])
  }

  function RuleInitializerStrings(xs: seq<RuleInitializer>): (ss: seq<string>)
    ensures |ss| == |xs| && forall k :: 0 <= k < |xs| ==> ss[k] == RuleInitializerToString(xs[k])
  {
    seq(|xs|, k requires 0 <= k < |xs| => RuleInitializerToString(xs[k]))
  }

  function RuleInstructionStrings(xs: seq<RuleInstruction>): (ss: seq<string>)
    ensures |ss| == |xs| && forall k :: 0 <= k < |xs| ==> ss[k] == RuleInstructionToString(xs[k])
  {
    seq(|xs|, k requires 0 <= k < |xs| => RuleInstructionToString(xs[k]))
  }

  function NetInitializerStrings(xs: seq<NetInitializer>): (ss: seq<string>)
    ensures |ss| == |xs| && forall k :: 0 <= k < |xs| ==> ss[k] == NetInitializerToString(xs[k])
  {
    seq(|xs|, k requires 0 <= k < |xs| => NetInitializerToString(xs[k]))
  }

  function NetInstructionStrings(xs: seq<NetInstruction>): (ss: seq<string>)
    ensures |ss| == |xs| && forall k :: 0 <= k < |xs| ==> ss[k] == NetInstructionToString(xs[k])
  {
    seq(|xs|, k requires 0 <= k < |xs| => NetInstructionToString(xs[k]))
  }

  function LocalStrings(ls: seq<Local>): (ss: seq<string>)
    ensures |ss| == |ls| && forall k :: 0 <= k < |ls| ==> ss[k] == LocalToString(ls[k])
  {
    seq(|ls|, k requires 0 <= k < |ls| => LocalToString(ls[k]))
  }

  /** The printed lines of a rule: its description as a comment, the header, the
      initializers, the instructions and the closing brace. */
  function RuleLines(r: Rule): seq<string>
  {
    ["// " + r.description, "function rule_" + NatToString(r.index) + "(left, right) {"]
      + Indent(RuleInitializerStrings(r.initializers))
      + Indent(RuleInstructionStrings(r.instructions))
      + ["}"]
  }

  function RuleToString(r: Rule): string
  {
    Lines(RuleLines(r))
  }

  /** The printed lines of a function: header, initializers, instructions, then one
      `return` line with the outputs joined by `", "`. */
  function FunctionLines(f: Function): seq<string>
  {
    ["export function func_" + NatToString(f.index) + "() {"]
      + Indent(NetInitializerStrings(f.initializers))
      + Indent(NetInstructionStrings(f.instructions))
      + ["    return " + Join(LocalStrings(f.outputs), ", "), "}"]
  }

  function FunctionToString(f: Function): string
  {
    Lines(FunctionLines(f))
  }

  /** A rule prints one line per initializer and per instruction, between its two
      header lines and its closing brace, in order. */
  lemma RuleLinesShape(r: Rule)
    ensures var ls := RuleLines(r);
      var ni, nn := |r.initializers|, |r.instructions|;
      && |ls| == ni + nn + 3
      && ls[0] == "// " + r.description
      && ls[|ls| - 1] == "}"
      && (forall k :: 0 <= k < ni ==> ls[2 + k] == "    " + RuleInitializerToString(r.initializers[k]))
      && (forall k :: 0 <= k < nn ==>
            ls[2 + ni + k] == "    " + RuleInstructionToString(r.instructions[k]))
  {
    var a := ["// " + r.description, "function rule_" + NatToString(r.index) + "(left, right) {"];
    var b := Indent(RuleInitializerStrings(r.initializers));
    var c := Indent(RuleInstructionStrings(r.instructions));
    var d := ["}"];
    var ls := a + b + c + d;
    assert RuleLines(r) == ls;
    FourParts(a, b, c, d);
    assert ls[0] == a[0];
    assert ls[|ls| - 1] == d[0];
    forall k | 0 <= k < |b| ensures ls[2 + k] == "    " + RuleInitializerToString(r.initializers[k]) {
      assert ls[|a| + k] == b[k];
    }
    forall k | 0 <= k < |c| ensures ls[2 + |b| + k] == "    " + RuleInstructionToString(r.instructions[k]) {
      assert ls[|a| + |b| + k] == c[k];
    }
  }

  /** A function prints its initializers, then its instructions, then its outputs;
      the `return` line reads back every output, in order. */
  lemma FunctionLinesShape(f: Function)
    ensures var ls := FunctionLines(f);
      var ni, nn := |f.initializers|, |f.instructions|;
      && |ls| == ni + nn + 3
      && (forall k :: 0 <= k < ni ==> ls[1 + k] == "    " + NetInitializerToString(f.initializers[k]))
      && (forall k :: 0 <= k < nn ==>
            ls[1 + ni + k] == "    " + NetInstructionToString(f.instructions[k]))
      && ls[1 + ni + nn] == "    return " + Join(LocalStrings(f.outputs), ", ")
  {
    var a := ["export function func_" + NatToString(f.index) + "() {"];
    var b := Indent(NetInitializerStrings(f.initializers));
    var c := Indent(NetInstructionStrings(f.instructions));
    var d := ["    return " + Join(LocalStrings(f.outputs), ", "), "}"];
    var ls := a + b + c + d;
    assert FunctionLines(f) == ls;
    FourParts(a, b, c, d);
    assert ls[1 + |b| + |c|] == d[0];
    forall k | 0 <= k < |b| ensures ls[1 + k] == "    " + NetInitializerToString(f.initializers[k]) {
      assert ls[|a| + k] == b[k];
    }
    forall k | 0 <= k < |c| ensures ls[1 + |b| + k] == "    " + NetInstructionToString(f.instructions[k]) {
      assert ls[|a| + |b| + k] == c[k];
    }
  }

  /** Where each part of a four-part concatenation lands. */
  lemma FourParts<T>(a: seq<T>, b: seq<T>, c: seq<T>, d: seq<T>)
    ensures var s := a + b + c + d;
      && |s| == |a| + |b| + |c| + |d|
      && (forall k :: 0 <= k < |a| ==> s[k] == a[k])
      && (forall k :: 0 <= k < |b| ==> s[|a| + k] == b[k])
      && (forall k :: 0 <= k < |c| ==> s[|a| + |b| + k] == c[k])
      && (forall k :: 0 <= k < |d| ==> s[|a| + |b| + |c| + k] == d[k])
  {
  }

  /** Reads a `", "`-separated list of locals. */
  function ParseLocals(s: string): Option<seq<Local>>
    decreases |s|
  {
    match ParseLocal(s)
    case None => None
    case Some((l, rest)) =>
      if rest == [] then Some([l])
      else if |rest| >= 2 && rest[..2] == ", " then
        match ParseLocals(rest[2..])
        case None => None
        case Some(ls) => Some([l] + ls)
      else None
  }

  /** The outputs of a function can be read back from its `return` line. */
  lemma {:induction false} OutputsRoundTrip(ls: seq<Local>)
    requires |ls| > 0
    ensures ParseLocals(Join(LocalStrings(ls), ", ")) == Some(ls)
    decreases |ls|
  {
    var ss := LocalStrings(ls);
    if |ls| == 1 {
      LocalRoundTrip(ls[0], "");
      assert Join(ss, ", ") == LocalToString(ls[0]) + "";
      assert [ls[0]] == ls;
    } else {
      var tail := Join(ss[1..], ", ");
      assert ss[1..] == LocalStrings(ls[1..]);
      JoinCons(ss, ", ", "");
      assert Join(ss, ", ") == LocalToString(ls[0]) + (", " + tail);
      LocalRoundTrip(ls[0], ", " + tail);
      OutputsRoundTrip(ls[1..]);
      ParseLocalsStep(Join(ss, ", "), ls[0], tail, ls[1..]);
      assert [ls[0]] + ls[1..] == ls;
    }
  }

  /** A local followed by `", "` and a list that reads back. */
  lemma ParseLocalsStep(s: string, l: Local, tail: string, ls: seq<Local>)
    requires ParseLocal(s) == Some((l, ", " + tail))
    requires ParseLocals(tail) == Some(ls)
    ensures ParseLocals(s) == Some([l] + ls)
  {
    assert (", " + tail)[..2] == ", " && (", " + tail)[2..] == tail;
  }

  function RuleMapLine(e: (nat, nat, nat)): string
  {
    RuleMapPrefix + (NatToString(e.0) + ("][" + (NatToString(e.1) + (RuleMapMiddle + (NatToString(e.2) + ";")))))
  }

  /** The lines of the fixed `main` of `Display for Program`, a raw string whose `{{`
      are printed as they stand. */
  const MainTextLines: seq<string> := ["function main() {{", "    outputs = f_Main();", "    init_rules();",
    "    run();", "    for (output of outputs) {{", "        print(output);", "    }}", "}}"]

  /** The raw string of `main`, line by line (`Line` below). */
  const MainText := Line("function main() {{") + (Line("    outputs = f_Main();") + (Line("    init_rules();") + (Line("    run();") + (Line("    for (output of outputs) {{") + (Line("        print(output);") + (Line("    }}") + (Line("}}"))))))))

  function AgentMetaStrings(ms: seq<AgentMeta>): (ss: seq<string>)
    ensures |ss| == |ms| && forall k :: 0 <= k < |ms| ==> ss[k] == AgentMetaToString(ms[k])
  {
    seq(|ms|, k requires 0 <= k < |ms| => AgentMetaToString(ms[k]))
  }

  function RuleMapStrings(es: seq<(nat, nat, nat)>): (ss: seq<string>)
    ensures |ss| == |es| && forall k :: 0 <= k < |es| ==> ss[k] == RuleMapLine(es[k])
  {
    seq(|es|, k requires 0 <= k < |es| => RuleMapLine(es[k]))
  }

  const AgentLinePrefix := "let "
  const DefineAgent := " = define_agent("
  const DefineFunction := " = define_function("

  /** Reads a `let NAME = define_…(N)` line back, `define` being the part from the
      space after the name to the open parenthesis and `close` what follows the
      number: the name runs up to the first space. */
  function ParseLetLine(s: string, define: string, close: string): Option<(string, nat)>
  {
    match After(s, AgentLinePrefix)
    case None => None
    case Some(t) =>
      var i := FirstIndex(t, ' ');
      match After(t[i..], define)
      case None => None
      case Some(u) =>
        match ParseNatPrefix(u)
        case None => None
        case Some((n, tail)) => if tail == close then Some((t[..i], n)) else None
  }

  /** A name without spaces and a number read back from their `let` line. */
  lemma LetLineRoundTrip(name: string, define: string, n: nat, close: string)
    requires ' ' !in name && |define| > 0 && define[0] == ' '
    requires close == [] || !IsDigit(close[0])
    ensures ParseLetLine(AgentLinePrefix + (name + (define + (NatToString(n) + close))), define, close)
      == Some((name, n))
  {
    var d := NatToString(n) + close;
    var t := name + (define + d);
    AfterOf(AgentLinePrefix, t);
    assert t[|name|] == ' ';
    assert forall j :: 0 <= j < |name| ==> t[j] == name[j];
    assert FirstIndex(t, ' ') == |name|;
    assert t[..|name|] == name;
    assert t[|name|..] == define + d;
    AfterOf(define, d);
    ParseNatPrefixOf(n, close);
  }

  /** Reads an agent-table line back: the name runs up to the first space, the arity
      is the number inside `define_agent(…)`. */
  function ParseAgentMetaLine(s: string): Option<AgentMeta>
  {
    match ParseLetLine(s, DefineAgent, ");")
    case None => None
    case Some((name, arity)) => Some(AgentMeta(name, arity))
  }

  /** An agent whose name has no space reads back from its table line. */
  lemma AgentMetaLineRoundTrip(m: AgentMeta)
    requires ' ' !in m.name
    ensures ParseAgentMetaLine(AgentMetaToString(m)) == Some(m)
  {
    LetLineRoundTrip(m.name, DefineAgent, m.arity, ");");
  }

  /** Reads a function's metadata line back, its line break included. */
  function ParseFunctionMetaLine(s: string): Option<FunctionMeta>
  {
    match ParseLetLine(s, DefineFunction, ");\n")
    case None => None
    case Some((name, count)) => Some(FunctionMeta(name, count))
  }

  /** A function whose name has no space reads back, name and output count, from
      its metadata line. */
  lemma FunctionMetaLineRoundTrip(m: FunctionMeta)
    requires ' ' !in m.name
    ensures ParseFunctionMetaLine(FunctionMetaToString(m)) == Some(m)
  {
    LetLineRoundTrip(m.name, DefineFunction, m.outputCount, ");\n");
  }

  /** Line k of the agent table reads back as agent k. */
  lemma AgentTableRoundTrip(ms: seq<AgentMeta>)
    requires forall k :: 0 <= k < |ms| ==> ' ' !in ms[k].name
    ensures forall k :: 0 <= k < |ms| ==> ParseAgentMetaLine(AgentMetaStrings(ms)[k]) == Some(ms[k])
  {
    forall k | 0 <= k < |ms| ensures ParseAgentMetaLine(AgentMetaStrings(ms)[k]) == Some(ms[k]) {
      AgentMetaLineRoundTrip(ms[k]);
    }
  }

  const RuleMapPrefix := "    rules["
  const RuleMapMiddle := "] = rule_"

  /** Reads a rule-map line of `init_rules` back as (left id, right id, rule index). */
  function ParseRuleMapLine(s: string): Option<(nat, nat, nat)>
  {
    match After(s, RuleMapPrefix)
    case None => None
    case Some(s0) =>
      match ParseNatPrefix(s0)
      case None => None
      case Some((a, s1)) =>
        match After(s1, "][")
        case None => None
        case Some(s2) =>
          match ParseRuleMapTail(s2)
          case None => None
          case Some((b, i)) => Some((a, b, i))
  }

  /** The part after `][`: the right id, then the rule index. */
  function ParseRuleMapTail(s: string): Option<(nat, nat)>
  {
    match ParseNatPrefix(s)
    case None => None
    case Some((b, s1)) =>
      match After(s1, RuleMapMiddle)
      case None => None
      case Some(s2) =>
        match ParseNatPrefix(s2)
        case None => None
        case Some((i, s3)) => if s3 == ";" then Some((b, i)) else None
  }

  lemma RuleMapTailRoundTrip(b: nat, i: nat)
    ensures ParseRuleMapTail(NatToString(b) + (RuleMapMiddle + (NatToString(i) + ";"))) == Some((b, i))
  {
    var d := NatToString(i) + ";";
    ParseNatPrefixOf(b, RuleMapMiddle + d);
    AfterOf(RuleMapMiddle, d);
    ParseNatPrefixOf(i, ";");
  }

  lemma RuleMapLineRoundTrip(e: (nat, nat, nat))
    ensures ParseRuleMapLine(RuleMapLine(e)) == Some(e)
  {
    var d1 := NatToString(e.1) + (RuleMapMiddle + (NatToString(e.2) + ";"));
    var d0 := NatToString(e.0) + ("][" + d1);
    AfterOf(RuleMapPrefix, d0);
    ParseNatPrefixOf(e.0, "][" + d1);
    AfterOf("][", d1);
    RuleMapTailRoundTrip(e.1, e.2);
  }

  /** Line k of `init_rules` reads back as rule-map entry k. */
  lemma RuleMapTableRoundTrip(es: seq<(nat, nat, nat)>)
    ensures forall k :: 0 <= k < |es| ==> ParseRuleMapLine(RuleMapStrings(es)[k]) == Some(es[k])
  {
    forall k | 0 <= k < |es| ensures ParseRuleMapLine(RuleMapStrings(es)[k]) == Some(es[k]) {
      RuleMapLineRoundTrip(es[k]);
    }
  }

  function RuleStrings(rs: seq<Rule>): (ss: seq<string>)
    ensures |ss| == |rs| && forall k :: 0 <= k < |rs| ==> ss[k] == RuleToString(rs[k]) + "\n"
  {
    seq(|rs|, k requires 0 <= k < |rs| => RuleToString(rs[k]) + "\n")
  }

  function FunctionStrings(fs: seq<Function>): (ss: seq<string>)
    ensures |ss| == |fs| && forall k :: 0 <= k < |fs| ==> ss[k] == FunctionToString(fs[k]) + "\n"
  {
    seq(|fs|, k requires 0 <= k < |fs| => FunctionToString(fs[k]) + "\n")
  }

  /** `writeln!(f, "{}", s)`. */
  function Line(s: string): string
  {
    s + "\n"
  }

  /** `Display for Program`, one `writeln!` after the other: the agents, the rules,
      `init_rules` filling the rule table from the rule map, the functions, then the
      fixed `main`. */
  function ProgramToString(p: Program): string
  {
    Line("// Agents") + (Lines(AgentMetaStrings(p.agents)) + (Line("")
      + (Line("// Rules") + (Concat(RuleStrings(p.rules))
      + (Line("function init_rules() {") + (Lines(RuleMapStrings(p.ruleMap)) + (Line("}") + (Line("")
      + (Line("// Functions") + (Concat(FunctionStrings(p.functions)) + Line(MainText)))))))))))
  }

  // ---------------------------------------------------------------------------
  // The printed program, line by line

  /** Each rule's lines, then the empty line the outer `writeln!` adds after them. */
  function RuleSection(rs: seq<Rule>): seq<string>
  {
    if |rs| == 0 then [] else RuleLines(rs[0]) + ([""] + RuleSection(rs[1..]))
  }

  /** Each function's lines, then the empty line the outer `writeln!` adds after them. */
  function FunctionSection(fs: seq<Function>): seq<string>
  {
    if |fs| == 0 then [] else FunctionLines(fs[0]) + ([""] + FunctionSection(fs[1..]))
  }

  /** The lines of parts `k`, `k + 1`, … of `ss`, one part after the other. */
  function Suffix(ss: seq<seq<string>>, k: nat): seq<string>
    requires k <= |ss|
    decreases |ss| - k
  {
    if k == |ss| then [] else ss[k] + Suffix(ss, k + 1)
  }

  /** The parts of a printed program, one per `writeln!` or loop of them in
      `Display for Program`, around its agent lines `a`, rule lines `r`, rule-map
      lines `m` and function lines `f`. */
  function Sections(a: seq<string>, r: seq<string>, m: seq<string>, f: seq<string>): seq<seq<string>>
  {
    [["// Agents"], a, [""], ["// Rules"], r, ["function init_rules() {"], m, ["}"], [""],
     ["// Functions"], f, MainTextLines + [""]]
  }

  function ProgramSections(p: Program): seq<seq<string>>
  {
    Sections(AgentMetaStrings(p.agents), RuleSection(p.rules), RuleMapStrings(p.ruleMap), FunctionSection(p.functions))
  }

  /** The lines of a printed program: its sections, one after the other. */
  function ProgramLines(p: Program): seq<string>
  {
    Suffix(ProgramSections(p), 0)
  }

  lemma LinesCons(l: string, ls: seq<string>)
    ensures Lines([l] + ls) == Line(l) + Lines(ls)
  {
    assert ([l] + ls)[1..] == ls;
  }

  lemma LinesOne(l: string)
    ensures Lines([l]) == Line(l)
  {
    assert [l][1..] == [];
  }

  lemma {:induction false} LinesAppend(a: seq<string>, b: seq<string>)
    ensures Lines(a + b) == Lines(a) + Lines(b)
    decreases |a|
  {
    if |a| > 0 {
      assert (a + b)[1..] == a[1..] + b;
      LinesAppend(a[1..], b);
    } else {
      assert a + b == b;
    }
  }

  lemma {:induction false} RuleSectionText(rs: seq<Rule>)
    ensures Concat(RuleStrings(rs)) == Lines(RuleSection(rs))
    decreases |rs|
  {
    if |rs| > 0 {
      assert RuleStrings(rs)[1..] == RuleStrings(rs[1..]);
      RuleSectionText(rs[1..]);
      LinesCons("", RuleSection(rs[1..]));
      LinesAppend(RuleLines(rs[0]), [""] + RuleSection(rs[1..]));
    }
  }

  lemma {:induction false} FunctionSectionText(fs: seq<Function>)
    ensures Concat(FunctionStrings(fs)) == Lines(FunctionSection(fs))
    decreases |fs|
  {
    if |fs| > 0 {
      assert FunctionStrings(fs)[1..] == FunctionStrings(fs[1..]);
      FunctionSectionText(fs[1..]);
      LinesCons("", FunctionSection(fs[1..]));
      LinesAppend(FunctionLines(fs[0]), [""] + FunctionSection(fs[1..]));
    }
  }

  /** `main`'s raw string is its lines, and `writeln!` adds an empty one. */
  lemma MainLines()
    ensures Line(MainText) == Lines(MainTextLines + [""])
  {
    assert MainTextLines == ["function main() {{"] + (["    outputs = f_Main();"] + (["    init_rules();"] + (["    run();"] + (["    for (output of outputs) {{"] + (["        print(output);"] + (["    }}"] + (["}}"])))))));
    LinesCons("function main() {{", ["    outputs = f_Main();"] + (["    init_rules();"] + (["    run();"] + (["    for (output of outputs) {{"] + (["        print(output);"] + (["    }}"] + (["}}"])))))));
    LinesCons("    outputs = f_Main();", ["    init_rules();"] + (["    run();"] + (["    for (output of outputs) {{"] + (["        print(output);"] + (["    }}"] + (["}}"]))))));
    LinesCons("    init_rules();", ["    run();"] + (["    for (output of outputs) {{"] + (["        print(output);"] + (["    }}"] + (["}}"])))));
    LinesCons("    run();", ["    for (output of outputs) {{"] + (["        print(output);"] + (["    }}"] + (["}}"]))));
    LinesCons("    for (output of outputs) {{", ["        print(output);"] + (["    }}"] + (["}}"])));
    LinesCons("        print(output);", ["    }}"] + (["}}"]));
    LinesCons("    }}", ["}}"]);
    LinesCons("}}", []);
    assert Lines(MainTextLines) == MainText;
    LinesAppend(MainTextLines, [""]);
    LinesCons("", []);
  }

  lemma LinesSuffix(ss: seq<seq<string>>, k: nat)
    requires k < |ss|
    ensures Lines(Suffix(ss, k)) == Lines(ss[k]) + Lines(Suffix(ss, k + 1))
  {
    LinesAppend(ss[k], Suffix(ss, k + 1));
  }

  /** The text of the sections, whatever the four variable parts hold. */
  lemma SectionsText(a: seq<string>, r: seq<string>, m: seq<string>, f: seq<string>)
    ensures Lines(Suffix(Sections(a, r, m, f), 0)) == Line("// Agents") + (Lines(a) + (Line("")
      + (Line("// Rules") + (Lines(r) + (Line("function init_rules() {") + (Lines(m) + (Line("}")
      + (Line("") + (Line("// Functions") + (Lines(f) + Line(MainText)))))))))))
  {
    var ss := Sections(a, r, m, f);
    MainLines();
    LinesSuffix(ss, 11);
    assert Lines(Suffix(ss, 12)) == "";
    assert Lines(Suffix(ss, 11)) == Line(MainText);
    LinesSuffix(ss, 10);
    LinesSuffix(ss, 9);
    LinesOne("// Functions");
    LinesSuffix(ss, 8);
    LinesOne("");
    LinesSuffix(ss, 7);
    LinesOne("}");
    LinesSuffix(ss, 6);
    LinesSuffix(ss, 5);
    LinesOne("function init_rules() {");
    LinesSuffix(ss, 4);
    LinesSuffix(ss, 3);
    LinesOne("// Rules");
    LinesSuffix(ss, 2);
    LinesSuffix(ss, 1);
    LinesSuffix(ss, 0);
    LinesOne("// Agents");
  }

  /** The printed program is its lines, each ended by a line break. */
  lemma ProgramText(p: Program)
    ensures ProgramToString(p) == Lines(ProgramLines(p))
  {
    SectionsText(AgentMetaStrings(p.agents), RuleSection(p.rules), RuleMapStrings(p.ruleMap), FunctionSection(p.functions));
    RuleSectionText(p.rules);
    FunctionSectionText(p.functions);
  }

  // ---------------------------------------------------------------------------
  // Reading the printed program back

  /** No line holds a line break. */
  predicate Unbroken(ls: seq<string>)
  {
    forall k :: 0 <= k < |ls| ==> '\n' !in ls[k]
  }

  /** A push instruction's description, the only free text an instruction prints. */
  predicate PlainInstruction(i: RuleInstruction)
  {
    i.PushEquation? ==> '\n' !in i.description
  }

  predicate PlainNetInstruction(i: NetInstruction)
  {
    i.NetPushEquation? ==> '\n' !in i.description
  }

  /** No agent name and no description holds a line break, so each printed line is
      one line of the text. */
  predicate PlainProgram(p: Program)
  {
    && (forall k :: 0 <= k < |p.agents| ==> '\n' !in p.agents[k].name)
    && (forall k :: 0 <= k < |p.rules| ==> '\n' !in p.rules[k].description)
    && (forall k, j :: 0 <= k < |p.rules| && 0 <= j < |p.rules[k].instructions| ==>
          PlainInstruction(p.rules[k].instructions[j]))
    && (forall k, j :: 0 <= k < |p.functions| && 0 <= j < |p.functions[k].instructions| ==>
          PlainNetInstruction(p.functions[k].instructions[j]))
  }

  lemma UnbrokenAppend(a: seq<string>, b: seq<string>)
    requires Unbroken(a) && Unbroken(b)
    ensures Unbroken(a + b)
  {
    forall k | 0 <= k < |a + b| ensures '\n' !in (a + b)[k] {
      if k < |a| {
        assert (a + b)[k] == a[k];
      } else {
        assert (a + b)[k] == b[k - |a|];
      }
    }
  }

  lemma NatUnbroken(n: nat)
    ensures '\n' !in NatToString(n)
  {
    var s := NatToString(n);
    assert forall i :: 0 <= i < |s| ==> IsDigit(s[i]);
  }

  lemma LocalUnbroken(l: Local)
    ensures '\n' !in LocalToString(l)
  {
    NatUnbroken(l.index);
  }

  lemma UnbrokenJoin(a: string, n: nat, b: string)
    requires '\n' !in a && '\n' !in b
    ensures '\n' !in a + NatToString(n) + b
  {
    NatUnbroken(n);
  }

  lemma RuleInitializerUnbroken(i: RuleInitializer)
    ensures '\n' !in RuleInitializerToString(i)
  {
    match i
    case InitName(k) => UnbrokenJoin("let x", k, " = new_name();");
    case InitAgent(k, id) =>
      UnbrokenJoin("let a", k, " = new_agent(");
      UnbrokenJoin("let a" + NatToString(k) + " = new_agent(", id, ");");
    case SlotFromLeft(k, slot) =>
      UnbrokenJoin("let s", k, " = left[");
      UnbrokenJoin("let s" + NatToString(k) + " = left[", slot, "];");
    case SlotFromRight(k, slot) =>
      UnbrokenJoin("let s", k, " = right[");
      UnbrokenJoin("let s" + NatToString(k) + " = right[", slot, "];");
    case ReuseLeft(k) => UnbrokenJoin("let a", k, " = left;");
    case ReuseRight(k) => UnbrokenJoin("let a", k, " = right;");
  }

  lemma RuleInstructionUnbroken(i: RuleInstruction)
    requires PlainInstruction(i)
    ensures '\n' !in RuleInstructionToString(i)
  {
    match i
    case SetSlot(t, slot, v) => LocalUnbroken(t); NatUnbroken(slot); LocalUnbroken(v);
    case PushEquation(l, r, _) => LocalUnbroken(l); LocalUnbroken(r);
    case _ =>
  }

  lemma NetInstructionUnbroken(i: NetInstruction)
    requires PlainNetInstruction(i)
    ensures '\n' !in NetInstructionToString(i)
  {
    match i
    case NetSetSlot(t, slot, v) => LocalUnbroken(t); NatUnbroken(slot); LocalUnbroken(v);
    case NetPushEquation(l, r, _) => LocalUnbroken(l); LocalUnbroken(r);
  }

  lemma IndentUnbroken(ls: seq<string>)
    requires Unbroken(ls)
    ensures Unbroken(Indent(ls))
  {
  }

  lemma RuleLinesUnbroken(r: Rule)
    requires '\n' !in r.description
    requires forall j :: 0 <= j < |r.instructions| ==> PlainInstruction(r.instructions[j])
    ensures Unbroken(RuleLines(r))
  {
    NatUnbroken(r.index);
    var b := RuleInitializerStrings(r.initializers);
    forall k | 0 <= k < |b| ensures '\n' !in b[k] {
      RuleInitializerUnbroken(r.initializers[k]);
    }
    var c := RuleInstructionStrings(r.instructions);
    forall k | 0 <= k < |c| ensures '\n' !in c[k] {
      RuleInstructionUnbroken(r.instructions[k]);
    }
    IndentUnbroken(b);
    IndentUnbroken(c);
    var a := ["// " + r.description, "function rule_" + NatToString(r.index) + "(left, right) {"];
    UnbrokenAppend(a, Indent(b));
    UnbrokenAppend(a + Indent(b), Indent(c));
    UnbrokenAppend(a + Indent(b) + Indent(c), ["}"]);
  }

  lemma FunctionLinesUnbroken(f: Function)
    requires forall j :: 0 <= j < |f.instructions| ==> PlainNetInstruction(f.instructions[j])
    ensures Unbroken(FunctionLines(f))
  {
    NatUnbroken(f.index);
    var b := NetInitializerStrings(f.initializers);
    forall k | 0 <= k < |b| ensures '\n' !in b[k] {
      match f.initializers[k]
      case NetName(i) => RuleInitializerUnbroken(InitName(i));
      case NetAgent(i, id) => RuleInitializerUnbroken(InitAgent(i, id));
    }
    var c := NetInstructionStrings(f.instructions);
    forall k | 0 <= k < |c| ensures '\n' !in c[k] {
      NetInstructionUnbroken(f.instructions[k]);
    }
    var os := LocalStrings(f.outputs);
    forall k | 0 <= k < |os| ensures '\n' !in os[k] {
      LocalUnbroken(f.outputs[k]);
    }
    JoinChars(os, ", ", '\n');
    IndentUnbroken(b);
    IndentUnbroken(c);
    var a := ["export function func_" + NatToString(f.index) + "() {"];
    var d := ["    return " + Join(os, ", "), "}"];
    UnbrokenAppend(a, Indent(b));
    UnbrokenAppend(a + Indent(b), Indent(c));
    UnbrokenAppend(a + Indent(b) + Indent(c), d);
  }

  lemma {:induction false} RuleSectionUnbroken(p: Program, i: nat)
    requires PlainProgram(p) && i <= |p.rules|
    ensures Unbroken(RuleSection(p.rules[i..]))
    decreases |p.rules| - i
  {
    if i < |p.rules| {
      var rs := p.rules[i..];
      assert rs[0] == p.rules[i] && rs[1..] == p.rules[i + 1..];
      RuleLinesUnbroken(p.rules[i]);
      RuleSectionUnbroken(p, i + 1);
      UnbrokenAppend([""], RuleSection(rs[1..]));
      UnbrokenAppend(RuleLines(rs[0]), [""] + RuleSection(rs[1..]));
    }
  }

  lemma {:induction false} FunctionSectionUnbroken(p: Program, i: nat)
    requires PlainProgram(p) && i <= |p.functions|
    ensures Unbroken(FunctionSection(p.functions[i..]))
    decreases |p.functions| - i
  {
    if i < |p.functions| {
      var fs := p.functions[i..];
      assert fs[0] == p.functions[i] && fs[1..] == p.functions[i + 1..];
      FunctionLinesUnbroken(p.functions[i]);
      FunctionSectionUnbroken(p, i + 1);
      UnbrokenAppend([""], FunctionSection(fs[1..]));
      UnbrokenAppend(FunctionLines(fs[0]), [""] + FunctionSection(fs[1..]));
    }
  }

  lemma TablesUnbroken(p: Program)
    requires PlainProgram(p)
    ensures Unbroken(AgentMetaStrings(p.agents)) && Unbroken(RuleMapStrings(p.ruleMap))
  {
    var a := AgentMetaStrings(p.agents);
    forall k | 0 <= k < |a| ensures '\n' !in a[k] {
      NatUnbroken(p.agents[k].arity);
    }
    var m := RuleMapStrings(p.ruleMap);
    forall k | 0 <= k < |m| ensures '\n' !in m[k] {
      NatUnbroken(p.ruleMap[k].0);
      NatUnbroken(p.ruleMap[k].1);
      NatUnbroken(p.ruleMap[k].2);
    }
  }

  lemma MainUnbroken()
    ensures Unbroken(MainTextLines + [""])
  {
  }

  lemma {:induction false} SuffixUnbroken(ss: seq<seq<string>>, k: nat)
    requires k <= |ss|
    requires forall i :: k <= i < |ss| ==> Unbroken(ss[i])
    ensures Unbroken(Suffix(ss, k))
    decreases |ss| - k
  {
    if k < |ss| {
      SuffixUnbroken(ss, k + 1);
      UnbrokenAppend(ss[k], Suffix(ss, k + 1));
    }
  }

  lemma SectionsUnbroken(a: seq<string>, r: seq<string>, m: seq<string>, f: seq<string>)
    requires Unbroken(a) && Unbroken(r) && Unbroken(m) && Unbroken(f)
    ensures Unbroken(Suffix(Sections(a, r, m, f), 0))
  {
    MainUnbroken();
    SuffixUnbroken(Sections(a, r, m, f), 0);
  }

  lemma ProgramLinesUnbroken(p: Program)
    requires PlainProgram(p)
    ensures Unbroken(ProgramLines(p))
  {
    TablesUnbroken(p);
    assert p.rules[0..] == p.rules && p.functions[0..] == p.functions;
    RuleSectionUnbroken(p, 0);
    FunctionSectionUnbroken(p, 0);
    SectionsUnbroken(AgentMetaStrings(p.agents), RuleSection(p.rules), RuleMapStrings(p.ruleMap), FunctionSection(p.functions));
  }

  /** Lines without breaks, written one after the other, split back into themselves
      and an empty last piece. */
  lemma SplitUnbroken(ls: seq<string>)
    requires Unbroken(ls)
    ensures Split(Lines(ls), "\n") == ls + [""]
  {
    LinesIsJoin(ls);
    SplitJoin(ls + [""], "\n");
  }

  /** Cutting a printed program at its line breaks gives back its lines, and an empty
      last piece after the final line break. */
  lemma ProgramSplit(p: Program)
    requires PlainProgram(p)
    ensures Split(ProgramToString(p), "\n") == ProgramLines(p) + [""]
  {
    ProgramText(p);
    ProgramLinesUnbroken(p);
    SplitUnbroken(ProgramLines(p));
  }

  /** Where part `i` starts among the lines of all the parts. */
  function Offset(ss: seq<seq<string>>, i: nat): nat
    requires i <= |ss|
  {
    if i == 0 then 0 else Offset(ss, i - 1) + |ss[i - 1]|
  }

  lemma {:induction false} OffsetMono(ss: seq<seq<string>>, j: nat, i: nat)
    requires j <= i <= |ss|
    ensures Offset(ss, j) <= Offset(ss, i)
    decreases i - j
  {
    if j < i {
      OffsetMono(ss, j, i - 1);
    }
  }

  /** Part `i` stands at its offset, counted from where part `j` starts. */
  lemma {:induction false} SuffixAt(ss: seq<seq<string>>, j: nat, i: nat)
    requires j <= i < |ss|
    ensures Offset(ss, j) <= Offset(ss, i)
    ensures Placed(Suffix(ss, j), Offset(ss, i) - Offset(ss, j), ss[i])
    decreases i - j
  {
    OffsetMono(ss, j, i);
    PlacedFront(ss[j], Suffix(ss, j + 1));
    if j < i {
      SuffixAt(ss, j + 1, i);
      OffsetMono(ss, j + 1, i);
      PlacedShift(ss[j], Suffix(ss, j + 1), Offset(ss, i) - Offset(ss, j + 1), ss[i]);
    }
  }

  /** Where each section starts. */
  lemma SectionsOffsets(a: seq<string>, r: seq<string>, m: seq<string>, f: seq<string>)
    ensures var ss := Sections(a, r, m, f);
      var na, nr, nm, nf := |a|, |r|, |m|, |f|;
      && Offset(ss, 0) == 0 && Offset(ss, 1) == 1 && Offset(ss, 2) == 1 + na && Offset(ss, 3) == 2 + na
      && Offset(ss, 4) == 3 + na && Offset(ss, 5) == 3 + na + nr && Offset(ss, 6) == 4 + na + nr
      && Offset(ss, 7) == 4 + na + nr + nm && Offset(ss, 8) == 5 + na + nr + nm
      && Offset(ss, 9) == 6 + na + nr + nm && Offset(ss, 10) == 7 + na + nr + nm
      && Offset(ss, 11) == 7 + na + nr + nm + nf
  {
    var ss := Sections(a, r, m, f);
    assert Offset(ss, 1) == 1;
    assert Offset(ss, 2) == 1 + |a|;
    assert Offset(ss, 3) == Offset(ss, 2) + 1;
    assert Offset(ss, 4) == Offset(ss, 3) + 1;
    assert Offset(ss, 5) == Offset(ss, 4) + |r|;
    assert Offset(ss, 6) == Offset(ss, 5) + 1;
    assert Offset(ss, 7) == Offset(ss, 6) + |m|;
    assert Offset(ss, 8) == Offset(ss, 7) + 1;
    assert Offset(ss, 9) == Offset(ss, 8) + 1;
    assert Offset(ss, 10) == Offset(ss, 9) + 1;
    assert Offset(ss, 11) == Offset(ss, 10) + |f|;
  }

  lemma {:induction false} SuffixLength(ss: seq<seq<string>>, j: nat)
    requires j < |ss|
    ensures Offset(ss, j) <= Offset(ss, |ss| - 1)
    ensures |Suffix(ss, j)| == Offset(ss, |ss| - 1) - Offset(ss, j) + |ss[|ss| - 1]|
    decreases |ss| - j
  {
    OffsetMono(ss, j, |ss| - 1);
    if j < |ss| - 1 {
      SuffixLength(ss, j + 1);
    }
  }

  /** Section `i` stands at its offset among the lines, also once the empty piece
      after the last line break is added. */
  lemma SectionPlaced(ss: seq<seq<string>>, i: nat)
    requires i < |ss|
    ensures Placed(Suffix(ss, 0) + [""], Offset(ss, i), ss[i])
  {
    SuffixAt(ss, 0, i);
    PlacedSnocAt(Suffix(ss, 0), Offset(ss, i) - Offset(ss, 0), ss[i], "", Offset(ss, i));
  }

  /** The last section runs to the end of the lines, and takes the empty piece. */
  lemma LastPlaced(ss: seq<seq<string>>)
    requires |ss| > 0
    ensures |Suffix(ss, 0) + [""]| == Offset(ss, |ss| - 1) + |ss[|ss| - 1]| + 1
    ensures Placed(Suffix(ss, 0) + [""], Offset(ss, |ss| - 1), ss[|ss| - 1] + [""])
  {
    SuffixAt(ss, 0, |ss| - 1);
    SuffixLength(ss, 0);
    PlacedSnoc(Suffix(ss, 0), Offset(ss, |ss| - 1), ss[|ss| - 1], "");
  }

  /** The line-by-line layout of a printed program with agent lines `a`, rule
      lines `r`, rule-map lines `m` and function lines `f`, with the empty piece
      after the last line break: the agent header and table, an empty line, the rule
      header and the rules' lines, `init_rules` around the rule-map lines, an empty
      line, the function header and the functions' lines, then `main`. */
  predicate LaidOut(ls: seq<string>, a: seq<string>, r: seq<string>, m: seq<string>, f: seq<string>)
  {
    var na, nr, nm, nf := |a|, |r|, |m|, |f|;
    && |ls| == 9 + na + nr + nm + nf + |MainTextLines|
    && Placed(ls, 0, ["// Agents"]) && Placed(ls, 1, a)
    && Placed(ls, 1 + na, [""]) && Placed(ls, 2 + na, ["// Rules"])
    && Placed(ls, 3 + na, r)
    && Placed(ls, 3 + na + nr, ["function init_rules() {"])
    && Placed(ls, 4 + na + nr, m)
    && Placed(ls, 4 + na + nr + nm, ["}"]) && Placed(ls, 5 + na + nr + nm, [""])
    && Placed(ls, 6 + na + nr + nm, ["// Functions"])
    && Placed(ls, 7 + na + nr + nm, f)
    && Placed(ls, 7 + na + nr + nm + nf, MainTextLines + ["", ""])
  }

  /** The sections, whatever the four variable parts hold, are laid out one after
      the other. */
  lemma SectionsAt(a: seq<string>, r: seq<string>, m: seq<string>, f: seq<string>)
    ensures LaidOut(Suffix(Sections(a, r, m, f), 0) + [""], a, r, m, f)
  {
    var ss := Sections(a, r, m, f);
    SectionsOffsets(a, r, m, f);
    SectionPlaced(ss, 0);
    SectionPlaced(ss, 1);
    SectionPlaced(ss, 2);
    SectionPlaced(ss, 3);
    SectionPlaced(ss, 4);
    SectionPlaced(ss, 5);
    SectionPlaced(ss, 6);
    SectionPlaced(ss, 7);
    SectionPlaced(ss, 8);
    SectionPlaced(ss, 9);
    SectionPlaced(ss, 10);
    LastPlaced(ss);
    assert ss[11] + [""] == MainTextLines + ["", ""];
  }

  /** Cut at its line breaks, a printed program is laid out as its agent table, its
      rules' lines, its rule map and its functions' lines dictate. */
  lemma ProgramReadBack(p: Program)
    requires PlainProgram(p)
    ensures LaidOut(Split(ProgramToString(p), "\n"), AgentMetaStrings(p.agents), RuleSection(p.rules),
      RuleMapStrings(p.ruleMap), FunctionSection(p.functions))
  {
    ProgramSplit(p);
    SectionsAt(AgentMetaStrings(p.agents), RuleSection(p.rules), RuleMapStrings(p.ruleMap), FunctionSection(p.functions));
  }

  /** Agent lines read back, line by line, as their agents. */
  lemma AgentLinesAt(ls: seq<string>, o: nat, ms: seq<AgentMeta>)
    requires Placed(ls, o, AgentMetaStrings(ms))
    requires forall k :: 0 <= k < |ms| ==> ' ' !in ms[k].name
    ensures o + |ms| <= |ls|
    ensures var t := ls[o..o + |ms|]; forall k :: 0 <= k < |ms| ==> ParseAgentMetaLine(t[k]) == Some(ms[k])
  {
    PlacedSlice(ls, o, AgentMetaStrings(ms));
    AgentTableRoundTrip(ms);
  }

  /** Rule-map lines read back, line by line, as their rule-map entries. */
  lemma RuleMapLinesAt(ls: seq<string>, o: nat, es: seq<(nat, nat, nat)>)
    requires Placed(ls, o, RuleMapStrings(es))
    ensures o + |es| <= |ls|
    ensures var t := ls[o..o + |es|]; forall k :: 0 <= k < |es| ==> ParseRuleMapLine(t[k]) == Some(es[k])
  {
    PlacedSlice(ls, o, RuleMapStrings(es));
    RuleMapTableRoundTrip(es);
  }

  /** Read back line by line, the agent table of a laid-out program gives its
      agents `ms` in order; `ProgramReadBack` lays out every printed program so. */
  lemma AgentTableReadBack(ls: seq<string>, ms: seq<AgentMeta>, r: seq<string>, m: seq<string>, f: seq<string>)
    requires LaidOut(ls, AgentMetaStrings(ms), r, m, f)
    requires forall k :: 0 <= k < |ms| ==> ' ' !in ms[k].name
    ensures 1 + |ms| <= |ls|
    ensures var t := ls[1..1 + |ms|]; forall k :: 0 <= k < |ms| ==> ParseAgentMetaLine(t[k]) == Some(ms[k])
  {
    AgentLinesAt(ls, 1, ms);
  }

  /** Read back line by line, the body of `init_rules` in a laid-out program gives
      its rule-map entries `es` in order. */
  lemma RuleMapReadBack(ls: seq<string>, a: seq<string>, r: seq<string>, es: seq<(nat, nat, nat)>, f: seq<string>)
    requires LaidOut(ls, a, r, RuleMapStrings(es), f)
    ensures 4 + |a| + |r| + |es| <= |ls|
    ensures var t := ls[4 + |a| + |r|..4 + |a| + |r| + |es|];
      forall k :: 0 <= k < |es| ==> ParseRuleMapLine(t[k]) == Some(es[k])
  {
    RuleMapLinesAt(ls, 4 + |a| + |r|, es);
  }
}
