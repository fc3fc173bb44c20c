/** The syntax tree of the interaction-net language (src/ast.rs) and its `Display`
    implementations, which print a tree back in the surface syntax.  `Net` and
    `Module` are the shapes the builders read (`net.name`, `net.interfaces`,
    `net.equations`, `module.rules`, `module.nets`); src/ast.rs itself does not
    declare them. */
module Ast {

  import opened Strings

  /** A linear variable: `#x` is an input, `@x` an output. */
  datatype Name = In(id: string) | Out(id: string)

  datatype Agent = Agent(name: string, body: seq<Term>)

  datatype Term = NameTerm(name: Name) | AgentTerm(agent: Agent)

  datatype Equation = Equation(left: Term, right: Term)

  /** One side of a rule head: an agent applied to variables only. */
  datatype RuleTerm = RuleTerm(agent: string, body: seq<Name>)

  datatype RuleTermPair = RuleTermPair(left: RuleTerm, right: RuleTerm)

  datatype Rule = Rule(termPair: RuleTermPair, equations: seq<Equation>)

  datatype Program = Program(rules: seq<Rule>, net: seq<Equation>, interfaces: seq<Term>)

  datatype Net = Net(name: string, interfaces: seq<Term>, equations: seq<Equation>)

  datatype Module = Module(rules: seq<Rule>, nets: seq<Net>)

  /** `Name::as_name` and `Name::into_name`: the identifier without its sign. */
  function AsName(n: Name): (id: string)
    ensures id == n.id
    ensures n == In(id) || n == Out(id)
  {
    match n
    case In(x) => x
    case Out(x) => x
  }

  function NameToString(n: Name): string
  {
    match n
    case In(x) => "#" + x
    case Out(x) => "@" + x
  }

  /** The first character gives the direction and the rest is the identifier. */
  lemma NameToStringParts(n: Name)
    ensures |NameToString(n)| == |AsName(n)| + 1
    ensures NameToString(n)[0] == (if n.In? then '#' else '@')
    ensures NameToString(n)[1..] == AsName(n)
  {
  }

  /** Printing a name loses nothing: the sign and the identifier come back. */
  lemma NameToStringInjective(a: Name, b: Name)
    ensures NameToString(a) == NameToString(b) ==> a == b
  {
    if NameToString(a) == NameToString(b) {
      NameToStringParts(a);
      NameToStringParts(b);
    }
  }

  function AgentToString(a: Agent): string
    decreases a, 1
  {
    if |a.body| == 0 then a.name
    else a.name + "(" + Join(TermStrings(a.body), ", ") + ")"
  }

  /** The printed sub-terms of an agent, in order. */
  function TermStrings(ts: seq<Term>): (ss: seq<string>)
    ensures |ss| == |ts|
    decreases ts, 0
  {
    seq(|ts|, i requires 0 <= i < |ts| => TermToString(ts[i]))
  }

  function TermToString(t: Term): string
    decreases t, 2
  {
    match t
    case NameTerm(n) => NameToString(n)
    case AgentTerm(a) => AgentToString(a)
  }

  function EquationToString(e: Equation): string
  {
    TermToString(e.left) + " -> " + TermToString(e.right)
  }

  function NameStrings(ns: seq<Name>): (ss: seq<string>)
    ensures |ss| == |ns|
    ensures forall i :: 0 <= i < |ns| ==> ss[i] == NameToString(ns[i])
  {
    seq(|ns|, i requires 0 <= i < |ns| => NameToString(ns[i]))
  }

  function RuleTermToString(r: RuleTerm): string
  {
    if |r.body| == 0 then r.agent else r.agent + "(" + Join(NameStrings(r.body), ", ") + ")"
  }

  function RuleTermPairToString(p: RuleTermPair): string
  {
    RuleTermToString(p.left) + " >> " + RuleTermToString(p.right)
  }

  function EquationStrings(es: seq<Equation>): (ss: seq<string>)
    ensures |ss| == |es|
    ensures forall i :: 0 <= i < |es| ==> ss[i] == EquationToString(es[i])
  {
    seq(|es|, i requires 0 <= i < |es| => EquationToString(es[i]))
  }

  function RuleToString(r: Rule): string
  {
    RuleTermPairToString(r.termPair)
      + if |r.equations| == 0 then "" else " => " + Join(EquationStrings(r.equations), ", ")
  }

  function InterfaceLine(t: Term): string
  {
    TermToString(t) + " -> $"
  }

  function InterfaceStrings(ts: seq<Term>): (ss: seq<string>)
    ensures |ss| == |ts|
    ensures forall i :: 0 <= i < |ts| ==> ss[i] == InterfaceLine(ts[i])
  {
    seq(|ts|, i requires 0 <= i < |ts| => InterfaceLine(ts[i]))
  }

  function RuleStrings(rs: seq<Rule>): (ss: seq<string>)
    ensures |ss| == |rs|
    ensures forall i :: 0 <= i < |rs| ==> ss[i] == RuleToString(rs[i])
  {
    seq(|rs|, i requires 0 <= i < |rs| => RuleToString(rs[i]))
  }

  /** The printed lines of a program: rules, then net equations, then one
      `t -> $` line per interface. */
  function ProgramLines(p: Program): (ls: seq<string>)
    ensures |ls| == |p.rules| + |p.net| + |p.interfaces|
  {
    RuleStrings(p.rules) + EquationStrings(p.net) + InterfaceStrings(p.interfaces)
  }

  function ProgramToString(p: Program): string
  {
    Lines(ProgramLines(p))
  }

  /** The leaves of a term, left to right: the order in which the checks and the
      builders meet its variables. */
  function Leaves(t: Term): seq<Name>
    decreases t, 1
  {
    match t
    case NameTerm(n) => [n]
    case AgentTerm(a) => LeavesOf(a.body)
  }

  function LeavesOf(ts: seq<Term>): seq<Name>
    decreases ts, 0
  {
    if |ts| == 0 then [] else LeavesOf(ts[..|ts| - 1]) + Leaves(ts[|ts| - 1])
  }
}
