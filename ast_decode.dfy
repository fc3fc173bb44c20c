/** A reader for the text the AST printers produce.  It is the inverse of
    `TermToString`, `EquationToString` and `RuleToString` on trees whose identifiers
    are plain words, so printing a tree loses no information. */
module AstDecode {

  import opened Wrappers
  import opened Strings
  import opened Ast

  /** Characters that may appear in an identifier: everything but the punctuation
      the printers put between identifiers. */
  predicate IsIdentChar(c: char) { c !in "(), #@\n" }

  predicate IsIdent(s: string) { |s| > 0 && forall i :: 0 <= i < |s| ==> IsIdentChar(s[i]) }

  predicate WfName(n: Name) { IsIdent(n.id) }

  predicate WfTerm(t: Term)
    decreases t, 1
  {
    match t
    case NameTerm(n) => WfName(n)
    case AgentTerm(a) => IsIdent(a.name) && WfTerms(a.body)
  }

  predicate WfTerms(ts: seq<Term>)
    decreases ts, 0
  {
    forall i :: 0 <= i < |ts| ==> WfTerm(ts[i])
  }

  predicate WfEquation(e: Equation) { WfTerm(e.left) && WfTerm(e.right) }

  predicate WfRuleTerm(r: RuleTerm)
  {
    IsIdent(r.agent) && forall i :: 0 <= i < |r.body| ==> WfName(r.body[i])
  }

  predicate WfRule(r: Rule)
  {
    WfRuleTerm(r.termPair.left) && WfRuleTerm(r.termPair.right)
    && forall i :: 0 <= i < |r.equations| ==> WfEquation(r.equations[i])
  }

  /** A character that may follow a printed term: not part of an identifier and not an
      opening parenthesis. */
  predicate Stops(rest: string) { rest == [] || (!IsIdentChar(rest[0]) && rest[0] != '(') }

  function IdentRun(s: string): (k: nat)
    ensures k <= |s|
    ensures forall i :: 0 <= i < k ==> IsIdentChar(s[i])
    ensures k < |s| ==> !IsIdentChar(s[k])
  {
    if |s| == 0 || !IsIdentChar(s[0]) then 0 else 1 + IdentRun(s[1..])
  }

  lemma {:induction false} IdentRunAppend(x: string, rest: string)
    requires forall i :: 0 <= i < |x| ==> IsIdentChar(x[i])
    requires rest == [] || !IsIdentChar(rest[0])
    ensures IdentRun(x + rest) == |x|
    decreases |x|
  {
    if |x| > 0 {
      assert (x + rest)[1..] == x[1..] + rest;
      IdentRunAppend(x[1..], rest);
    }
  }

  function ParseName(s: string): (r: Option<(Name, string)>)
    ensures r.Some? ==> |r.value.1| < |s|
  {
    if |s| == 0 || (s[0] != '#' && s[0] != '@') then None
    else
      var k := IdentRun(s[1..]);
      if k == 0 then None
      else
        var id := s[1..1 + k];
        Some((if s[0] == '#' then In(id) else Out(id), s[1 + k..]))
  }

  function ParseTerm(s: string): (r: Option<(Term, string)>)
    ensures r.Some? ==> |r.value.1| < |s|
    decreases |s|, 0
  {
    if |s| > 0 && (s[0] == '#' || s[0] == '@') then
      match ParseName(s)
      case None => None
      case Some((n, rest)) => Some((NameTerm(n), rest))
    else
      var k := IdentRun(s);
      if k == 0 then None
      else if k < |s| && s[k] == '(' then
        match ParseTerms(s[k + 1..])
        case None => None
        case Some((ts, rest)) =>
          if |rest| > 0 && rest[0] == ')' then Some((AgentTerm(Agent(s[..k], ts)), rest[1..]))
          else None
      else Some((AgentTerm(Agent(s[..k], [])), s[k..]))
  }

  /** One or more terms separated by `", "`. */
  function ParseTerms(s: string): (r: Option<(seq<Term>, string)>)
    ensures r.Some? ==> |r.value.1| < |s|
    decreases |s|, 1
  {
    match ParseTerm(s)
    case None => None
    case Some((t, rest)) =>
      if |rest| >= 2 && rest[..2] == ", " then
        match ParseTerms(rest[2..])
        case None => None
        case Some((ts, rest')) => Some(([t] + ts, rest'))
      else Some(([t], rest))
  }

  lemma {:induction false} NameRoundTrip(n: Name, rest: string)
    requires WfName(n)
    requires rest == [] || !IsIdentChar(rest[0])
    ensures ParseName(NameToString(n) + rest) == Some((n, rest))
  {
    var s := NameToString(n) + rest;
    NameToStringParts(n);
    assert s[1..] == n.id + rest;
    IdentRunAppend(n.id, rest);
    assert s[1..1 + |n.id|] == n.id;
    assert s[1 + |n.id|..] == rest;
  }

  lemma {:induction false} TermRoundTrip(t: Term, rest: string)
    requires WfTerm(t)
    requires Stops(rest)
    ensures ParseTerm(TermToString(t) + rest) == Some((t, rest))
    decreases t, 1
  {
    match t
    case NameTerm(n) =>
      NameRoundTrip(n, rest);
    case AgentTerm(a) =>
      var s := TermToString(t) + rest;
      assert TermToString(t) == AgentToString(a);
      if |a.body| == 0 {
        assert s == a.name + rest;
        ParseAgentBare(s, a.name, rest);
      } else {
        var inner := Join(TermStrings(a.body), ", ");
        assert s == a.name + ("(" + (inner + (")" + rest)));
        TermsRoundTrip(a.body, ")" + rest);
        ParseAgentWith(s, a.name, inner + (")" + rest), a.body, rest);
      }
  }

  /** An identifier not followed by `(`: how `ParseTerm` reads an agent without
      arguments. */
  lemma ParseAgentBare(s: string, name: string, rest: string)
    requires IsIdent(name) && Stops(rest)
    requires s == name + rest
    ensures ParseTerm(s) == Some((AgentTerm(Agent(name, [])), rest))
  {
    IdentRunAppend(name, rest);
    assert s[..|name|] == name && s[|name|..] == rest;
  }

  /** An identifier, `(`, terms, `)`: how `ParseTerm` reads an agent with arguments. */
  lemma ParseAgentWith(s: string, name: string, after: string, ts: seq<Term>, rest: string)
    requires IsIdent(name)
    requires s == name + ("(" + after)
    requires ParseTerms(after) == Some((ts, ")" + rest))
    ensures ParseTerm(s) == Some((AgentTerm(Agent(name, ts)), rest))
  {
    assert !IsIdentChar('(');
    IdentRunAppend(name, "(" + after);
    var k := |name|;
    assert s[0] == name[0] && s[k] == '(';
    assert s[..k] == name;
    assert s[k + 1..] == after;
    var tail := ")" + rest;
    assert |tail| > 0 && tail[0] == ')' && tail[1..] == rest;
  }

  lemma {:induction false} ParseTermsStep(s: string, t: Term, after: string, ts: seq<Term>, rest: string)
    requires ParseTerm(s) == Some((t, ", " + after))
    requires ParseTerms(after) == Some((ts, rest))
    ensures ParseTerms(s) == Some(([t] + ts, rest))
  {
    assert (", " + after)[..2] == ", " && (", " + after)[2..] == after;
  }

  lemma {:induction false} ParseTermsLast(s: string, t: Term, rest: string)
    requires ParseTerm(s) == Some((t, rest))
    requires rest == [] || rest[0] != ','
    ensures ParseTerms(s) == Some(([t], rest))
  {
    if |rest| >= 2 {
      assert rest[..2][0] == rest[0];
    }
  }

  lemma {:induction false} TermsRoundTrip(ts: seq<Term>, rest: string)
    requires |ts| > 0 && WfTerms(ts)
    requires |rest| > 0 && rest[0] == ')'
    ensures ParseTerms(Join(TermStrings(ts), ", ") + rest) == Some((ts, rest))
    decreases ts, 0
  {
    var ss := TermStrings(ts);
    assert !IsIdentChar(')');
    if |ts| == 1 {
      assert Join(ss, ", ") == TermToString(ts[0]);
      TermRoundTrip(ts[0], rest);
      ParseTermsLast(Join(ss, ", ") + rest, ts[0], rest);
      assert [ts[0]] == ts;
    } else {
      var after := Join(ss[1..], ", ") + rest;
      assert ss[1..] == TermStrings(ts[1..]);
      JoinCons(ss, ", ", rest);
      assert ", " + Join(ss[1..], ", ") + rest == ", " + after;
      TermRoundTrip(ts[0], ", " + after);
      TermsRoundTrip(ts[1..], rest);
      ParseTermsStep(Join(ss, ", ") + rest, ts[0], after, ts[1..], rest);
      assert [ts[0]] + ts[1..] == ts;
    }
  }

  function ParseEquation(s: string): (r: Option<(Equation, string)>)
    ensures r.Some? ==> |r.value.1| < |s|
  {
    match ParseTerm(s)
    case None => None
    case Some((l, rest)) =>
      if |rest| >= 4 && rest[..4] == " -> " then
        match ParseTerm(rest[4..])
        case None => None
        case Some((r, rest')) => Some((Equation(l, r), rest'))
      else None
  }

  lemma {:induction false} EquationRoundTrip(e: Equation, rest: string)
    requires WfEquation(e)
    requires Stops(rest)
    ensures ParseEquation(EquationToString(e) + rest) == Some((e, rest))
  {
    var r := TermToString(e.right) + rest;
    assert EquationToString(e) + rest == TermToString(e.left) + (" -> " + r);
    TermRoundTrip(e.left, " -> " + r);
    assert (" -> " + r)[4..] == r;
    TermRoundTrip(e.right, rest);
  }

  /** One or more equations separated by `", "`. */
  function ParseEquations(s: string): (r: Option<(seq<Equation>, string)>)
    ensures r.Some? ==> |r.value.1| < |s|
    decreases |s|
  {
    match ParseEquation(s)
    case None => None
    case Some((e, rest)) =>
      if |rest| >= 2 && rest[..2] == ", " then
        match ParseEquations(rest[2..])
        case None => None
        case Some((es, rest')) => Some(([e] + es, rest'))
      else Some(([e], rest))
  }

  lemma {:induction false} ParseEquationsStep(s: string, e: Equation, after: string, es: seq<Equation>, rest: string)
    requires ParseEquation(s) == Some((e, ", " + after))
    requires ParseEquations(after) == Some((es, rest))
    ensures ParseEquations(s) == Some(([e] + es, rest))
  {
    assert (", " + after)[..2] == ", " && (", " + after)[2..] == after;
  }

  lemma {:induction false} ParseEquationsLast(s: string, e: Equation, rest: string)
    requires ParseEquation(s) == Some((e, rest))
    requires rest == [] || rest[0] != ','
    ensures ParseEquations(s) == Some(([e], rest))
  {
    if |rest| >= 2 {
      assert rest[..2][0] == rest[0];
    }
  }

  lemma {:induction false} EquationsRoundTripOne(es: seq<Equation>, rest: string)
    requires |es| == 1 && WfEquation(es[0])
    requires rest == [] || rest[0] == '\n'
    ensures ParseEquations(Join(EquationStrings(es), ", ") + rest) == Some((es, rest))
  {
    var ss := EquationStrings(es);
    assert Join(ss, ", ") == EquationToString(es[0]);
    EquationRoundTrip(es[0], rest);
    ParseEquationsLast(Join(ss, ", ") + rest, es[0], rest);
    assert [es[0]] == es;
  }

  lemma {:induction false} EquationStringsCons(e: Equation, tail: seq<Equation>, rest: string)
    requires |tail| > 0
    ensures Join(EquationStrings([e] + tail), ", ") + rest
         == EquationToString(e) + (", " + (Join(EquationStrings(tail), ", ") + rest))
  {
    var ss := EquationStrings([e] + tail);
    assert ss[0] == EquationToString(e);
    assert ss[1..] == EquationStrings(tail);
    JoinCons(ss, ", ", rest);
  }

  lemma {:induction false} EquationsRoundTripCons(e: Equation, tail: seq<Equation>, after: string, rest: string)
    requires |tail| > 0 && WfEquation(e)
    requires after == Join(EquationStrings(tail), ", ") + rest
    requires ParseEquations(after) == Some((tail, rest))
    ensures ParseEquations(Join(EquationStrings([e] + tail), ", ") + rest) == Some(([e] + tail, rest))
  {
    EquationStringsCons(e, tail, rest);
    EquationRoundTrip(e, ", " + after);
    ParseEquationsStep(EquationToString(e) + (", " + after), e, after, tail, rest);
  }

  lemma {:induction false} EquationsRoundTrip(es: seq<Equation>, rest: string)
    requires |es| > 0 && forall i :: 0 <= i < |es| ==> WfEquation(es[i])
    requires rest == [] || rest[0] == '\n'
    ensures ParseEquations(Join(EquationStrings(es), ", ") + rest) == Some((es, rest))
    decreases |es|
  {
    if |es| == 1 {
      EquationsRoundTripOne(es, rest);
    } else {
      EquationsRoundTrip(es[1..], rest);
      EquationsRoundTripCons(es[0], es[1..], Join(EquationStrings(es[1..]), ", ") + rest, rest);
      assert [es[0]] + es[1..] == es;
    }
  }

  /** One or more names separated by `", "`. */
  function ParseNames(s: string): (r: Option<(seq<Name>, string)>)
    ensures r.Some? ==> |r.value.1| < |s|
    decreases |s|
  {
    match ParseName(s)
    case None => None
    case Some((n, rest)) =>
      if |rest| >= 2 && rest[..2] == ", " then
        match ParseNames(rest[2..])
        case None => None
        case Some((ns, rest')) => Some(([n] + ns, rest'))
      else Some(([n], rest))
  }

  lemma {:induction false} ParseNamesStep(s: string, n: Name, after: string, ns: seq<Name>, rest: string)
    requires ParseName(s) == Some((n, ", " + after))
    requires ParseNames(after) == Some((ns, rest))
    ensures ParseNames(s) == Some(([n] + ns, rest))
  {
    assert (", " + after)[..2] == ", " && (", " + after)[2..] == after;
  }

  lemma {:induction false} ParseNamesLast(s: string, n: Name, rest: string)
    requires ParseName(s) == Some((n, rest))
    requires rest == [] || rest[0] != ','
    ensures ParseNames(s) == Some(([n], rest))
  {
    if |rest| >= 2 {
      assert rest[..2][0] == rest[0];
    }
  }

  lemma {:induction false} NamesRoundTripOne(ns: seq<Name>, rest: string)
    requires |ns| == 1 && WfName(ns[0])
    requires |rest| > 0 && rest[0] == ')'
    ensures ParseNames(Join(NameStrings(ns), ", ") + rest) == Some((ns, rest))
  {
    assert Join(NameStrings(ns), ", ") == NameToString(ns[0]);
    NameRoundTrip(ns[0], rest);
    ParseNamesLast(Join(NameStrings(ns), ", ") + rest, ns[0], rest);
    assert [ns[0]] == ns;
  }

  lemma {:induction false} NamesRoundTrip(ns: seq<Name>, rest: string)
    requires |ns| > 0 && forall i :: 0 <= i < |ns| ==> WfName(ns[i])
    requires |rest| > 0 && rest[0] == ')'
    ensures ParseNames(Join(NameStrings(ns), ", ") + rest) == Some((ns, rest))
    decreases |ns|
  {
    var ss := NameStrings(ns);
    if |ns| == 1 {
      NamesRoundTripOne(ns, rest);
    } else {
      var after := Join(ss[1..], ", ") + rest;
      assert ss[1..] == NameStrings(ns[1..]);
      JoinCons(ss, ", ", rest);
      assert ", " + Join(ss[1..], ", ") + rest == ", " + after;
      NameRoundTrip(ns[0], ", " + after);
      NamesRoundTrip(ns[1..], rest);
      ParseNamesStep(Join(ss, ", ") + rest, ns[0], after, ns[1..], rest);
      assert [ns[0]] + ns[1..] == ns;
    }
  }

  function ParseRuleTerm(s: string): (r: Option<(RuleTerm, string)>)
    ensures r.Some? ==> |r.value.1| < |s|
  {
    var k := IdentRun(s);
    if k == 0 then None
    else if k < |s| && s[k] == '(' then
      match ParseNames(s[k + 1..])
      case None => None
      case Some((ns, rest)) =>
        if |rest| > 0 && rest[0] == ')' then Some((RuleTerm(s[..k], ns), rest[1..])) else None
    else Some((RuleTerm(s[..k], []), s[k..]))
  }

  lemma {:induction false} RuleTermRoundTripBare(r: RuleTerm, rest: string)
    requires WfRuleTerm(r) && |r.body| == 0
    requires Stops(rest)
    ensures ParseRuleTerm(RuleTermToString(r) + rest) == Some((r, rest))
  {
    var s := RuleTermToString(r) + rest;
    IdentRunAppend(r.agent, rest);
    assert s[..|r.agent|] == r.agent && s[|r.agent|..] == rest;
  }

  /** An identifier, `(`, names, `)`: how `ParseRuleTerm` reads a term with arguments. */
  lemma {:induction false} ParseRuleTermWith(s: string, agent: string, after: string, ns: seq<Name>, rest: string)
    requires IsIdent(agent)
    requires s == agent + ("(" + after)
    requires ParseNames(after) == Some((ns, ")" + rest))
    ensures ParseRuleTerm(s) == Some((RuleTerm(agent, ns), rest))
  {
    assert !IsIdentChar('(');
    IdentRunAppend(agent, "(" + after);
    assert s[..|agent|] == agent;
    assert s[|agent| + 1..] == after;
    assert (")" + rest)[1..] == rest;
  }

  lemma {:induction false} RuleTermRoundTripArgs(r: RuleTerm, rest: string)
    requires WfRuleTerm(r) && |r.body| > 0
    requires Stops(rest)
    ensures ParseRuleTerm(RuleTermToString(r) + rest) == Some((r, rest))
  {
    var inner := Join(NameStrings(r.body), ", ");
    assert RuleTermToString(r) + rest == r.agent + ("(" + (inner + (")" + rest)));
    NamesRoundTrip(r.body, ")" + rest);
    ParseRuleTermWith(RuleTermToString(r) + rest, r.agent, inner + (")" + rest), r.body, rest);
  }

  lemma {:induction false} RuleTermRoundTrip(r: RuleTerm, rest: string)
    requires WfRuleTerm(r)
    requires Stops(rest)
    ensures ParseRuleTerm(RuleTermToString(r) + rest) == Some((r, rest))
  {
    if |r.body| == 0 {
      RuleTermRoundTripBare(r, rest);
    } else {
      RuleTermRoundTripArgs(r, rest);
    }
  }

  function ParseRule(s: string): Option<(Rule, string)>
  {
    match ParseRuleTerm(s)
    case None => None
    case Some((l, rest)) =>
      if |rest| >= 4 && rest[..4] == " >> " then
        match ParseRuleTerm(rest[4..])
        case None => None
        case Some((r, rest')) =>
          if |rest'| >= 4 && rest'[..4] == " => " then
            match ParseEquations(rest'[4..])
            case None => None
            case Some((es, rest'')) => Some((Rule(RuleTermPair(l, r), es), rest''))
          else Some((Rule(RuleTermPair(l, r), []), rest'))
      else None
  }

  lemma {:induction false} ParseRuleWith(s: string, l: RuleTerm, a1: string, r: RuleTerm, a2: string,
                      es: seq<Equation>, rest: string)
    requires ParseRuleTerm(s) == Some((l, " >> " + a1))
    requires ParseRuleTerm(a1) == Some((r, " => " + a2))
    requires ParseEquations(a2) == Some((es, rest))
    ensures ParseRule(s) == Some((Rule(RuleTermPair(l, r), es), rest))
  {
    assert (" >> " + a1)[..4] == " >> " && (" >> " + a1)[4..] == a1;
    assert (" => " + a2)[..4] == " => " && (" => " + a2)[4..] == a2;
  }

  lemma {:induction false} ParseRuleWithout(s: string, l: RuleTerm, a1: string, r: RuleTerm, rest: string)
    requires ParseRuleTerm(s) == Some((l, " >> " + a1))
    requires ParseRuleTerm(a1) == Some((r, rest))
    requires rest == [] || rest[0] == '\n'
    ensures ParseRule(s) == Some((Rule(RuleTermPair(l, r), []), rest))
  {
    assert (" >> " + a1)[..4] == " >> " && (" >> " + a1)[4..] == a1;
    if |rest| >= 4 {
      assert rest[..4][0] == rest[0];
    }
  }

  lemma {:induction false} RuleRoundTripBare(r: Rule, rest: string)
    requires WfRule(r) && |r.equations| == 0
    requires rest == [] || rest[0] == '\n'
    ensures ParseRule(RuleToString(r) + rest) == Some((r, rest))
  {
    var p := r.termPair;
    var s := RuleToString(r) + rest;
    var a1 := RuleTermToString(p.right) + rest;
    assert !IsIdentChar(' ');
    assert s == RuleTermToString(p.left) + (" >> " + a1);
    RuleTermRoundTrip(p.left, " >> " + a1);
    RuleTermRoundTrip(p.right, rest);
    ParseRuleWithout(s, p.left, a1, p.right, rest);
  }

  lemma {:induction false} RuleStringWith(r: Rule, rest: string)
    requires |r.equations| > 0
    ensures RuleToString(r) + rest
         == RuleTermToString(r.termPair.left)
              + (" >> " + (RuleTermToString(r.termPair.right)
                             + (" => " + (Join(EquationStrings(r.equations), ", ") + rest))))
  {
  }

  lemma {:induction false} RuleRoundTripWith(r: Rule, rest: string)
    requires WfRule(r) && |r.equations| > 0
    requires rest == [] || rest[0] == '\n'
    ensures ParseRule(RuleToString(r) + rest) == Some((r, rest))
  {
    var p := r.termPair;
    var a2 := Join(EquationStrings(r.equations), ", ") + rest;
    var a1 := RuleTermToString(p.right) + (" => " + a2);
    assert !IsIdentChar(' ');
    RuleStringWith(r, rest);
    RuleTermRoundTrip(p.left, " >> " + a1);
    RuleTermRoundTrip(p.right, " => " + a2);
    EquationsRoundTrip(r.equations, rest);
    ParseRuleWith(RuleToString(r) + rest, p.left, a1, p.right, a2, r.equations, rest);
  }

  /** A printed rule, followed by the end of its line, reads back as the same rule. */
  lemma {:induction false} RuleRoundTrip(r: Rule, rest: string)
    requires WfRule(r)
    requires rest == [] || rest[0] == '\n'
    ensures ParseRule(RuleToString(r) + rest) == Some((r, rest))
  {
    if |r.equations| == 0 {
      RuleRoundTripBare(r, rest);
    } else {
      RuleRoundTripWith(r, rest);
    }
  }

  lemma {:induction false} NoNewlineInTerm(t: Term)
    requires WfTerm(t)
    ensures '\n' !in TermToString(t)
    decreases t, 1
  {
    match t
    case NameTerm(n) =>
    case AgentTerm(a) =>
      if |a.body| > 0 {
        NoNewlineInTerms(a.body);
        JoinChars(TermStrings(a.body), ", ", '\n');
      }
  }

  lemma {:induction false} NoNewlineInTerms(ts: seq<Term>)
    requires WfTerms(ts)
    ensures forall i :: 0 <= i < |ts| ==> '\n' !in TermStrings(ts)[i]
    decreases ts, 0
  {
    forall i | 0 <= i < |ts| ensures '\n' !in TermStrings(ts)[i] {
      NoNewlineInTerm(ts[i]);
    }
  }

  lemma {:induction false} NoNewlineInEquations(es: seq<Equation>)
    requires forall i :: 0 <= i < |es| ==> WfEquation(es[i])
    ensures '\n' !in Join(EquationStrings(es), ", ")
  {
    forall i | 0 <= i < |es| ensures '\n' !in EquationStrings(es)[i] {
      NoNewlineInTerm(es[i].left);
      NoNewlineInTerm(es[i].right);
    }
    JoinChars(EquationStrings(es), ", ", '\n');
  }

  lemma {:induction false} NoNewlineInRuleTerm(r: RuleTerm)
    requires WfRuleTerm(r)
    ensures '\n' !in RuleTermToString(r)
  {
    JoinChars(NameStrings(r.body), ", ", '\n');
  }

  lemma {:induction false} NoNewlineInRule(r: Rule)
    requires WfRule(r)
    ensures '\n' !in RuleToString(r)
  {
    NoNewlineInRuleTerm(r.termPair.left);
    NoNewlineInRuleTerm(r.termPair.right);
    NoNewlineInEquations(r.equations);
  }

  predicate WfProgram(p: Program)
  {
    && (forall i :: 0 <= i < |p.rules| ==> WfRule(p.rules[i]))
    && (forall i :: 0 <= i < |p.net| ==> WfEquation(p.net[i]))
    && (forall i :: 0 <= i < |p.interfaces| ==> WfTerm(p.interfaces[i]))
  }

  /** No printed line of a program contains a line break. */
  lemma {:induction false} ProgramLinesNoNewline(p: Program)
    requires WfProgram(p)
    ensures forall i :: 0 <= i < |ProgramLines(p)| ==> '\n' !in ProgramLines(p)[i]
  {
    var lines := ProgramLines(p);
    var nr, nn := |p.rules|, |p.net|;
    forall i | 0 <= i < |lines| ensures '\n' !in lines[i] {
      if i < nr {
        NoNewlineInRule(p.rules[i]);
      } else if i < nr + nn {
        NoNewlineInTerm(p.net[i - nr].left);
        NoNewlineInTerm(p.net[i - nr].right);
      } else {
        NoNewlineInTerm(p.interfaces[i - nr - nn]);
      }
    }
  }

  /** Cutting a printed program at its line breaks gives back its lines, and an empty
      last piece after the final newline. */
  lemma {:induction false} ProgramSplit(p: Program)
    requires WfProgram(p)
    ensures Split(ProgramToString(p), "\n") == ProgramLines(p) + [""]
  {
    ProgramLinesNoNewline(p);
    LinesIsJoin(ProgramLines(p));
    SplitJoin(ProgramLines(p) + [""], "\n");
  }

  lemma {:induction false} RuleLineRoundTrip(p: Program, i: nat)
    requires WfProgram(p) && i < |p.rules|
    ensures ParseRule(ProgramLines(p)[i]) == Some((p.rules[i], ""))
  {
    RuleRoundTrip(p.rules[i], "");
    assert RuleToString(p.rules[i]) + "" == ProgramLines(p)[i];
  }

  lemma {:induction false} NetLineRoundTrip(p: Program, i: nat)
    requires WfProgram(p) && i < |p.net|
    ensures ParseEquation(ProgramLines(p)[|p.rules| + i]) == Some((p.net[i], ""))
  {
    EquationRoundTrip(p.net[i], "");
    assert EquationToString(p.net[i]) + "" == ProgramLines(p)[|p.rules| + i];
  }

  lemma {:induction false} InterfaceLineRoundTrip(p: Program, i: nat)
    requires WfProgram(p) && i < |p.interfaces|
    ensures ParseEquation(ProgramLines(p)[|p.rules| + |p.net| + i])
      == Some((Equation(p.interfaces[i], AgentTerm(Agent("$", []))), ""))
  {
    var e := Equation(p.interfaces[i], AgentTerm(Agent("$", [])));
    assert IsIdent("$");
    EquationRoundTrip(e, "");
    var a, b, c := RuleStrings(p.rules), EquationStrings(p.net), InterfaceStrings(p.interfaces);
    assert (a + b + c)[|a| + |b| + i] == c[i];
    assert EquationToString(e) + "" == c[i];
  }

  /** Each printed line of a program reads back as the item it came from: one line
      per rule, then per net equation, then per interface (an interface `t` as the
      equation `t -> $`). */
  lemma {:induction false} ProgramRoundTrip(p: Program)
    requires WfProgram(p)
    ensures var ls := ProgramLines(p);
      && |ls| == |p.rules| + |p.net| + |p.interfaces|
      && (forall i :: 0 <= i < |p.rules| ==> ParseRule(ls[i]) == Some((p.rules[i], "")))
      && (forall i :: 0 <= i < |p.net| ==>
            ParseEquation(ls[|p.rules| + i]) == Some((p.net[i], "")))
      && (forall i :: 0 <= i < |p.interfaces| ==>
            ParseEquation(ls[|p.rules| + |p.net| + i])
              == Some((Equation(p.interfaces[i], AgentTerm(Agent("$", []))), "")))
  {
    forall i | 0 <= i < |p.rules| ensures ParseRule(ProgramLines(p)[i]) == Some((p.rules[i], "")) {
      RuleLineRoundTrip(p, i);
    }
    forall i | 0 <= i < |p.net|
      ensures ParseEquation(ProgramLines(p)[|p.rules| + i]) == Some((p.net[i], ""))
    {
      NetLineRoundTrip(p, i);
    }
    forall i | 0 <= i < |p.interfaces|
      ensures ParseEquation(ProgramLines(p)[|p.rules| + |p.net| + i])
        == Some((Equation(p.interfaces[i], AgentTerm(Agent("$", []))), ""))
    {
      InterfaceLineRoundTrip(p, i);
    }
  }
}
