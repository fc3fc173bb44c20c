/** The static checks run on a parsed program before it is compiled (src/check.rs).
    The Rust functions walk the tree with loops and thread a `HashSet` or `HashMap`
    through them; here each is a method doing the same, with a Dafny `set` or `map`
    standing for the hash table, proved against a specification over the list of
    variable occurrences: how often a name occurs, and which direction it took
    first. */
module Check {

  import opened Wrappers
  import opened Strings
  import opened Ast

  // ---------------------------------------------------------------------------
  // Occurrence lists

  /** The parameters of both rule heads, left head first. */
  function HeadNames(rule: Rule): seq<Name>
  {
    rule.termPair.left.body + rule.termPair.right.body
  }

  /** The variable occurrences of a list of equations, left side before right. */
  function EqLeaves(es: seq<Equation>): seq<Name>
  {
    if |es| == 0 then []
    else EqLeaves(es[..|es| - 1]) + Leaves(es[|es| - 1].left) + Leaves(es[|es| - 1].right)
  }

  /** Everything `check_rule_variables` counts. */
  function RuleLeaves(rule: Rule): seq<Name>
  {
    HeadNames(rule) + EqLeaves(rule.equations)
  }

  /** Everything `check_net_variables` counts: the interfaces, then the net. */
  function NetLeaves(p: Program): seq<Name>
  {
    LeavesOf(p.interfaces) + EqLeaves(p.net)
  }

  function Ids(ns: seq<Name>): set<string>
  {
    set i | 0 <= i < |ns| :: ns[i].id
  }

  /** How many occurrences of `ns` carry the identifier `x`, whatever their sign. */
  function Count(ns: seq<Name>, x: string): nat
  {
    if |ns| == 0 then 0
    else Count(ns[..|ns| - 1], x) + (if ns[|ns| - 1].id == x then 1 else 0)
  }

  predicate DistinctIds(ns: seq<Name>)
  {
    forall i, j :: 0 <= i < j < |ns| ==> ns[i].id != ns[j].id
  }

  /** Linearity: every variable that occurs, occurs exactly twice. */
  predicate ExactlyTwice(ns: seq<Name>)
  {
    forall x :: x in Ids(ns) ==> Count(ns, x) == 2
  }

  lemma {:induction false} CountAppend(a: seq<Name>, b: seq<Name>, x: string)
    ensures Count(a + b, x) == Count(a, x) + Count(b, x)
    decreases |b|
  {
    if |b| > 0 {
      assert (a + b)[..|a + b| - 1] == a + b[..|b| - 1];
      CountAppend(a, b[..|b| - 1], x);
    } else {
      assert a + b == a;
    }
  }

  lemma {:induction false} CountPositive(ns: seq<Name>, x: string)
    ensures Count(ns, x) > 0 <==> x in Ids(ns)
    decreases |ns|
  {
    if |ns| > 0 {
      var init := ns[..|ns| - 1];
      CountPositive(init, x);
      assert Ids(ns) == Ids(init) + {ns[|ns| - 1].id} by {
        forall y | y in Ids(ns) ensures y in Ids(init) + {ns[|ns| - 1].id} {
          var i :| 0 <= i < |ns| && ns[i].id == y;
          if i < |ns| - 1 {
            assert init[i] == ns[i];
          }
        }
        forall y | y in Ids(init) ensures y in Ids(ns) {
          var i :| 0 <= i < |init| && init[i].id == y;
          assert ns[i] == init[i];
        }
      }
    }
  }

  // ---------------------------------------------------------------------------
  // Error messages (the `bail!` texts)

  function DuplicateMsg(n: Name): string
  {
    "variable `" + NameToString(n) + "` appears more than once"
  }

  function CountMsg(x: string, c: nat): string
  {
    "variable `" + x + "` appears " + NatToString(c) + " times"
  }

  function InTwiceMsg(n: Name): string
  {
    "variable `" + NameToString(n) + "` is used as input more than once"
  }

  function OutTwiceMsg(n: Name): string
  {
    "variable `" + NameToString(n) + "` is used as output more than once"
  }

  const LeftOutputMsg := "left side of equation cannot be output variable"
  const RightInputMsg := "right side of equation cannot be input variable"

  function ConflictMsg(first: Rule, second: Rule): string
  {
    "conflict rules:\n" + RuleToString(first) + "\n" + RuleToString(second)
  }

  function InRule(e: string, rule: Rule): string
  {
    e + " (in rule `" + RuleToString(rule) + "`)"
  }

  function InEquation(e: string, eq: Equation): string
  {
    e + " (in equation `" + EquationToString(eq) + "`)"
  }

  // ---------------------------------------------------------------------------
  // check_rule_terms

  /** `e` names the first parameter of `ns` whose identifier was already seen. */
  predicate TermsError(ns: seq<Name>, e: string)
  {
    exists j :: 0 <= j < |ns| && e == DuplicateMsg(ns[j]) && DistinctIds(ns[..j]) && ns[j].id in Ids(ns[..j])
  }

  /** `check_rule_terms`: the head parameters are pairwise distinct; otherwise the
      error names the first parameter whose identifier was already seen. */
  method CheckRuleTerms(rule: Rule) returns (r: Result<(), string>)
    ensures r.Ok? <==> DistinctIds(HeadNames(rule))
    ensures r.Err? ==> TermsError(HeadNames(rule), r.error)
  {
    var ns := HeadNames(rule);
    var names: set<string> := {};
    for j := 0 to |ns|
      invariant names == Ids(ns[..j])
      invariant DistinctIds(ns[..j])
    {
      if ns[j].id in names {
        assert !DistinctIds(ns) by {
          var i :| 0 <= i < j && ns[..j][i].id == ns[j].id;
        }
        return Err(DuplicateMsg(ns[j]));
      }
      assert Ids(ns[..j + 1]) == names + {ns[j].id} by {
        assert ns[..j + 1] == ns[..j] + [ns[j]];
        forall y | y in Ids(ns[..j + 1]) ensures y in names + {ns[j].id} {
          var i :| 0 <= i <= j && ns[..j + 1][i].id == y;
          if i < j {
            assert ns[..j][i] == ns[..j + 1][i];
          }
        }
      }
      names := names + {ns[j].id};
    }
    assert ns[..|ns|] == ns;
    return Ok(());
  }

  // ---------------------------------------------------------------------------
  // count_names, check_rule_variables, check_net_variables

  /** The counter map after adding one for every occurrence in `ns`, as
      `*names.entry(x).or_insert(0) += 1` does. */
  function AddCounts(m: map<string, nat>, ns: seq<Name>): map<string, nat>
  {
    if |ns| == 0 then m
    else
      var m' := AddCounts(m, ns[..|ns| - 1]);
      var x := ns[|ns| - 1].id;
      m'[x := (if x in m' then m'[x] else 0) + 1]
  }

  lemma {:induction false} AddCountsAppend(m: map<string, nat>, a: seq<Name>, b: seq<Name>)
    ensures AddCounts(m, a + b) == AddCounts(AddCounts(m, a), b)
    decreases |b|
  {
    if |b| > 0 {
      assert (a + b)[..|a + b| - 1] == a + b[..|b| - 1];
      AddCountsAppend(m, a, b[..|b| - 1]);
    } else {
      assert a + b == a;
    }
  }

  /** Starting from an empty map, the counter map holds exactly the identifiers that
      occur, each with its number of occurrences. */
  lemma {:induction false} AddCountsCounts(ns: seq<Name>)
    ensures forall x :: x in AddCounts(map[], ns) <==> x in Ids(ns)
    ensures forall x :: x in AddCounts(map[], ns) ==> AddCounts(map[], ns)[x] == Count(ns, x)
    decreases |ns|
  {
    if |ns| > 0 {
      var init := ns[..|ns| - 1];
      AddCountsCounts(init);
      forall x ensures x in Ids(ns) <==> x in Ids(init) || x == ns[|ns| - 1].id {
        CountPositive(ns, x);
        CountPositive(init, x);
      }
      forall x | x in AddCounts(map[], init) ensures x in Ids(init) {
      }
      forall x | x !in AddCounts(map[], init) ensures Count(init, x) == 0 {
        CountPositive(init, x);
      }
    }
  }

  /** `count_names`: one more for every variable leaf of `t`, left to right. */
  method CountNames(t: Term, names: map<string, nat>) returns (names': map<string, nat>)
    ensures names' == AddCounts(names, Leaves(t))
    decreases t
  {
    match t
    case NameTerm(n) =>
      var x := AsName(n);
      names' := names[x := (if x in names then names[x] else 0) + 1];
      assert Leaves(t) == [n];
      assert AddCounts(names, [n]) == names';
    case AgentTerm(a) =>
      names' := names;
      for i := 0 to |a.body|
        invariant names' == AddCounts(names, LeavesOf(a.body[..i]))
      {
        names' := CountNames(a.body[i], names');
        assert a.body[..i + 1][..i] == a.body[..i];
        AddCountsAppend(names, LeavesOf(a.body[..i]), Leaves(a.body[i]));
      }
      assert a.body[..|a.body|] == a.body;
  }

  /** The final loop `for (name, count) in names`: the map is walked in an order
      Rust leaves unspecified, so the variable named in the error is any one whose
      count is not 2. */
  method CheckAllTwice(names: map<string, nat>) returns (r: Result<(), string>)
    ensures r.Ok? <==> forall x :: x in names ==> names[x] == 2
    ensures r.Err? ==> exists x :: x in names && names[x] != 2 && r.error == CountMsg(x, names[x])
  {
    var rest := names.Keys;
    while rest != {}
      invariant rest <= names.Keys
      invariant forall x :: x in names && x !in rest ==> names[x] == 2
      decreases rest
    {
      var x :| x in rest;
      if names[x] != 2 {
        return Err(CountMsg(x, names[x]));
      }
      rest := rest - {x};
    }
    return Ok(());
  }

  /** Counts the occurrences of the variables of a list of equations into `names`. */
  method CountEquations(es: seq<Equation>, names: map<string, nat>) returns (names': map<string, nat>)
    ensures names' == AddCounts(names, EqLeaves(es))
  {
    names' := names;
    for i := 0 to |es|
      invariant names' == AddCounts(names, EqLeaves(es[..i]))
    {
      var before := names';
      names' := CountNames(es[i].left, names');
      names' := CountNames(es[i].right, names');
      assert es[..i + 1][..i] == es[..i];
      AddCountsAppend(names, EqLeaves(es[..i]), Leaves(es[i].left));
      AddCountsAppend(names, EqLeaves(es[..i]) + Leaves(es[i].left), Leaves(es[i].right));
    }
    assert es[..|es|] == es;
  }

  /** `e` reports a variable of `ns` that does not occur exactly twice, with its count.
      Which such variable is left open: the source walks a `HashMap`. */
  predicate CountError(ns: seq<Name>, e: string)
  {
    exists x :: x in Ids(ns) && Count(ns, x) != 2 && e == CountMsg(x, Count(ns, x))
  }

  /** `check_rule_variables`: succeeds exactly when every variable of the rule, heads
      and equations together, occurs twice. */
  method CheckRuleVariables(rule: Rule) returns (r: Result<(), string>)
    ensures r.Ok? <==> ExactlyTwice(RuleLeaves(rule))
    ensures r.Err? ==> CountError(RuleLeaves(rule), r.error)
  {
    var heads := HeadNames(rule);
    var names: map<string, nat> := map[];
    for i := 0 to |heads|
      invariant names == AddCounts(map[], heads[..i])
    {
      var x := AsName(heads[i]);
      names := names[x := (if x in names then names[x] else 0) + 1];
      assert heads[..i + 1][..i] == heads[..i];
    }
    assert heads[..|heads|] == heads;
    names := CountEquations(rule.equations, names);
    AddCountsAppend(map[], heads, EqLeaves(rule.equations));
    AddCountsCounts(RuleLeaves(rule));
    r := CheckAllTwice(names);
  }

  /** `check_net_variables`: succeeds exactly when every variable of the interfaces and
      the net equations occurs twice. */
  method CheckNetVariables(p: Program) returns (r: Result<(), string>)
    ensures r.Ok? <==> ExactlyTwice(NetLeaves(p))
    ensures r.Err? ==> CountError(NetLeaves(p), r.error)
  {
    var names: map<string, nat> := map[];
    for i := 0 to |p.interfaces|
      invariant names == AddCounts(map[], LeavesOf(p.interfaces[..i]))
    {
      names := CountNames(p.interfaces[i], names);
      assert p.interfaces[..i + 1][..i] == p.interfaces[..i];
      AddCountsAppend(map[], LeavesOf(p.interfaces[..i]), Leaves(p.interfaces[i]));
    }
    assert p.interfaces[..|p.interfaces|] == p.interfaces;
    names := CountEquations(p.net, names);
    AddCountsAppend(map[], LeavesOf(p.interfaces), EqLeaves(p.net));
    AddCountsCounts(NetLeaves(p));
    r := CheckAllTwice(names);
  }

  // ---------------------------------------------------------------------------
  // check_conflict

  function OrderedKey(rule: Rule): (string, string)
  {
    (rule.termPair.left.agent, rule.termPair.right.agent)
  }

  /** The property `check_conflict` decides: no two rules name the same agents in the
      same order. */
  predicate NoOrderedConflict(rules: seq<Rule>)
  {
    forall i, j :: 0 <= i < j < |rules| ==> OrderedKey(rules[i]) != OrderedKey(rules[j])
  }

  /** `e` pairs the first rule whose ordered key was already taken with the earlier
      rule that took it (unique, as no key repeats before the later rule). */
  predicate OrderedConflictError(rules: seq<Rule>, e: string)
  {
    exists i, j :: 0 <= i < j < |rules| && OrderedKey(rules[i]) == OrderedKey(rules[j])
      && NoOrderedConflict(rules[..j]) && e == ConflictMsg(rules[i], rules[j])
  }

  /** `check_conflict` as written: keyed on the ordered pair of head agent names. */
  method CheckConflict(p: Program) returns (r: Result<(), string>)
    ensures r.Ok? <==> NoOrderedConflict(p.rules)
    ensures r.Err? ==> OrderedConflictError(p.rules, r.error)
  {
    var rules := p.rules;
    var ruleSets: map<(string, string), Rule> := map[];
    for j := 0 to |rules|
      invariant NoOrderedConflict(rules[..j])
      invariant forall k :: k in ruleSets <==> exists i :: 0 <= i < j && OrderedKey(rules[i]) == k
      invariant forall i :: 0 <= i < j ==> ruleSets[OrderedKey(rules[i])] == rules[i]
    {
      var agents := OrderedKey(rules[j]);
      if agents in ruleSets {
        var i :| 0 <= i < j && OrderedKey(rules[i]) == agents;
        assert !NoOrderedConflict(rules);
        return Err(ConflictMsg(ruleSets[agents], rules[j]));
      }
      ruleSets := ruleSets[agents := rules[j]];
    }
    assert rules[..|rules|] == rules;
    return Ok(());
  }

  /** The two head agents of a rule, regardless of which side each is written on: the
      rule builders put the one with the smaller id on the left, so this is what
      decides which entry of the rule table the rule fills. */
  function UnorderedKey(rule: Rule): set<string>
  {
    {rule.termPair.left.agent, rule.termPair.right.agent}
  }

  predicate NoConflict(rules: seq<Rule>)
  {
    forall i, j :: 0 <= i < j < |rules| ==> UnorderedKey(rules[i]) != UnorderedKey(rules[j])
  }

  /** Two rules whose heads only swap sides pass `check_conflict`, although they
      describe the same active pair. */
  lemma OrderedConflictMissesSwap()
    ensures var ab := Rule(RuleTermPair(RuleTerm("A", []), RuleTerm("B", [])), []);
      var ba := Rule(RuleTermPair(RuleTerm("B", []), RuleTerm("A", [])), []);
      NoOrderedConflict([ab, ba]) && !NoConflict([ab, ba])
  {
    var ab := Rule(RuleTermPair(RuleTerm("A", []), RuleTerm("B", [])), []);
    var ba := Rule(RuleTermPair(RuleTerm("B", []), RuleTerm("A", [])), []);
    var rs := [ab, ba];
    assert OrderedKey(rs[0]).0 != OrderedKey(rs[1]).0 by {
      assert OrderedKey(rs[0]).0 == "A" && OrderedKey(rs[1]).0 == "B";
      assert "A"[0] != "B"[0];
    }
    assert UnorderedKey(rs[0]) == UnorderedKey(rs[1]);
  }

  /** Rejecting same-pair rules catches every ordered conflict too. */
  lemma NoConflictIsStronger(rules: seq<Rule>)
    requires NoConflict(rules)
    ensures NoOrderedConflict(rules)
  {
    forall i, j | 0 <= i < j < |rules| ensures OrderedKey(rules[i]) != OrderedKey(rules[j]) {
      assert OrderedKey(rules[i]) == OrderedKey(rules[j]) ==>
        UnorderedKey(rules[i]) == UnorderedKey(rules[j]);
    }
  }

  /** The pair `OrderedConflictError` describes is determined by `rules`: the later
      rule is the first whose key repeats, the earlier one the only rule before it
      with that key. */
  lemma OrderedConflictPairUnique(rules: seq<Rule>, i: nat, j: nat, i': nat, j': nat)
    requires i < j < |rules| && OrderedKey(rules[i]) == OrderedKey(rules[j]) && NoOrderedConflict(rules[..j])
    requires i' < j' < |rules| && OrderedKey(rules[i']) == OrderedKey(rules[j']) && NoOrderedConflict(rules[..j'])
    ensures i == i' && j == j'
  {
    forall a, b | 0 <= a < b < j ensures OrderedKey(rules[a]) != OrderedKey(rules[b]) {
      assert rules[..j][a] == rules[a] && rules[..j][b] == rules[b];
    }
    forall a, b | 0 <= a < b < j' ensures OrderedKey(rules[a]) != OrderedKey(rules[b]) {
      assert rules[..j'][a] == rules[a] && rules[..j'][b] == rules[b];
    }
  }

  /** `e` pairs the first rule whose unordered key was already taken with the earlier
      rule that took it. */
  predicate UnorderedConflictError(rules: seq<Rule>, e: string)
  {
    exists i, j :: 0 <= i < j < |rules| && UnorderedKey(rules[i]) == UnorderedKey(rules[j])
      && NoConflict(rules[..j]) && e == ConflictMsg(rules[i], rules[j])
  }

  /** `check_conflict` keyed on the unordered pair of head agent names, the check the
      rule table needs. */
  method CheckConflictUnordered(p: Program) returns (r: Result<(), string>)
    ensures r.Ok? <==> NoConflict(p.rules)
    ensures r.Err? ==> UnorderedConflictError(p.rules, r.error)
  {
    var rules := p.rules;
    var ruleSets: map<set<string>, Rule> := map[];
    for j := 0 to |rules|
      invariant NoConflict(rules[..j])
      invariant forall k :: k in ruleSets <==> exists i :: 0 <= i < j && UnorderedKey(rules[i]) == k
      invariant forall i :: 0 <= i < j ==> ruleSets[UnorderedKey(rules[i])] == rules[i]
    {
      var agents := UnorderedKey(rules[j]);
      if agents in ruleSets {
        var i :| 0 <= i < j && UnorderedKey(rules[i]) == agents;
        assert !NoConflict(rules);
        return Err(ConflictMsg(ruleSets[agents], rules[j]));
      }
      ruleSets := ruleSets[agents := rules[j]];
    }
    assert rules[..|rules|] == rules;
    return Ok(());
  }

  // ---------------------------------------------------------------------------
  // check_term_io_balance, check_equations_io_balance, check_net_io_balanse,
  // check_rule_io_balance

  /** One variable occurrence against the direction map (`true` = first seen as
      input): a second use in the direction already recorded fails; a new variable
      records its direction. */
  function IoStep(m: map<string, bool>, n: Name): Result<map<string, bool>, string>
  {
    if n.id in m then
      if n.In? && m[n.id] then Err(InTwiceMsg(n))
      else if n.Out? && !m[n.id] then Err(OutTwiceMsg(n))
      else Ok(m)
    else Ok(m[n.id := n.In?])
  }

  /** The direction map threaded through a list of occurrences, stopping at the
      first error. */
  function IoFold(m: map<string, bool>, ns: seq<Name>): Result<map<string, bool>, string>
  {
    if |ns| == 0 then Ok(m)
    else
      match IoFold(m, ns[..|ns| - 1])
      case Err(e) => Err(e)
      case Ok(m') => IoStep(m', ns[|ns| - 1])
  }

  lemma {:induction false} IoFoldAppend(m: map<string, bool>, a: seq<Name>, b: seq<Name>)
    ensures IoFold(m, a + b) == match IoFold(m, a) case Err(e) => Err(e) case Ok(m') => IoFold(m', b)
    decreases |b|
  {
    if |b| == 0 {
      assert a + b == a;
    } else {
      assert (a + b)[..|a + b| - 1] == a + b[..|b| - 1];
      IoFoldAppend(m, a, b[..|b| - 1]);
    }
  }

  /** `check_term_io_balance`: the direction map threaded through the leaves of
      `t`, left to right. */
  method CheckTermIoBalance(t: Term, m: map<string, bool>) returns (r: Result<map<string, bool>, string>)
    ensures r == IoFold(m, Leaves(t))
    decreases t
  {
    match t
    case NameTerm(n) =>
      assert Leaves(t) == [n];
      assert IoFold(m, [n]) == IoStep(m, n) by {
        assert [n][..0] == [];
      }
      var x := AsName(n);
      if x in m {
        var input := m[x];
        if n.In? && input {
          return Err(InTwiceMsg(n));
        } else if n.Out? && !input {
          return Err(OutTwiceMsg(n));
        }
        return Ok(m);
      } else {
        return Ok(m[x := n.In?]);
      }
    case AgentTerm(a) =>
      var cur := m;
      for i := 0 to |a.body|
        invariant IoFold(m, LeavesOf(a.body[..i])) == Ok(cur)
      {
        assert a.body[..i + 1][..i] == a.body[..i];
        IoFoldAppend(m, LeavesOf(a.body[..i]), Leaves(a.body[i]));
        r := CheckTermIoBalance(a.body[i], cur);
        if r.Err? {
          assert a.body[..i + 1] + a.body[i + 1..] == a.body;
          LeavesOfAppend(a.body[..i + 1], a.body[i + 1..]);
          IoFoldAppend(m, LeavesOf(a.body[..i + 1]), LeavesOf(a.body[i + 1..]));
          return;
        }
        cur := r.value;
      }
      assert a.body[..|a.body|] == a.body;
      return Ok(cur);
  }

  lemma {:induction false} LeavesOfAppend(a: seq<Term>, b: seq<Term>)
    ensures LeavesOf(a + b) == LeavesOf(a) + LeavesOf(b)
    decreases |b|
  {
    if |b| > 0 {
      assert (a + b)[..|a + b| - 1] == a + b[..|b| - 1];
      LeavesOfAppend(a, b[..|b| - 1]);
    } else {
      assert a + b == a;
    }
  }

  /** `check_equations_io_balance`. */
  method CheckEquationsIoBalance(es: seq<Equation>, m: map<string, bool>) returns (r: Result<(), string>)
    ensures r.Ok? <==> IoFold(m, EqLeaves(es)).Ok?
    ensures r.Err? ==> r.error == IoFold(m, EqLeaves(es)).error
  {
    var cur := m;
    for i := 0 to |es|
      invariant IoFold(m, EqLeaves(es[..i])) == Ok(cur)
    {
      assert es[..i + 1][..i] == es[..i];
      var before := EqLeaves(es[..i]);
      IoFoldAppend(m, before, Leaves(es[i].left));
      IoFoldAppend(m, before + Leaves(es[i].left), Leaves(es[i].right));
      var left := CheckTermIoBalance(es[i].left, cur);
      if left.Err? {
        EqLeavesErr(m, es, i + 1);
        return Err(left.error);
      }
      var right := CheckTermIoBalance(es[i].right, left.value);
      if right.Err? {
        EqLeavesErr(m, es, i + 1);
        return Err(right.error);
      }
      cur := right.value;
    }
    assert es[..|es|] == es;
    return Ok(());
  }

  lemma {:induction false} EqLeavesAppend(a: seq<Equation>, b: seq<Equation>)
    ensures EqLeaves(a + b) == EqLeaves(a) + EqLeaves(b)
    decreases |b|
  {
    if |b| > 0 {
      assert (a + b)[..|a + b| - 1] == a + b[..|b| - 1];
      EqLeavesAppend(a, b[..|b| - 1]);
    } else {
      assert a + b == a;
    }
  }

  lemma EqLeavesErr(m: map<string, bool>, es: seq<Equation>, k: nat)
    requires k <= |es|
    requires IoFold(m, EqLeaves(es[..k])).Err?
    ensures IoFold(m, EqLeaves(es)) == IoFold(m, EqLeaves(es[..k]))
  {
    assert es == es[..k] + es[k..];
    EqLeavesAppend(es[..k], es[k..]);
    IoFoldAppend(m, EqLeaves(es[..k]), EqLeaves(es[k..]));
  }

  /** `check_net_io_balanse`: the interfaces first, then the net equations, through
      one direction map that starts empty. */
  method CheckNetIoBalance(p: Program) returns (r: Result<(), string>)
    ensures r.Ok? <==> IoFold(map[], NetLeaves(p)).Ok?
    ensures r.Err? ==> r.error == IoFold(map[], NetLeaves(p)).error
  {
    var m: map<string, bool> := map[];
    IoFoldAppend(map[], LeavesOf(p.interfaces), EqLeaves(p.net));
    for i := 0 to |p.interfaces|
      invariant IoFold(map[], LeavesOf(p.interfaces[..i])) == Ok(m)
    {
      assert p.interfaces[..i + 1][..i] == p.interfaces[..i];
      IoFoldAppend(map[], LeavesOf(p.interfaces[..i]), Leaves(p.interfaces[i]));
      var sub := CheckTermIoBalance(p.interfaces[i], m);
      if sub.Err? {
        assert p.interfaces == p.interfaces[..i + 1] + p.interfaces[i + 1..];
        LeavesOfAppend(p.interfaces[..i + 1], p.interfaces[i + 1..]);
        IoFoldAppend(map[], LeavesOf(p.interfaces[..i + 1]), LeavesOf(p.interfaces[i + 1..]));
        return Err(sub.error);
      }
      m := sub.value;
    }
    assert p.interfaces[..|p.interfaces|] == p.interfaces;
    r := CheckEquationsIoBalance(p.net, m);
  }

  /** The map `check_rule_io_balance` starts from: each head parameter with the
      direction opposite to the one written in the head (a later head entry for the
      same identifier overwrites an earlier one). */
  function SeedFlags(heads: seq<Name>): map<string, bool>
  {
    if |heads| == 0 then map[]
    else SeedFlags(heads[..|heads| - 1])[heads[|heads| - 1].id := !heads[|heads| - 1].In?]
  }

  /** `check_rule_io_balance`. */
  method CheckRuleIoBalance(rule: Rule) returns (r: Result<(), string>)
    ensures r.Ok? <==> IoFold(SeedFlags(HeadNames(rule)), EqLeaves(rule.equations)).Ok?
    ensures r.Err? ==> r.error == IoFold(SeedFlags(HeadNames(rule)), EqLeaves(rule.equations)).error
  {
    var heads := HeadNames(rule);
    var m: map<string, bool> := map[];
    for i := 0 to |heads|
      invariant m == SeedFlags(heads[..i])
    {
      var x := AsName(heads[i]);
      assert heads[..i + 1][..i] == heads[..i];
      match heads[i] {
        case In(_) => m := m[x := false];
        case Out(_) => m := m[x := true];
      }
    }
    assert heads[..|heads|] == heads;
    r := CheckEquationsIoBalance(rule.equations, m);
  }

  // ---------------------------------------------------------------------------
  // What the direction walk decides

  /** The direction an identifier took at its first occurrence in `ns`. */
  function FirstFlags(ns: seq<Name>): map<string, bool>
  {
    if |ns| == 0 then map[]
    else
      var m := FirstFlags(ns[..|ns| - 1]);
      var n := ns[|ns| - 1];
      if n.id in m then m else m[n.id := n.In?]
  }

  predicate IsFirst(ns: seq<Name>, i: int)
    requires 0 <= i < |ns|
  {
    forall k :: 0 <= k < i ==> ns[k].id != ns[i].id
  }

  /** In/out balance: every later occurrence of a variable goes the other way from its
      first one. */
  predicate IoBalanced(ns: seq<Name>)
  {
    forall i, j :: 0 <= i < j < |ns| && ns[i].id == ns[j].id && IsFirst(ns, i) ==>
      ns[i].In? != ns[j].In?
  }

  lemma {:induction false} FirstFlagsSpec(ns: seq<Name>)
    ensures forall x :: x in FirstFlags(ns) <==> x in Ids(ns)
    ensures forall i :: 0 <= i < |ns| && IsFirst(ns, i) ==> FirstFlags(ns)[ns[i].id] == ns[i].In?
    decreases |ns|
  {
    if |ns| > 0 {
      var init := ns[..|ns| - 1];
      var last := ns[|ns| - 1];
      FirstFlagsSpec(init);
      assert Ids(ns) == Ids(init) + {last.id} by {
        forall y | y in Ids(ns) ensures y in Ids(init) + {last.id} {
          var i :| 0 <= i < |ns| && ns[i].id == y;
          if i < |ns| - 1 {
            assert init[i] == ns[i];
          }
        }
        forall y | y in Ids(init) ensures y in Ids(ns) {
          var i :| 0 <= i < |init| && init[i].id == y;
          assert ns[i] == init[i];
        }
      }
      forall i | 0 <= i < |ns| && IsFirst(ns, i) ensures FirstFlags(ns)[ns[i].id] == ns[i].In? {
        if i < |ns| - 1 {
          assert init[i] == ns[i];
          assert IsFirst(init, i);
          if last.id == ns[i].id {
            assert last.id in Ids(init);
          }
        } else {
          forall k | 0 <= k < |init| ensures init[k].id != last.id {
            assert ns[k] == init[k];
          }
        }
      }
    }
  }

  /** The pairs of a balanced list that end at its last element. */
  predicate LastBalanced(ns: seq<Name>)
    requires |ns| > 0
  {
    forall i :: 0 <= i < |ns| - 1 && ns[i].id == ns[|ns| - 1].id && IsFirst(ns, i) ==>
      ns[i].In? != ns[|ns| - 1].In?
  }

  lemma BalancedSnoc(ns: seq<Name>)
    requires |ns| > 0
    ensures IoBalanced(ns) <==> IoBalanced(ns[..|ns| - 1]) && LastBalanced(ns)
  {
    var init := ns[..|ns| - 1];
    forall i | 0 <= i < |init| ensures init[i] == ns[i] && (IsFirst(ns, i) <==> IsFirst(init, i)) {
    }
    if IoBalanced(ns) {
      forall i, j | 0 <= i < j < |init| && init[i].id == init[j].id && IsFirst(init, i)
        ensures init[i].In? != init[j].In?
      {
        assert IsFirst(ns, i);
      }
    }
    if IoBalanced(init) && LastBalanced(ns) {
      forall i, j | 0 <= i < j < |ns| && ns[i].id == ns[j].id && IsFirst(ns, i)
        ensures ns[i].In? != ns[j].In?
      {
        if j < |init| {
          assert IsFirst(init, i) && init[j] == ns[j];
        }
      }
    }
  }

  /** Starting from an empty map, the walk succeeds exactly on balanced occurrence
      lists, and then leaves the direction of each first occurrence. */
  lemma {:induction false} IoFoldBalanced(ns: seq<Name>)
    ensures IoFold(map[], ns).Ok? <==> IoBalanced(ns)
    ensures IoFold(map[], ns).Ok? ==> IoFold(map[], ns).value == FirstFlags(ns)
    decreases |ns|
  {
    if |ns| > 0 {
      var init := ns[..|ns| - 1];
      IoFoldBalanced(init);
      BalancedSnoc(ns);
      if IoBalanced(init) {
        LastStep(ns);
      }
    }
  }

  /** The last occurrence against the first-direction map of the ones before it. */
  lemma LastStep(ns: seq<Name>)
    requires |ns| > 0
    ensures IoStep(FirstFlags(ns[..|ns| - 1]), ns[|ns| - 1]).Ok? <==> LastBalanced(ns)
    ensures IoStep(FirstFlags(ns[..|ns| - 1]), ns[|ns| - 1]).Ok? ==>
      IoStep(FirstFlags(ns[..|ns| - 1]), ns[|ns| - 1]).value == FirstFlags(ns)
  {
    var init := ns[..|ns| - 1];
    var last := ns[|ns| - 1];
    var j := |ns| - 1;
    FirstFlagsSpec(init);
    var m := FirstFlags(init);
    if last.id in m {
      var i :| 0 <= i < |init| && init[i].id == last.id;
      var f := FirstOf(init, last.id, i);
      assert ns[f] == init[f];
      forall k | 0 <= k < f ensures ns[k].id != ns[f].id {
        assert ns[k] == init[k];
      }
      assert IsFirst(ns, f);
      assert m[last.id] == ns[f].In?;
      forall i' | 0 <= i' < j && ns[i'].id == last.id && IsFirst(ns, i') ensures i' == f {
        assert init[i'] == ns[i'];
        assert !(i' < f) by {
          assert IsFirst(init, f);
        }
        assert !(f < i') by {
          assert IsFirst(init, i');
        }
      }
    } else {
      forall i | 0 <= i < j ensures ns[i].id != last.id {
        assert init[i] == ns[i];
      }
    }
  }

  /** The first index at or before `i` carrying identifier `x`. */
  lemma FirstOf(ns: seq<Name>, x: string, i: int) returns (f: int)
    requires 0 <= i < |ns| && ns[i].id == x
    ensures 0 <= f <= i && ns[f].id == x && IsFirst(ns, f)
  {
    f := i;
    while exists k :: 0 <= k < f && ns[k].id == x
      invariant 0 <= f <= i && ns[f].id == x
      decreases f
    {
      var g :| 0 <= g < f && ns[g].id == x;
      f := g;
    }
  }

  /** Flipping the head parameters' directions turns them into occurrences the
      walk reads before the equations. */
  function Flip(ns: seq<Name>): (fs: seq<Name>)
    ensures |fs| == |ns|
    ensures forall i :: 0 <= i < |ns| ==> fs[i].id == ns[i].id && fs[i].In? == !ns[i].In?
  {
    seq(|ns|, i requires 0 <= i < |ns| => if ns[i].In? then Out(ns[i].id) else In(ns[i].id))
  }

  /** With distinct head parameters, the seeded map is what walking the flipped heads
      from an empty map produces, so `check_rule_io_balance` decides balance of the
      flipped heads followed by the equations' variables. */
  lemma {:induction false} SeedIsWalk(heads: seq<Name>)
    requires DistinctIds(heads)
    ensures IoFold(map[], Flip(heads)) == Ok(SeedFlags(heads))
    decreases |heads|
  {
    if |heads| > 0 {
      var init := heads[..|heads| - 1];
      var last := heads[|heads| - 1];
      assert Flip(heads)[..|heads| - 1] == Flip(init);
      SeedIsWalk(init);
      SeedDomain(init);
      forall k | 0 <= k < |init| ensures init[k].id != last.id {
        assert heads[k] == init[k];
      }
    }
  }

  lemma {:induction false} SeedDomain(heads: seq<Name>)
    ensures forall x :: x in SeedFlags(heads) <==> x in Ids(heads)
    decreases |heads|
  {
    if |heads| > 0 {
      var init := heads[..|heads| - 1];
      SeedDomain(init);
      assert Ids(heads) == Ids(init) + {heads[|heads| - 1].id} by {
        forall y | y in Ids(heads) ensures y in Ids(init) + {heads[|heads| - 1].id} {
          var i :| 0 <= i < |heads| && heads[i].id == y;
          if i < |heads| - 1 {
            assert init[i] == heads[i];
          }
        }
        forall y | y in Ids(init) ensures y in Ids(heads) {
          var i :| 0 <= i < |init| && init[i].id == y;
          assert heads[i] == init[i];
        }
      }
    }
  }

  /** What `check_rule_io_balance` decides, once the head parameters are known to be
      distinct: balance of the heads, read from the other side, followed by the
      equations. */
  lemma RuleIoBalanced(rule: Rule)
    requires DistinctIds(HeadNames(rule))
    ensures IoFold(SeedFlags(HeadNames(rule)), EqLeaves(rule.equations)).Ok?
      <==> IoBalanced(Flip(HeadNames(rule)) + EqLeaves(rule.equations))
  {
    var heads := HeadNames(rule);
    SeedIsWalk(heads);
    IoFoldAppend(map[], Flip(heads), EqLeaves(rule.equations));
    IoFoldBalanced(Flip(heads) + EqLeaves(rule.equations));
  }

  /** What `check_net_io_balanse` decides. */
  lemma NetIoBalanced(p: Program)
    ensures IoFold(map[], NetLeaves(p)).Ok? <==> IoBalanced(NetLeaves(p))
  {
    IoFoldBalanced(NetLeaves(p));
  }

  // ---------------------------------------------------------------------------
  // check_equation_var_io_dir, check_program

  /** An equation may not have an output variable on its left or an input variable on
      its right. */
  predicate DirOk(e: Equation)
  {
    !(e.left.NameTerm? && e.left.name.Out?) && !(e.right.NameTerm? && e.right.name.In?)
  }

  /** `check_equation_var_io_dir`: the left side is checked first. */
  function CheckEquationVarIoDir(e: Equation): (r: Result<(), string>)
    ensures r.Ok? <==> DirOk(e)
    ensures r.Err? ==> r.error == (if e.left.NameTerm? && e.left.name.Out? then LeftOutputMsg else RightInputMsg)
  {
    match e.left
    case NameTerm(Out(_)) => Err(LeftOutputMsg)
    case _ =>
      match e.right
      case NameTerm(In(_)) => Err(RightInputMsg)
      case _ => Ok(())
  }

  /** Everything the per-rule checks of `check_program` demand of one rule. */
  predicate RuleOk(rule: Rule)
  {
    && DistinctIds(HeadNames(rule))
    && ExactlyTwice(RuleLeaves(rule))
    && IoFold(SeedFlags(HeadNames(rule)), EqLeaves(rule.equations)).Ok?
    && forall k :: 0 <= k < |rule.equations| ==> DirOk(rule.equations[k])
  }

  /** What `check_program` demands of a program before its conflict test: every rule
      passes its own checks, every net equation points the right way, and the net's
      variables occur twice and balance. */
  predicate LocalOk(p: Program)
  {
    && (forall i :: 0 <= i < |p.rules| ==> RuleOk(p.rules[i]))
    && (forall k :: 0 <= k < |p.net| ==> DirOk(p.net[k]))
    && ExactlyTwice(NetLeaves(p))
    && IoFold(map[], NetLeaves(p)).Ok?
  }

  /** Everything `check_program` demands of a program, with the ordered conflict test
      it calls. */
  predicate ProgramOk(p: Program)
  {
    LocalOk(p) && NoOrderedConflict(p.rules)
  }

  /** The same demands with the conflict test on unordered agent pairs. */
  predicate ProgramOkCorrected(p: Program)
  {
    LocalOk(p) && NoConflict(p.rules)
  }

  /** The index of the first equation of `es` that fails the direction check, or
      `|es|` when none does. */
  function FirstBadDir(es: seq<Equation>): (k: nat)
    ensures k <= |es|
    ensures forall k' :: 0 <= k' < k ==> DirOk(es[k'])
    ensures k < |es| ==> !DirOk(es[k])
  {
    if |es| == 0 then 0
    else if !DirOk(es[0]) then 0
    else 1 + FirstBadDir(es[1..])
  }

  /** The index of the first rule of `rules` that fails its own checks, or `|rules|`
      when none does. */
  ghost function FirstBadRule(rules: seq<Rule>): (i: nat)
    ensures i <= |rules|
    ensures forall i' :: 0 <= i' < i ==> RuleOk(rules[i'])
    ensures i < |rules| ==> !RuleOk(rules[i])
  {
    if |rules| == 0 then 0
    else if !RuleOk(rules[0]) then 0
    else 1 + FirstBadRule(rules[1..])
  }

  /** `e` is the message of the first of the per-rule checks that `rule` fails, in
      `check_program`'s order: terms, variables, in/out balance, directions. */
  ghost predicate RuleFailure(rule: Rule, e: string)
  {
    var es := rule.equations;
    if !DistinctIds(HeadNames(rule)) then TermsError(HeadNames(rule), e)
    else if !ExactlyTwice(RuleLeaves(rule)) then CountError(RuleLeaves(rule), e)
    else if IoFold(SeedFlags(HeadNames(rule)), EqLeaves(es)).Err? then
      e == IoFold(SeedFlags(HeadNames(rule)), EqLeaves(es)).error
    else FirstBadDir(es) < |es| && e == CheckEquationVarIoDir(es[FirstBadDir(es)]).error
  }

  /** `e` is `RuleFailure`'s message with the rule named after it. */
  ghost predicate RuleError(rule: Rule, e: string)
  {
    exists e' :: e == InRule(e', rule) && RuleFailure(rule, e')
  }

  /** `e` is the error the part of `check_program` before its conflict test reports
      for `p`: that of the first failing rule, else that of the first net equation
      pointing the wrong way, else the net's variable count, else its in/out
      balance. */
  ghost predicate LocalError(p: Program, e: string)
  {
    var i := FirstBadRule(p.rules);
    var k := FirstBadDir(p.net);
    if i < |p.rules| then RuleError(p.rules[i], e)
    else if k < |p.net| then e == InEquation(CheckEquationVarIoDir(p.net[k]).error, p.net[k])
    else if !ExactlyTwice(NetLeaves(p)) then CountError(NetLeaves(p), e)
    else IoFold(map[], NetLeaves(p)).Err? && e == IoFold(map[], NetLeaves(p)).error
  }

  /** The checks of one rule, in `check_program`'s order, with the rule appended to
      the message of the first one that fails. */
  method CheckRule(rule: Rule) returns (r: Result<(), string>)
    ensures r.Ok? <==> RuleOk(rule)
    ensures r.Err? ==> RuleError(rule, r.error)
  {
    var a := CheckRuleTerms(rule);
    if a.Err? { return Err(InRule(a.error, rule)); }
    var b := CheckRuleVariables(rule);
    if b.Err? { return Err(InRule(b.error, rule)); }
    var c := CheckRuleIoBalance(rule);
    if c.Err? { return Err(InRule(c.error, rule)); }
    var d := CheckRuleDirections(rule.equations);
    if d.Err? { return Err(InRule(d.error, rule)); }
    return Ok(());
  }

  /** The direction check of `check_program` on each equation of a rule in turn,
      stopping at the first that fails. */
  method CheckRuleDirections(es: seq<Equation>) returns (r: Result<(), string>)
    ensures r.Ok? <==> forall k :: 0 <= k < |es| ==> DirOk(es[k])
    ensures r.Err? ==> FirstBadDir(es) < |es| && r == CheckEquationVarIoDir(es[FirstBadDir(es)])
  {
    for k := 0 to |es|
      invariant forall k' :: 0 <= k' < k ==> DirOk(es[k'])
    {
      var d := CheckEquationVarIoDir(es[k]);
      if d.Err? { return d; }
    }
    return Ok(());
  }

  /** The part of `check_program` before the conflict test: the rules one by one,
      then the directions of the net equations, then the net's variable counts and
      its in/out balance, stopping at the first failure. */
  method CheckLocal(p: Program) returns (r: Result<(), string>)
    ensures r.Ok? <==> LocalOk(p)
    ensures r.Err? ==> LocalError(p, r.error)
  {
    for i := 0 to |p.rules|
      invariant forall i' :: 0 <= i' < i ==> RuleOk(p.rules[i'])
    {
      r := CheckRule(p.rules[i]);
      if r.Err? {
        assert FirstBadRule(p.rules) == i;
        return;
      }
    }
    assert FirstBadRule(p.rules) == |p.rules|;
    for k := 0 to |p.net|
      invariant forall k' :: 0 <= k' < k ==> DirOk(p.net[k'])
    {
      var d := CheckEquationVarIoDir(p.net[k]);
      if d.Err? {
        assert FirstBadDir(p.net) == k;
        return Err(InEquation(d.error, p.net[k]));
      }
    }
    assert FirstBadDir(p.net) == |p.net|;
    r := CheckNetVariables(p);
    if r.Err? { return; }
    r := CheckNetIoBalance(p);
  }

  /** `check_program` as written: the local checks, then `check_conflict` on ordered
      agent pairs. */
  method CheckProgram(p: Program) returns (r: Result<(), string>)
    ensures r.Ok? <==> ProgramOk(p)
    ensures r.Err? ==> if LocalOk(p) then OrderedConflictError(p.rules, r.error) else LocalError(p, r.error)
  {
    r := CheckLocal(p);
    if r.Err? { return; }
    r := CheckConflict(p);
  }

  /** `check_program` with the conflict test on unordered agent pairs. */
  method CheckProgramCorrected(p: Program) returns (r: Result<(), string>)
    ensures r.Ok? <==> ProgramOkCorrected(p)
    ensures r.Err? ==> if LocalOk(p) then UnorderedConflictError(p.rules, r.error) else LocalError(p, r.error)
  {
    r := CheckLocal(p);
    if r.Err? { return; }
    r := CheckConflictUnordered(p);
  }

  /** Every program the corrected check accepts, `check_program` accepts too. */
  lemma CorrectedProgramOk(p: Program)
    requires ProgramOkCorrected(p)
    ensures ProgramOk(p)
  {
    NoConflictIsStronger(p.rules);
  }

  /** The program with the rules `A >> B` and `B >> A`, no equations, no net and no
      interfaces passes `check_program`, and the corrected check rejects it. */
  lemma ProgramAcceptsSwappedPair()
    ensures var ab := Rule(RuleTermPair(RuleTerm("A", []), RuleTerm("B", [])), []);
      var ba := Rule(RuleTermPair(RuleTerm("B", []), RuleTerm("A", [])), []);
      var p := Program([ab, ba], [], []);
      ProgramOk(p) && !ProgramOkCorrected(p)
  {
    var ab := Rule(RuleTermPair(RuleTerm("A", []), RuleTerm("B", [])), []);
    var ba := Rule(RuleTermPair(RuleTerm("B", []), RuleTerm("A", [])), []);
    var p := Program([ab, ba], [], []);
    OrderedConflictMissesSwap();
    assert HeadNames(ab) == [] && EqLeaves(ab.equations) == [];
    assert HeadNames(ba) == [] && EqLeaves(ba.equations) == [];
    assert RuleLeaves(ab) == [] && RuleLeaves(ba) == [];
    assert NetLeaves(p) == [];
  }
}
