/** The IR peephole pass of src/backend/optimize.rs.  A rule that creates a fresh
    agent with the same id as the left (right) agent it consumes, and frees that
    left (right) agent at the end, may instead reuse the consumed agent's cell:
    the first such `Agent` initializer and the first `FreeLeft` (`FreeRight`) are
    removed and a `ReuseLeft` (`ReuseRight`) initializer for the same local is
    appended. */
module Optimize {

  import opened Wrappers
  import opened Locals
  import opened BackendIr
  import S = BackendSpec

  /** The initializer `Agent { index, id }` for the given agent id. */
  predicate CreatesAgent(x: RuleInitializer, id: nat)
  {
    x.InitAgent? && x.id == id
  }

  /** `FreeLeft` for the left side, `FreeRight` for the right. */
  predicate FreesSide(x: RuleInstruction, left: bool)
  {
    if left then x.FreeLeft? else x.FreeRight?
  }

  /** The `find_map` over the initializers: the position of the first agent
      initializer with id `id`. */
  function FindAgentInit(inits: seq<RuleInitializer>, id: nat): (r: Option<nat>)
    ensures r.Some? ==> r.value < |inits| && CreatesAgent(inits[r.value], id)
    ensures r.Some? ==> forall k :: 0 <= k < r.value ==> !CreatesAgent(inits[k], id)
    ensures r.None? <==> forall k :: 0 <= k < |inits| ==> !CreatesAgent(inits[k], id)
  {
    if |inits| == 0 then None
    else if CreatesAgent(inits[0], id) then Some(0)
    else
      match FindAgentInit(inits[1..], id)
      case None => None
      case Some(k) => Some(k + 1)
  }

  /** The `find_map` over the instructions: the position of the first free of the
      given side. */
  function FindFree(instrs: seq<RuleInstruction>, left: bool): (r: Option<nat>)
    ensures r.Some? ==> r.value < |instrs| && FreesSide(instrs[r.value], left)
    ensures r.Some? ==> forall k :: 0 <= k < r.value ==> !FreesSide(instrs[k], left)
    ensures r.None? <==> forall k :: 0 <= k < |instrs| ==> !FreesSide(instrs[k], left)
  {
    if |instrs| == 0 then None
    else if FreesSide(instrs[0], left) then Some(0)
    else
      match FindFree(instrs[1..], left)
      case None => None
      case Some(k) => Some(k + 1)
  }

  /** `Vec::remove`: the element at `i` taken out, the later ones moved down. */
  function RemoveAt<T>(s: seq<T>, i: nat): (r: seq<T>)
    requires i < |s|
    ensures |r| == |s| - 1
    ensures forall k :: 0 <= k < i ==> r[k] == s[k]
    ensures forall k :: i <= k < |r| ==> r[k] == s[k + 1]
  {
    s[..i] + s[i + 1..]
  }

  function Reuse(index: nat, left: bool): RuleInitializer
  {
    if left then ReuseLeft(index) else ReuseRight(index)
  }

  /** One half of `optimize_new_free`: the side whose consumed agent has id `id`. */
  function ReuseSide(r: Rule, id: nat, left: bool): Rule
  {
    match FindAgentInit(r.initializers, id)
    case None => r
    case Some(i) =>
      match FindFree(r.instructions, left)
      case None => r
      case Some(j) =>
        r.(initializers := RemoveAt(r.initializers, i) + [Reuse(r.initializers[i].index, left)],
           instructions := RemoveAt(r.instructions, j))
  }

  /** `optimize_new_free`: the left side, then the right side, with the agent ids
      the rule map files the rule under. */
  function NewFree(r: Rule, ruleMap: seq<(nat, nat, nat)>): Rule
    requires r.index < |ruleMap|
  {
    ReuseSide(ReuseSide(r, ruleMap[r.index].0, true), ruleMap[r.index].1, false)
  }

  /** Every rule's index names an entry of the rule map, as `rule_map[rule.index]`
      needs. */
  predicate Indexed(p: Program)
  {
    forall k :: 0 <= k < |p.rules| ==> p.rules[k].index < |p.ruleMap|
  }

  /** `optimize`: `optimize_new_free` on every rule; nothing else changes. */
  function OptimizeProgram(p: Program): (q: Program)
    requires Indexed(p)
  {
    p.(rules := seq(|p.rules|, k requires 0 <= k < |p.rules| => NewFree(p.rules[k], p.ruleMap)))
  }

  // ---------------------------------------------------------------------------
  // What one side does

  /** A side changes the rule exactly when it finds both the agent initializer and
      the free instruction. */
  lemma ReuseSideUnchanged(r: Rule, id: nat, left: bool)
    ensures ReuseSide(r, id, left) == r <==>
      (forall k :: 0 <= k < |r.initializers| ==> !CreatesAgent(r.initializers[k], id))
      || (forall k :: 0 <= k < |r.instructions| ==> !FreesSide(r.instructions[k], left))
  {
    var r' := ReuseSide(r, id, left);
    if FindAgentInit(r.initializers, id).Some? && FindFree(r.instructions, left).Some? {
      assert |r'.instructions| < |r.instructions|;
    }
  }

  /** A side that applies keeps the number of initializers, removes exactly one
      instruction (the first free of that side) and appends the reuse of the
      local the first matching agent initializer declared. */
  lemma ReuseSideApplied(r: Rule, id: nat, left: bool, i: nat, j: nat)
    requires i < |r.initializers| && CreatesAgent(r.initializers[i], id)
    requires forall k :: 0 <= k < i ==> !CreatesAgent(r.initializers[k], id)
    requires j < |r.instructions| && FreesSide(r.instructions[j], left)
    requires forall k :: 0 <= k < j ==> !FreesSide(r.instructions[k], left)
    ensures var r' := ReuseSide(r, id, left);
      && r'.index == r.index && r'.description == r.description
      && |r'.initializers| == |r.initializers|
      && |r'.instructions| == |r.instructions| - 1
      && r'.initializers == RemoveAt(r.initializers, i) + [Reuse(r.initializers[i].index, left)]
      && r'.instructions == RemoveAt(r.instructions, j)
  {
    assert FindAgentInit(r.initializers, id) == Some(i);
    assert FindFree(r.instructions, left) == Some(j);
  }

  /** The number of `ReuseLeft` (`ReuseRight`) initializers. */
  function CountReuse(inits: seq<RuleInitializer>, left: bool): (n: nat)
    ensures n <= |inits|
  {
    if |inits| == 0 then 0
    else CountReuse(inits[..|inits| - 1], left)
         + (if inits[|inits| - 1] == Reuse(inits[|inits| - 1].index, left) then 1 else 0)
  }

  lemma {:induction false} CountReuseAppend(a: seq<RuleInitializer>, b: seq<RuleInitializer>, left: bool)
    ensures CountReuse(a + b, left) == CountReuse(a, left) + CountReuse(b, left)
    decreases |b|
  {
    if |b| == 0 {
      assert a + b == a;
    } else {
      assert (a + b)[..|a + b| - 1] == a + b[..|b| - 1];
      CountReuseAppend(a, b[..|b| - 1], left);
    }
  }

  lemma CountReuseRemove(s: seq<RuleInitializer>, i: nat, left: bool)
    requires i < |s| && s[i].InitAgent?
    ensures CountReuse(RemoveAt(s, i), left) == CountReuse(s, left)
  {
    assert s == s[..i] + [s[i]] + s[i + 1..];
    CountReuseAppend(s[..i] + [s[i]], s[i + 1..], left);
    CountReuseAppend(s[..i], [s[i]], left);
    CountReuseAppend(s[..i], s[i + 1..], left);
    assert CountReuse([s[i]], left) == 0 by {
      assert [s[i]][..0] == [];
    }
  }

  /** At most one reuse per side: a side adds exactly one reuse initializer when it
      applies and none otherwise. */
  lemma ReuseSideOnce(r: Rule, id: nat, left: bool)
    ensures CountReuse(ReuseSide(r, id, left).initializers, left)
         == CountReuse(r.initializers, left)
            + (if ReuseSide(r, id, left) == r then 0 else 1)
  {
    var fi := FindAgentInit(r.initializers, id);
    var fj := FindFree(r.instructions, left);
    if fi.Some? && fj.Some? {
      var i := fi.value;
      var x := Reuse(r.initializers[i].index, left);
      CountReuseRemove(r.initializers, i, left);
      CountReuseAppend(RemoveAt(r.initializers, i), [x], left);
      assert [x][..0] == [];
      ReuseSideUnchanged(r, id, left);
    }
  }

  // ---------------------------------------------------------------------------
  // A side keeps the rule well formed

  /** Where the `n`-th initializer after the move came from. */
  function Source(i: nat, last: nat, n: nat): nat
  {
    if n < i then n else if n < last then n + 1 else i
  }

  /** Where the `k`-th initializer goes to. */
  function Target(i: nat, last: nat, k: nat): nat
  {
    if k < i then k else if k == i then last else k - 1
  }

  lemma MovedLocals(inits: seq<RuleInitializer>, i: nat, x: RuleInitializer)
    requires i < |inits| && RuleInitLocal(x) == RuleInitLocal(inits[i])
    ensures var m := RemoveAt(inits, i) + [x]; var last := |inits| - 1;
      && |m| == |inits|
      && (forall n :: 0 <= n < |m| ==>
            Source(i, last, n) < |inits| && RuleInitLocal(m[n]) == RuleInitLocal(inits[Source(i, last, n)]))
      && (forall n :: 0 <= n < |m| && n != last ==> m[n] == inits[Source(i, last, n)])
      && (forall k :: 0 <= k < |inits| ==>
            Target(i, last, k) < |m| && Source(i, last, Target(i, last, k)) == k)
      && m[last] == x
  {
  }

  lemma MovedDistinct(inits: seq<RuleInitializer>, i: nat, x: RuleInitializer)
    requires i < |inits| && RuleInitLocal(x) == RuleInitLocal(inits[i])
    requires forall j, k :: 0 <= j < k < |inits| ==> RuleInitLocal(inits[j]) != RuleInitLocal(inits[k])
    ensures var m := RemoveAt(inits, i) + [x];
      forall j, k :: 0 <= j < k < |m| ==> RuleInitLocal(m[j]) != RuleInitLocal(m[k])
  {
    var m := RemoveAt(inits, i) + [x];
    var last := |inits| - 1;
    MovedLocals(inits, i, x);
    forall j, k | 0 <= j < k < |m| ensures RuleInitLocal(m[j]) != RuleInitLocal(m[k]) {
      var sj, sk := Source(i, last, j), Source(i, last, k);
      assert sj != sk;
      if sj < sk {
        assert RuleInitLocal(inits[sj]) != RuleInitLocal(inits[sk]);
      } else {
        assert RuleInitLocal(inits[sk]) != RuleInitLocal(inits[sj]);
      }
    }
  }

  lemma MovedDeclared(inits: seq<RuleInitializer>, i: nat, x: RuleInitializer, l: Local)
    requires i < |inits| && RuleInitLocal(x) == RuleInitLocal(inits[i])
    ensures S.RuleDeclared(RemoveAt(inits, i) + [x], l) <==> S.RuleDeclared(inits, l)
  {
    var m := RemoveAt(inits, i) + [x];
    var last := |inits| - 1;
    MovedLocals(inits, i, x);
    if S.RuleDeclared(inits, l) {
      var k :| 0 <= k < |inits| && RuleInitLocal(inits[k]) == l;
      assert RuleInitLocal(m[Target(i, last, k)]) == l;
    }
    if S.RuleDeclared(m, l) {
      var n :| 0 <= n < |m| && RuleInitLocal(m[n]) == l;
      assert RuleInitLocal(inits[Source(i, last, n)]) == l;
    }
  }

  /** A slot the old initializers give an agent local, the new ones still give it,
      since the reuse replaces a fresh agent of the consumed agent's own id. */
  lemma MovedHasSlot(inits: seq<RuleInitializer>, agents: seq<AgentMeta>, left: nat, right: nat,
                     i: nat, sideLeft: bool, a: Local, s: nat)
    requires i < |inits| && inits[i].InitAgent?
    requires inits[i].id == (if sideLeft then left else right)
    requires S.AgentLocalHasSlot(inits, agents, left, right, a, s)
    ensures S.AgentLocalHasSlot(RemoveAt(inits, i) + [Reuse(inits[i].index, sideLeft)],
                                agents, left, right, a, s)
  {
    var x := Reuse(inits[i].index, sideLeft);
    var m := RemoveAt(inits, i) + [x];
    var last := |inits| - 1;
    MovedLocals(inits, i, x);
    var k :| 0 <= k < |inits| && RuleInitLocal(inits[k]) == a &&
      match inits[k]
      case InitAgent(_, id) => id < |agents| && 1 <= s <= agents[id].arity
      case ReuseLeft(_) => left < |agents| && 1 <= s <= agents[left].arity
      case ReuseRight(_) => right < |agents| && 1 <= s <= agents[right].arity
      case _ => false;
    var n := Target(i, last, k);
    if k == i {
      assert m[n] == x && RuleInitLocal(m[n]) == a;
    } else {
      assert m[n] == inits[k];
    }
  }

  /** A side keeps a well-formed rule well formed, for the agent pair it is filed
      under. */
  lemma ReuseSideWf(agents: seq<AgentMeta>, left: nat, right: nat, r: Rule, sideLeft: bool)
    requires S.WfRule(agents, left, right, r)
    ensures S.WfRule(agents, left, right,
                     ReuseSide(r, if sideLeft then left else right, sideLeft))
  {
    var id := if sideLeft then left else right;
    var fi := FindAgentInit(r.initializers, id);
    var fj := FindFree(r.instructions, sideLeft);
    if fi.Some? && fj.Some? {
      var i, j := fi.value, fj.value;
      var inits := r.initializers;
      var x := Reuse(inits[i].index, sideLeft);
      var r' := ReuseSide(r, id, sideLeft);
      assert r'.initializers == RemoveAt(inits, i) + [x];
      MovedDistinct(inits, i, x);
      MovedLocals(inits, i, x);
      assert S.RuleInitOk(agents, left, right, inits[i]);
      forall n | 0 <= n < |r'.initializers|
        ensures S.RuleInitOk(agents, left, right, r'.initializers[n])
      {
        if n < |inits| - 1 {
          assert r'.initializers[n] == inits[Source(i, |inits| - 1, n)];
        }
      }
      forall n | 0 <= n < |r'.instructions|
        ensures S.RuleInstructionOk(r'.initializers, agents, left, right, r'.instructions[n])
      {
        var ins := r'.instructions[n];
        assert ins == r.instructions[if n < j then n else n + 1];
        assert S.RuleInstructionOk(inits, agents, left, right, ins);
        match ins
        case SetSlot(t, s, v) =>
          MovedHasSlot(inits, agents, left, right, i, sideLeft, t, s);
          MovedDeclared(inits, i, x, v);
        case PushEquation(a, b, _) =>
          MovedDeclared(inits, i, x, a);
          MovedDeclared(inits, i, x, b);
        case FreeLeft =>
        case FreeRight =>
      }
    }
  }

  /** `optimize` keeps the rules of a valid builder state well formed for the agent
      pairs they are filed under. */
  lemma OptimizeWf(st: S.State)
    requires S.Valid(st)
    ensures var p := Program(st.agents, st.rules, st.ruleMap, st.functions, st.functionMeta, 0);
      && Indexed(p)
      && S.Valid(st.(rules := OptimizeProgram(p).rules))
  {
    var p := Program(st.agents, st.rules, st.ruleMap, st.functions, st.functionMeta, 0);
    var q := OptimizeProgram(p);
    forall k | 0 <= k < |st.rules|
      ensures q.rules[k].index == k
      ensures S.WfRule(st.agents, st.ruleMap[k].0, st.ruleMap[k].1, q.rules[k])
    {
      var r := st.rules[k];
      var l, rt := st.ruleMap[k].0, st.ruleMap[k].1;
      ReuseSideWf(st.agents, l, rt, r, true);
      ReuseSideWf(st.agents, l, rt, ReuseSide(r, l, true), false);
    }
  }

  // ---------------------------------------------------------------------------
  // The pass, as the Rust code runs it

  /** The first agent initializer with id `id`, with the local it declares. */
  method FindAgentInitializer(inits: seq<RuleInitializer>, id: nat) returns (r: Option<(nat, nat)>)
    ensures r.None? ==> FindAgentInit(inits, id).None?
    ensures r.Some? ==> FindAgentInit(inits, id) == Some(r.value.0)
                        && r.value.1 == inits[r.value.0].index
  {
    var i := 0;
    while i < |inits|
      invariant 0 <= i <= |inits|
      invariant forall k :: 0 <= k < i ==> !CreatesAgent(inits[k], id)
    {
      if inits[i].InitAgent? && inits[i].id == id {
        return Some((i, inits[i].index));
      }
      i := i + 1;
    }
    return None;
  }

  /** The first free instruction of the given side. */
  method FindFreeInstruction(instrs: seq<RuleInstruction>, left: bool) returns (r: Option<nat>)
    ensures r == FindFree(instrs, left)
  {
    var i := 0;
    while i < |instrs|
      invariant 0 <= i <= |instrs|
      invariant forall k :: 0 <= k < i ==> !FreesSide(instrs[k], left)
    {
      if (left && instrs[i] == FreeLeft) || (!left && instrs[i] == FreeRight) {
        return Some(i);
      }
      i := i + 1;
    }
    return None;
  }

  /** One `if let ... { if let ... { remove; remove; push } }` block. */
  method ApplySide(rule: Rule, id: nat, left: bool) returns (r: Rule)
    ensures r == ReuseSide(rule, id, left)
  {
    r := rule;
    var found := FindAgentInitializer(rule.initializers, id);
    if found.Some? {
      var (reuseIndex, index) := found.value;
      var free := FindFreeInstruction(rule.instructions, left);
      if free.Some? {
        var inits := rule.initializers[..reuseIndex] + rule.initializers[reuseIndex + 1..];
        var instrs := rule.instructions[..free.value] + rule.instructions[free.value + 1..];
        inits := inits + [if left then ReuseLeft(index) else ReuseRight(index)];
        r := rule.(initializers := inits, instructions := instrs);
      }
    }
  }

  /** `optimize_new_free`. */
  method OptimizeNewFree(rule: Rule, ruleMap: seq<(nat, nat, nat)>) returns (r: Rule)
    requires rule.index < |ruleMap|
    ensures r == NewFree(rule, ruleMap)
  {
    var leftId := ruleMap[rule.index].0;
    var rightId := ruleMap[rule.index].1;
    r := ApplySide(rule, leftId, true);
    r := ApplySide(r, rightId, false);
  }

  /** `optimize`. */
  method Optimize(p: Program) returns (q: Program)
    requires Indexed(p)
    ensures q == OptimizeProgram(p)
  {
    var rules := p.rules;
    var k := 0;
    while k < |rules|
      invariant 0 <= k <= |rules| == |p.rules|
      invariant forall n :: 0 <= n < k ==> rules[n] == NewFree(p.rules[n], p.ruleMap)
      invariant forall n :: k <= n < |rules| ==> rules[n] == p.rules[n]
    {
      var r := OptimizeNewFree(rules[k], p.ruleMap);
      rules := rules[k := r];
      k := k + 1;
    }
    q := p.(rules := rules);
  }
}
