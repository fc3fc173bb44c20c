/** Properties of the interpreter of src/runtime/vm.rs, proved about VmSpec. */
module VmFacts {

  import opened Wrappers
  import opened Locals
  import opened RuntimeIr
  import opened VmSpec
  import RS = RuntimeSpec

  // ---------------------------------------------------------------------------
  // The equation stack is last-in first-out

  /** Popping right after a push gives back the pushed equation and the stack as it
      was; only the overflow flag may have been raised. */
  lemma PushPop(m: Machine, l: PValue, r: PValue)
    ensures Pop(Push(m, l, r)) == Some(((l, r), m.(overflowed := Push(m, l, r).overflowed)))
  {
    assert Push(m, l, r).stack[..|m.stack|] == m.stack;
  }

  // ---------------------------------------------------------------------------
  // How the machine may change

  /** A cell stays what it was, except that an agent's slots may be filled (same
      id, same arity) and a name may become a reference. */
  predicate CellEvolves(v: Value, w: Value)
  {
    || v == w
    || (v.AgentV? && w.AgentV? && v.id == w.id && |v.slots| == |w.slots|)
    || (v.NameV? && w.RefV?)
  }

  /** The names in the heap have distinct ids between 1 and the counter. */
  predicate NamesIssued(m: Machine)
  {
    && (forall i :: 0 <= i < |m.heap| && m.heap[i].NameV? ==> 1 <= m.heap[i].id <= m.nameCounter)
    && (forall i, j :: 0 <= i < j < |m.heap| && m.heap[i].NameV? && m.heap[j].NameV? ==> m.heap[i].id != m.heap[j].id)
  }

  /** Every reference points somewhere: binding is the only way a reference is
      made, and it always has a target. */
  predicate RefsSet(m: Machine)
  {
    forall i :: 0 <= i < |m.heap| && m.heap[i].RefV? ==> m.heap[i].target.Some?
  }

  /** What every operation of the machine keeps: the agent table and the stack
      bound; no cell is removed and every cell evolves; the name counter never goes
      down; a raised overflow flag stays raised; issued names stay distinct and
      references stay set. */
  predicate Evolves(m: Machine, m': Machine)
  {
    && (RefsSet(m) ==> RefsSet(m'))
    && m'.agents == m.agents && m'.maxStackSize == m.maxStackSize
    && m.nameCounter <= m'.nameCounter
    && (m.overflowed ==> m'.overflowed)
    && |m.heap| <= |m'.heap|
    && (forall i :: 0 <= i < |m.heap| ==> CellEvolves(m.heap[i], m'.heap[i]))
    && (NamesIssued(m) ==> NamesIssued(m'))
  }

  lemma EvolvesTrans(m1: Machine, m2: Machine, m3: Machine)
    requires Evolves(m1, m2) && Evolves(m2, m3)
    ensures Evolves(m1, m3)
  {
    forall i | 0 <= i < |m1.heap|
      ensures CellEvolves(m1.heap[i], m3.heap[i])
    {
      assert CellEvolves(m1.heap[i], m2.heap[i]) && CellEvolves(m2.heap[i], m3.heap[i]);
    }
  }

  lemma PushEvolves(m: Machine, l: PValue, r: PValue)
    ensures Evolves(m, Push(m, l, r))
  {
  }

  /** A new name's id is above every id issued so far. */
  lemma NewNameEvolves(m: Machine)
    requires Closed(m)
    ensures Evolves(m, NewNameCell(m).0)
  {
    var m' := NewNameCell(m).0;
    if NamesIssued(m) {
      forall i, j | 0 <= i < j < |m'.heap| && m'.heap[i].NameV? && m'.heap[j].NameV?
        ensures m'.heap[i].id != m'.heap[j].id
      {
        if j == |m.heap| {
          assert m'.heap[i] == m.heap[i];
        } else {
          assert m'.heap[i] == m.heap[i] && m'.heap[j] == m.heap[j];
        }
      }
      forall i | 0 <= i < |m'.heap| && m'.heap[i].NameV?
        ensures 1 <= m'.heap[i].id <= m'.nameCounter
      {
        if i < |m.heap| {
          assert m'.heap[i] == m.heap[i];
        }
      }
    }
  }

  lemma NewAgentEvolves(m: Machine, id: nat)
    requires Closed(m) && id < |m.agents|
    ensures Evolves(m, NewAgentCell(m, id).0)
  {
    var m' := NewAgentCell(m, id).0;
    assert forall i :: 0 <= i < |m.heap| ==> m'.heap[i] == m.heap[i];
  }

  /** Overwriting one cell in a way `CellEvolves` allows and that adds no name and
      no unset reference. */
  lemma UpdateEvolves(m: Machine, t: nat, w: Value)
    requires t < |m.heap| && CellEvolves(m.heap[t], w) && !w.NameV? && w != RefV(None)
    ensures Evolves(m, m.(heap := m.heap[t := w]))
  {
  }

  lemma ExecInitEvolves(m: Machine, f: Frame, lhs: PValue, rhs: PValue, init: Initializer)
    requires Scoped(m, f, lhs, rhs) && ExecInit(m, f, lhs, rhs, init).Ok?
    ensures Evolves(m, ExecInit(m, f, lhs, rhs, init).value.0)
  {
    match init
    case NameInit(_) => NewNameEvolves(m);
    case AgentInit(_, id) => NewAgentEvolves(m, id);
    case SlotFromLeft(_, _) =>
    case SlotFromRight(_, _) =>
  }

  lemma {:induction false} ExecInitsEvolves(m: Machine, f: Frame, lhs: PValue, rhs: PValue, inits: seq<Initializer>)
    requires Scoped(m, f, lhs, rhs) && ExecInits(m, f, lhs, rhs, inits).Ok?
    ensures Evolves(m, ExecInits(m, f, lhs, rhs, inits).value.0)
    decreases |inits|
  {
    if |inits| > 0 {
      var front := inits[..|inits| - 1];
      ExecInitsEvolves(m, f, lhs, rhs, front);
      var x := ExecInits(m, f, lhs, rhs, front).value;
      ExecInitEvolves(x.0, x.1, lhs, rhs, inits[|inits| - 1]);
      EvolvesTrans(m, x.0, ExecInits(m, f, lhs, rhs, inits).value.0);
    }
  }

  lemma ExecInstrEvolves(m: Machine, f: Frame, instr: Instruction)
    requires Closed(m) && FrameClosed(|m.heap|, f) && ExecInstr(m, f, instr).Ok?
    ensures Evolves(m, ExecInstr(m, f, instr).value)
  {
    match instr
    case SetSlot(t, slot, v) =>
      var tp := Get(f, t).value.value;
      var c := m.heap[tp];
      var c' := c.(slots := c.slots[slot - 1 := Some(Get(f, v).value.value)]);
      UpdateEvolves(m, tp, c');
    case PushEquation(l, r, _) =>
  }

  lemma {:induction false} ExecInstrsEvolves(m: Machine, f: Frame, instrs: seq<Instruction>)
    requires Closed(m) && FrameClosed(|m.heap|, f) && ExecInstrs(m, f, instrs).Ok?
    ensures Evolves(m, ExecInstrs(m, f, instrs).value)
    decreases |instrs|
  {
    if |instrs| > 0 {
      var front := instrs[..|instrs| - 1];
      ExecInstrsEvolves(m, f, front);
      var m' := ExecInstrs(m, f, front).value;
      ExecInstrEvolves(m', f, instrs[|instrs| - 1]);
      EvolvesTrans(m, m', ExecInstrs(m, f, instrs).value);
    }
  }

  lemma ExecuteEvolves(m: Machine, f: Frame, inits: seq<Initializer>, instrs: seq<Instruction>,
                       lhs: PValue, rhs: PValue)
    requires Scoped(m, f, lhs, rhs) && Execute(m, f, inits, instrs, lhs, rhs).Ok?
    ensures Evolves(m, Execute(m, f, inits, instrs, lhs, rhs).value.0)
  {
    ExecInitsEvolves(m, f, lhs, rhs, inits);
    var x := ExecInits(m, f, lhs, rhs, inits).value;
    ExecInstrsEvolves(x.0, x.1, instrs);
    EvolvesTrans(m, x.0, Execute(m, f, inits, instrs, lhs, rhs).value.0);
  }

  lemma ReduceEvolves(m: Machine, rules: RuleMap, l: nat, r: nat)
    requires Closed(m) && l < |m.heap| && r < |m.heap| && Reduce(m, rules, l, r).Ok?
    ensures Evolves(m, Reduce(m, rules, l, r).value)
  {
    if m.heap[l].RefV? || m.heap[r].RefV? {
    } else if m.heap[l].AgentV? && m.heap[r].AgentV? {
      var p := OrderedPair(m, l, r);
      var rule := rules[(m.heap[p.0].id, m.heap[p.1].id)];
      ExecuteEvolves(m, EmptyFrame, rule.initializers, rule.instructions, Some(p.0), Some(p.1));
    } else if m.heap[l].NameV? {
      UpdateEvolves(m, l, RefV(Some(r)));
    } else {
      UpdateEvolves(m, r, RefV(Some(l)));
    }
  }

  lemma StepEvolves(m: Machine, rules: RuleMap)
    requires Closed(m) && |m.stack| > 0 && Step(m, rules).Ok?
    ensures Evolves(m, Step(m, rules).value)
  {
    PopClosed(m);
    var top := Pop(m).value;
    ReduceEvolves(top.1, rules, top.0.0.value, top.0.1.value);
  }

  /** The whole reduction loop only lets the machine evolve. */
  lemma {:induction false} LoopEvolves(m: Machine, rules: RuleMap, fuel: nat)
    requires Closed(m) && Loop(m, rules, fuel).Ok?
    ensures Evolves(m, Loop(m, rules, fuel).value.0)
    decreases fuel
  {
    if |m.stack| > 0 {
      var m' := Step(m, rules).value;
      StepEvolves(m, rules);
      LoopEvolves(m', rules, fuel - 1);
      EvolvesTrans(m, m', Loop(m, rules, fuel).value.0);
    }
  }

  // ---------------------------------------------------------------------------
  // The three kinds of reduction

  /** The top of the stack is the equation `l = r`. */
  predicate OnTop(m: Machine, l: PValue, r: PValue)
  {
    |m.stack| > 0 && m.stack[|m.stack| - 1] == (l, r)
  }

  /** The machine with its top equation popped. */
  function Popped(m: Machine): (m': Machine)
    requires Closed(m) && |m.stack| > 0
    ensures Closed(m') && m' == Pop(m).value.1
  {
    PopClosed(m);
    Pop(m).value.1
  }

  /** Indirection: a reference on the left is followed, the equation with its
      target is pushed back, and the heap is untouched. */
  lemma StepIndirectionLeft(m: Machine, rules: RuleMap, l: nat, r: nat)
    requires Closed(m) && OnTop(m, Some(l), Some(r)) && m.heap[l].RefV?
    ensures Step(m, rules) == Ok(Push(Popped(m), m.heap[l].target, Some(r)))
  {
  }

  /** Indirection on the right, when the left is not a reference. */
  lemma StepIndirectionRight(m: Machine, rules: RuleMap, l: nat, r: nat)
    requires Closed(m) && OnTop(m, Some(l), Some(r)) && !m.heap[l].RefV? && m.heap[r].RefV?
    ensures Step(m, rules) == Ok(Push(Popped(m), Some(l), m.heap[r].target))
  {
  }

  /** Binding: exactly one cell, the name, changes, into a reference to the other
      side; the left side is bound when both are names. */
  lemma StepBinds(m: Machine, rules: RuleMap, l: nat, r: nat)
    requires Closed(m) && OnTop(m, Some(l), Some(r))
    requires !m.heap[l].RefV? && !m.heap[r].RefV? && (m.heap[l].NameV? || m.heap[r].NameV?)
    ensures Step(m, rules).Ok?
    ensures var m' := Step(m, rules).value;
      var bound := if m.heap[l].NameV? then l else r;
      && m' == Popped(m).(heap := m'.heap) && |m'.heap| == |m.heap|
      && m'.heap[bound] == RefV(Some(if bound == l then r else l))
      && forall i :: 0 <= i < |m.heap| && i != bound ==> m'.heap[i] == m.heap[i]
  {
  }

  /** An unset side of the popped equation is an error. */
  lemma StepUnsetSide(m: Machine, rules: RuleMap, l: PValue, r: PValue)
    requires Closed(m) && OnTop(m, l, r) && (l.None? || r.None?)
    ensures Step(m, rules) == Err(SideNone(l.None?))
  {
  }

  /** Printing fails only on an unset reference. */
  lemma PrintFails(m: Machine, v: Value, depth: nat)
    requires Closed(m) && ValueClosed(m.agents, |m.heap|, v)
    ensures Print(m, v, depth).Err? ==> Print(m, v, depth).error == ValueNone
    decreases depth, 0
  {
    if depth > 0 {
      match v
      case AgentV(_, slots) => if |slots| > 0 { PrintSlotsFail(m, slots, depth - 1); }
      case NameV(_) =>
      case RefV(p) => if p.Some? { PrintFails(m, m.heap[p.value], depth - 1); }
    }
  }

  lemma PrintSlotsFail(m: Machine, slots: seq<PValue>, depth: nat)
    requires Closed(m) && forall k :: 0 <= k < |slots| ==> Points(|m.heap|, slots[k])
    ensures PrintSlots(m, slots, depth).Err? ==> PrintSlots(m, slots, depth).error == ValueNone
    decreases depth, 1, |slots|
  {
    if |slots| > 0 {
      PrintSlotsFail(m, slots[..|slots| - 1], depth);
      var p := slots[|slots| - 1];
      assert Points(|m.heap|, slots[|slots| - 1]);
      if p.Some? {
        PrintFails(m, m.heap[p.value], depth);
      }
    }
  }

  /** Interaction: the rule under the ordered key runs with the smaller-id agent as
      its left argument; without a rule for the key it is the no-rule error, unless
      printing the two agents for it already fails. */
  lemma StepInteracts(m: Machine, rules: RuleMap, l: nat, r: nat)
    requires Closed(m) && OnTop(m, Some(l), Some(r)) && m.heap[l].AgentV? && m.heap[r].AgentV?
    ensures var a, b := m.heap[l].id, m.heap[r].id;
      var key := if a <= b then (a, b) else (b, a);
      var args := if a <= b then (l, r) else (r, l);
      && (key !in rules ==> Step(m, rules).Err? && (Step(m, rules).error.NoRule? || Step(m, rules).error == ValueNone))
      && (key in rules ==>
            var rule := rules[key];
            var x := Execute(Popped(m), EmptyFrame, rule.initializers, rule.instructions, Some(args.0), Some(args.1));
            Step(m, rules) == if x.Ok? then Ok(x.value.0) else Err(InRuleContext(rule.index, x.error)))
  {
    var m1 := Popped(m);
    var p := OrderedPair(m1, l, r);
    PrintFails(m1, m1.heap[p.0], 3);
    PrintFails(m1, m1.heap[p.1], 3);
  }

  /** With every reference set, printing succeeds. */
  lemma PrintSucceeds(m: Machine, v: Value, depth: nat)
    requires Closed(m) && ValueClosed(m.agents, |m.heap|, v) && RefsSet(m) && v != RefV(None)
    ensures Print(m, v, depth).Ok?
    decreases depth, 0
  {
    if depth > 0 {
      match v
      case AgentV(_, slots) => if |slots| > 0 { PrintSlotsSucceed(m, slots, depth - 1); }
      case NameV(_) =>
      case RefV(p) => PrintSucceeds(m, m.heap[p.value], depth - 1);
    }
  }

  lemma PrintSlotsSucceed(m: Machine, slots: seq<PValue>, depth: nat)
    requires Closed(m) && RefsSet(m) && forall k :: 0 <= k < |slots| ==> Points(|m.heap|, slots[k])
    ensures PrintSlots(m, slots, depth).Ok?
    decreases depth, 1, |slots|
  {
    if |slots| > 0 {
      PrintSlotsSucceed(m, slots[..|slots| - 1], depth);
      var p := slots[|slots| - 1];
      assert Points(|m.heap|, slots[|slots| - 1]);
      if p.Some? {
        PrintSucceeds(m, m.heap[p.value], depth);
      }
    }
  }

  /** In a machine whose references are all set, as every machine reached from the
      start is, a missing rule is reported as such. */
  lemma StepNoRule(m: Machine, rules: RuleMap, l: nat, r: nat)
    requires Closed(m) && RefsSet(m) && OnTop(m, Some(l), Some(r)) && m.heap[l].AgentV? && m.heap[r].AgentV?
    requires (m.heap[l].id, m.heap[r].id) !in rules && (m.heap[r].id, m.heap[l].id) !in rules
    ensures Step(m, rules).Err? && Step(m, rules).error.NoRule?
  {
    var m1 := Popped(m);
    var p := OrderedPair(m1, l, r);
    PrintSucceeds(m1, m1.heap[p.0], 3);
    PrintSucceeds(m1, m1.heap[p.1], 3);
  }

  /** A slot that fails to print makes the whole list fail the same way. */
  lemma {:induction false} PrintSlotsSticky(m: Machine, slots: seq<PValue>, depth: nat, i: nat)
    requires Closed(m) && forall k :: 0 <= k < |slots| ==> Points(|m.heap|, slots[k])
    requires i <= |slots| && PrintSlots(m, slots[..i], depth).Err?
    ensures PrintSlots(m, slots, depth) == PrintSlots(m, slots[..i], depth)
    decreases |slots|
  {
    if i < |slots| {
      var front := slots[..|slots| - 1];
      assert front[..i] == slots[..i];
      PrintSlotsSticky(m, front, depth, i);
    } else {
      assert slots[..i] == slots;
    }
  }

  /** The machine with the two sides of its top equation exchanged. */
  function Flipped(m: Machine): (m': Machine)
    requires Closed(m) && |m.stack| > 0
    ensures Closed(m') && |m'.stack| == |m.stack|
    ensures Pop(m').value == ((m.stack[|m.stack| - 1].1, m.stack[|m.stack| - 1].0), Pop(m).value.1)
  {
    var top := m.stack[|m.stack| - 1];
    var m' := m.(stack := m.stack[..|m.stack| - 1] + [(top.1, top.0)]);
    assert m'.stack[..|m.stack| - 1] == m.stack[..|m.stack| - 1];
    assert forall k :: 0 <= k < |m.stack| - 1 ==> m'.stack[k] == m.stack[k];
    m'
  }

  /** When the two agents have different ids, the equation's orientation does not
      matter: `A = B` and `B = A` reduce alike. */
  lemma InteractOrientation(m: Machine, rules: RuleMap, l: nat, r: nat)
    requires Closed(m) && OnTop(m, Some(l), Some(r))
    requires m.heap[l].AgentV? && m.heap[r].AgentV? && m.heap[l].id != m.heap[r].id
    ensures Step(m, rules) == Step(Flipped(m), rules)
  {
    var m1 := Popped(m);
    assert OrderedPair(m1, l, r) == OrderedPair(m1, r, l);
  }

  // ---------------------------------------------------------------------------
  // The loop

  /** The loop stops only on an empty stack, and then at once without a reduction. */
  lemma LoopStops(m: Machine, rules: RuleMap, fuel: nat)
    requires Closed(m)
    ensures |m.stack| == 0 ==> Loop(m, rules, fuel) == Ok((m, 0))
    ensures |m.stack| > 0 && Step(m, rules).Err? ==> Loop(m, rules, fuel).Err?
  {
  }

  /** Each reduction is one popped equation: with one more iteration to spare the
      result is the same, so the bound on iterations only cuts the run short. */
  lemma {:induction false} LoopFuel(m: Machine, rules: RuleMap, fuel: nat, more: nat)
    requires Closed(m) && Loop(m, rules, fuel).Ok? && fuel <= more
    ensures Loop(m, rules, more) == Loop(m, rules, fuel)
    decreases fuel
  {
    if |m.stack| > 0 {
      LoopFuel(Step(m, rules).value, rules, fuel - 1, more - 1);
    }
  }

  /** The loop is one step followed by the loop, the step counting one reduction. */
  lemma LoopUnfold(m: Machine, rules: RuleMap, fuel: nat)
    requires Closed(m) && |m.stack| > 0 && fuel > 0 && Step(m, rules).Ok?
    ensures var l := Loop(Step(m, rules).value, rules, fuel - 1);
      Loop(m, rules, fuel) == if l.Ok? then Ok((l.value.0, l.value.1 + 1)) else l
  {
  }

  /** The loop's result with `n` more reductions counted. */
  function Shift(r: Result<(Machine, nat), Error>, n: nat): Result<(Machine, nat), Error>
  {
    if r.Ok? then Ok((r.value.0, r.value.1 + n)) else r
  }

  /** A loop that reached `m` after `n` reductions, with `budget` turns left, goes on
      from the step's result with one more reduction, or ends with the step's error. */
  lemma LoopShifted(m1: Machine, fuel: nat, m: Machine, rules: RuleMap, budget: nat, n: nat)
    requires Closed(m1) && Closed(m) && |m.stack| > 0 && budget > 0
    requires Loop(m1, rules, fuel) == Shift(Loop(m, rules, budget), n)
    ensures Step(m, rules).Ok? ==>
      Loop(m1, rules, fuel) == Shift(Loop(Step(m, rules).value, rules, budget - 1), n + 1)
    ensures Step(m, rules).Err? ==> Loop(m1, rules, fuel) == Err(Step(m, rules).error)
  {
    if Step(m, rules).Ok? {
      LoopUnfold(m, rules, budget);
    }
  }

  // ---------------------------------------------------------------------------
  // An error stops a body

  /** One more initializer, from a prefix that ran. */
  lemma ExecInitsNext(m: Machine, f: Frame, lhs: PValue, rhs: PValue, inits: seq<Initializer>, i: nat)
    requires Scoped(m, f, lhs, rhs) && i < |inits| && ExecInits(m, f, lhs, rhs, inits[..i]).Ok?
    ensures var x := ExecInits(m, f, lhs, rhs, inits[..i]).value;
      && Scoped(x.0, x.1, lhs, rhs)
      && ExecInits(m, f, lhs, rhs, inits[..i + 1]) == ExecInit(x.0, x.1, lhs, rhs, inits[i])
  {
    assert inits[..i + 1][..i] == inits[..i];
  }

  lemma {:induction false} ExecInitsSticky(m: Machine, f: Frame, lhs: PValue, rhs: PValue, inits: seq<Initializer>, i: nat)
    requires Scoped(m, f, lhs, rhs) && i <= |inits| && ExecInits(m, f, lhs, rhs, inits[..i]).Err?
    ensures ExecInits(m, f, lhs, rhs, inits) == ExecInits(m, f, lhs, rhs, inits[..i])
    decreases |inits|
  {
    if i < |inits| {
      var front := inits[..|inits| - 1];
      assert front[..i] == inits[..i];
      ExecInitsSticky(m, f, lhs, rhs, front, i);
    } else {
      assert inits[..i] == inits;
    }
  }

  lemma {:induction false} ExecInstrsSticky(m: Machine, f: Frame, instrs: seq<Instruction>, i: nat)
    requires Closed(m) && FrameClosed(|m.heap|, f) && i <= |instrs| && ExecInstrs(m, f, instrs[..i]).Err?
    ensures ExecInstrs(m, f, instrs) == ExecInstrs(m, f, instrs[..i])
    decreases |instrs|
  {
    if i < |instrs| {
      var front := instrs[..|instrs| - 1];
      assert front[..i] == instrs[..i];
      ExecInstrsSticky(m, f, front, i);
    } else {
      assert instrs[..i] == instrs;
    }
  }

  lemma {:induction false} RuleMapSticky(rules: seq<Rule>, entries: seq<(nat, nat, nat)>, i: nat)
    requires i <= |entries| && RuleMapOf(rules, entries[..i]).Err?
    ensures RuleMapOf(rules, entries).Err?
    decreases |entries|
  {
    if i < |entries| {
      var front := entries[..|entries| - 1];
      assert front[..i] == entries[..i];
      RuleMapSticky(rules, front, i);
    } else {
      assert entries[..i] == entries;
    }
  }

  // ---------------------------------------------------------------------------
  // The rule map

  predicate IndicesDistinct(entries: seq<(nat, nat, nat)>)
  {
    forall a, b :: 0 <= a < b < |entries| ==> entries[a].2 != entries[b].2
  }

  predicate IndicesBelow(entries: seq<(nat, nat, nat)>, n: nat)
  {
    forall a :: 0 <= a < |entries| ==> entries[a].2 < n
  }

  /** With every index in range and used once, `VM::new` does not panic, and a
      rule is moved out exactly when some entry names it. */
  lemma {:induction false} RuleMapLoads(rules: seq<Rule>, entries: seq<(nat, nat, nat)>)
    requires IndicesDistinct(entries) && IndicesBelow(entries, |rules|)
    ensures RuleMapOf(rules, entries).Ok?
    ensures forall i :: 0 <= i < |rules| ==>
      RuleMapOf(rules, entries).value.1[i] == if exists a :: 0 <= a < |entries| && entries[a].2 == i then None else Some(rules[i])
    decreases |entries|
  {
    if |entries| > 0 {
      var front := entries[..|entries| - 1];
      assert forall a :: 0 <= a < |front| ==> front[a] == entries[a];
      RuleMapLoads(rules, front);
      var x := RuleMapOf(rules, front).value;
      var e := entries[|entries| - 1];
      assert forall a :: 0 <= a < |front| ==> front[a].2 != e.2;
      assert x.1[e.2] == Some(rules[e.2]);
      forall i | 0 <= i < |rules|
        ensures RuleMapOf(rules, entries).value.1[i] == if exists a :: 0 <= a < |entries| && entries[a].2 == i then None else Some(rules[i])
      {
        if i == e.2 {
          assert entries[|entries| - 1].2 == i;
        } else {
          if exists a :: 0 <= a < |entries| && entries[a].2 == i {
            var a :| 0 <= a < |entries| && entries[a].2 == i;
            assert a < |front| && front[a].2 == i;
          }
        }
      }
    }
  }

  /** No entry after `j` has the key of entry `j`. */
  predicate LastForKey(entries: seq<(nat, nat, nat)>, j: nat)
  {
    forall a :: j < a < |entries| ==> (entries[a].0, entries[a].1) != (entries[j].0, entries[j].1)
  }

  /** A key holds the rule of its last entry: a later entry for the same key
      replaces an earlier one, as `collect` into a `HashMap` does. */
  lemma {:induction false} RuleMapLastWins(rules: seq<Rule>, entries: seq<(nat, nat, nat)>, j: nat)
    requires RuleMapOf(rules, entries).Ok? && j < |entries| && LastForKey(entries, j)
    ensures entries[j].2 < |rules|
    ensures RuleMapOf(rules, entries).value.0[(entries[j].0, entries[j].1)] == rules[entries[j].2]
    decreases |entries|
  {
    var front := entries[..|entries| - 1];
    var x := RuleMapOf(rules, front).value;
    if j == |entries| - 1 {
      RuleMapTaken(rules, front, entries[j].2);
    } else {
      assert front[j] == entries[j];
      assert forall a :: j < a < |front| ==> front[a] == entries[a];
      RuleMapLastWins(rules, front, j);
    }
  }

  /** A rule still in the list is the one at that position. */
  lemma {:induction false} RuleMapTaken(rules: seq<Rule>, entries: seq<(nat, nat, nat)>, i: nat)
    requires RuleMapOf(rules, entries).Ok? && i < |rules|
    ensures RuleMapOf(rules, entries).value.1[i].Some? ==> RuleMapOf(rules, entries).value.1[i].value == rules[i]
    decreases |entries|
  {
    if |entries| > 0 {
      RuleMapTaken(rules, entries[..|entries| - 1], i);
    }
  }

  /** The runtime builder's output loads into the VM without a panic, and each
      rule the VM finds under a key is the rule of the last entry for it. */
  lemma BuiltRulesLoad(st: RS.State)
    requires RS.Valid(st)
    ensures RuleMapOf(st.rules, st.ruleMap).Ok?
    ensures forall j :: 0 <= j < |st.ruleMap| && LastForKey(st.ruleMap, j) ==>
      RuleMapOf(st.rules, st.ruleMap).value.0[(st.ruleMap[j].0, st.ruleMap[j].1)] == st.rules[j]
  {
    RuleMapLoads(st.rules, st.ruleMap);
    forall j | 0 <= j < |st.ruleMap| && LastForKey(st.ruleMap, j)
      ensures RuleMapOf(st.rules, st.ruleMap).value.0[(st.ruleMap[j].0, st.ruleMap[j].1)] == st.rules[j]
    {
      RuleMapLastWins(st.rules, st.ruleMap, j);
    }
  }
}
