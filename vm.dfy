/** The interpreter of src/runtime/vm.rs as objects: the `Runtime` with its heap of
    cells and its equation stack, the `StackFrame` that runs a rule or `main`, and
    the `VM` with its rule map and reduction loop.  Every method is proved to do what
    the matching function of VmSpec says. */
module Vm {

  import opened Wrappers
  import opened Locals
  import opened RuntimeIr
  import opened VmSpec
  import opened VmFacts

  /** A method that returns `err` and leaves the state `s` behaves as `x`: the error
      is `x`'s, and when there is none the state is `x`'s value. */
  predicate Outcome<S(==)>(x: Result<S, Error>, err: Option<Error>, s: S)
  {
    && (err.None? <==> x.Ok?)
    && (x.Ok? ==> s == x.value)
    && (x.Err? ==> err == Some(x.error))
  }

  class Runtime {
    const agents: seq<AgentMeta>
    /** The cells; a `PValue` is a position here. */
    var heap: seq<Value>
    var nameCounter: nat
    var stack: seq<(PValue, PValue)>
    const maxStackSize: nat
    var overflowed: bool

    function State(): Machine
      reads this
    {
      Machine(agents, heap, nameCounter, stack, maxStackSize, overflowed)
    }

    constructor (agents: seq<AgentMeta>, maxStackSize: nat)
      ensures State() == InitialMachine(agents, maxStackSize)
    {
      this.agents := agents;
      this.maxStackSize := maxStackSize;
      heap, nameCounter, stack, overflowed := [], 0, [], false;
    }

    /** `new_agent`: `agents[id]` panics for an id past the table, so callers check. */
    method NewAgent(id: nat) returns (p: PValue)
      requires Closed(State()) && id < |agents|
      modifies this
      ensures (State(), p) == NewAgentCell(old(State()), id)
    {
      p := Some(|heap|);
      heap := heap + [AgentV(id, Unset(agents[id].arity))];
    }

    method NewName() returns (p: PValue)
      requires Closed(State())
      modifies this
      ensures (State(), p) == NewNameCell(old(State()))
    {
      nameCounter := nameCounter + 1;
      p := Some(|heap|);
      heap := heap + [NameV(nameCounter)];
    }

    method PushEquation(lhs: PValue, rhs: PValue)
      modifies this
      ensures State() == Push(old(State()), lhs, rhs)
    {
      stack := stack + [(lhs, rhs)];
      if !overflowed && |stack| > maxStackSize {
        overflowed := true;
      }
    }

    method PopEquation() returns (e: Option<(PValue, PValue)>)
      modifies this
      ensures var p := Pop(old(State()));
        e == (if p.Some? then Some(p.value.0) else None)
        && State() == (if p.Some? then p.value.1 else old(State()))
    {
      if |stack| == 0 {
        return None;
      }
      e := Some(stack[|stack| - 1]);
      stack := stack[..|stack| - 1];
    }

    /** `print`, with its loop over an agent's slots. */
    method Print(v: Value, depth: nat) returns (r: Result<string, Error>)
      requires Closed(State()) && ValueClosed(agents, |heap|, v)
      ensures r == VmSpec.Print(State(), v, depth)
      decreases depth, 1
    {
      if depth == 0 {
        return Ok("...");
      }
      match v {
        case AgentV(id, slots) =>
          var s := agents[id].name;
          if |slots| > 0 {
            var text := PrintSlotList(slots, depth);
            if text.Err? {
              return Err(text.error);
            }
            s := s + "(" + text.value + ")";
          }
          r := Ok(s);
        case NameV(id) =>
          r := Ok("x" + Strings.NatToString(id));
        case RefV(p) =>
          if p.None? {
            return Err(ValueNone);
          }
          r := Print(heap[p.value], depth - 1);
      }
    }

    /** The loop of `print` over the slots of an agent printed at depth `depth`:
        each slot one level deeper, separated by `", "`, with `?` for an unset one. */
    method PrintSlotList(slots: seq<PValue>, depth: nat) returns (r: Result<string, Error>)
      requires depth > 0 && Closed(State())
      requires forall k :: 0 <= k < |slots| ==> Points(|heap|, slots[k])
      ensures r == PrintSlots(State(), slots, depth - 1)
      decreases depth, 0
    {
      var text := "";
      var first := true;
      var i := 0;
      while i < |slots|
        invariant 0 <= i <= |slots| && first == (i == 0)
        invariant PrintSlots(State(), slots[..i], depth - 1) == Ok(text)
      {
        assert slots[..i + 1][..i] == slots[..i];
        var sep := if first then "" else ", ";
        first := false;
        var piece := "?";
        if slots[i].Some? {
          var sub := Print(heap[slots[i].value], depth - 1);
          if sub.Err? {
            PrintSlotsSticky(State(), slots, depth - 1, i + 1);
            return Err(sub.error);
          }
          piece := sub.value;
        }
        text := text + sep + piece;
        i := i + 1;
      }
      assert slots[..i] == slots;
      r := Ok(text);
    }
  }

  class StackFrame {
    var names: seq<PValue>
    var agents: seq<PValue>
    var slots: seq<PValue>

    function Snapshot(): Frame
      reads this
    {
      Frame(names, agents, slots)
    }

    constructor ()
      ensures Snapshot() == EmptyFrame
    {
      names, agents, slots := [], [], [];
    }

    /** `get`: the local's entry, a panic past the end. */
    method Get(l: Local) returns (r: Result<PValue, Error>)
      ensures r == VmSpec.Get(Snapshot(), l)
    {
      var vs := match l case Name(_) => names case Agent(_) => agents case Slot(_) => slots;
      if l.index < |vs| {
        r := Ok(vs[l.index]);
      } else {
        r := Err(Panic(IndexOutOfBounds));
      }
    }

    /** One initializer of `execute`. */
    method Init(rt: Runtime, init: Initializer, lhs: PValue, rhs: PValue) returns (err: Option<Error>)
      requires Scoped(rt.State(), Snapshot(), lhs, rhs)
      modifies this, rt
      ensures var x := ExecInit(old(rt.State()), old(Snapshot()), lhs, rhs, init);
        && (err.None? <==> x.Ok?) && (x.Ok? ==> (rt.State(), Snapshot()) == x.value)
        && (x.Err? ==> err == Some(x.error))
    {
      match init {
        case NameInit(k) =>
          names := Prepared(names, k);
          var p := rt.NewName();
          names := names[k := p];
          err := None;
        case AgentInit(k, id) =>
          agents := Prepared(agents, k);
          if id >= |rt.agents| {
            return Some(Panic(IndexOutOfBounds));
          }
          var p := rt.NewAgent(id);
          agents := agents[k := p];
          err := None;
        case SlotFromLeft(k, slot) =>
          err := ArgumentInit(rt, lhs, true, k, slot);
        case SlotFromRight(k, slot) =>
          err := ArgumentInit(rt, rhs, false, k, slot);
      }
    }

    /** `SlotFromLeft` / `SlotFromRight`. */
    method ArgumentInit(rt: Runtime, side: PValue, left: bool, index: nat, slot: nat) returns (err: Option<Error>)
      requires Closed(rt.State()) && FrameClosed(|rt.heap|, Snapshot()) && Points(|rt.heap|, side)
      modifies this
      ensures var x := ArgumentSlot(rt.State(), old(Snapshot()), side, left, index, slot);
        && (err.None? <==> x.Ok?) && (x.Ok? ==> Snapshot() == x.value.1)
        && (x.Err? ==> err == Some(x.error))
    {
      slots := Prepared(slots, index);
      if side.None? {
        return Some(ArgumentNone(left));
      }
      var c := rt.heap[side.value];
      var s := SlotOf(c, slot);
      if s.Err? {
        return Some(s.error);
      }
      if s.value.None? {
        var shown := rt.Print(c, 3);
        if shown.Err? {
          return Some(shown.error);
        }
        return Some(SlotNotFound(slot, shown.value));
      }
      slots := slots[index := s.value.value];
      err := None;
    }

    /** One instruction of `execute`. */
    method Instr(rt: Runtime, instr: Instruction) returns (err: Option<Error>)
      requires Closed(rt.State()) && FrameClosed(|rt.heap|, Snapshot())
      modifies rt
      ensures var x := ExecInstr(old(rt.State()), Snapshot(), instr);
        && (err.None? <==> x.Ok?) && (x.Ok? ==> rt.State() == x.value)
        && (x.Err? ==> err == Some(x.error))
    {
      match instr {
        case SetSlot(target, slot, value) =>
          var t := Get(target);
          if t.Err? {
            return Some(t.error);
          }
          if t.value.None? {
            return Some(LocalNone(target));
          }
          var c := rt.heap[t.value.value];
          var s := SlotOf(c, slot);
          if s.Err? {
            return Some(s.error);
          }
          if s.value.None? {
            var shown := rt.Print(c, 3);
            if shown.Err? {
              return Some(shown.error);
            }
            return Some(SlotNotFound(slot, shown.value));
          }
          var v := Get(value);
          if v.Err? {
            return Some(v.error);
          }
          if v.value.None? {
            return Some(LocalNone(value));
          }
          rt.heap := rt.heap[t.value.value := c.(slots := c.slots[slot - 1 := v.value])];
          err := None;
        case PushEquation(left, right, _) =>
          var l := Get(left);
          if l.Err? {
            return Some(l.error);
          }
          if l.value.None? {
            return Some(LocalNone(left));
          }
          var r := Get(right);
          if r.Err? {
            return Some(r.error);
          }
          if r.value.None? {
            return Some(LocalNone(right));
          }
          rt.PushEquation(l.value, r.value);
          err := None;
      }
    }

    /** `execute`: every initializer, then every instruction, stopping at the first
        error. */
    method Execute(rt: Runtime, inits: seq<Initializer>, instrs: seq<Instruction>, lhs: PValue, rhs: PValue)
        returns (err: Option<Error>)
      requires Scoped(rt.State(), Snapshot(), lhs, rhs)
      modifies this, rt
      ensures var x := VmSpec.Execute(old(rt.State()), old(Snapshot()), inits, instrs, lhs, rhs);
        && (err.None? <==> x.Ok?) && (x.Ok? ==> (rt.State(), Snapshot()) == x.value)
        && (x.Err? ==> err == Some(x.error))
    {
      err := Inits(rt, inits, lhs, rhs);
      if err.None? {
        err := Instrs(rt, instrs);
      }
    }

    /** The loop of `execute` over the initializers. */
    method Inits(rt: Runtime, inits: seq<Initializer>, lhs: PValue, rhs: PValue) returns (err: Option<Error>)
      requires Scoped(rt.State(), Snapshot(), lhs, rhs)
      modifies this, rt
      ensures Outcome(ExecInits(old(rt.State()), old(Snapshot()), lhs, rhs, inits), err, (rt.State(), Snapshot()))
    {
      ghost var m0, f0 := rt.State(), Snapshot();
      var i := 0;
      err := None;
      while i < |inits| && err.None?
        invariant 0 <= i <= |inits|
        invariant err.None? ==> ExecInits(m0, f0, lhs, rhs, inits[..i]) == Ok((rt.State(), Snapshot()))
        invariant err.Some? ==> ExecInits(m0, f0, lhs, rhs, inits) == Err(err.value)
      {
        err := InitStep(rt, inits, i, m0, f0, lhs, rhs);
        i := i + 1;
      }
      if err.None? {
        assert inits[..i] == inits;
      }
    }

    /** One turn of the loop over the initializers. */
    method InitStep(rt: Runtime, inits: seq<Initializer>, i: nat, ghost m0: Machine, ghost f0: Frame,
                    lhs: PValue, rhs: PValue) returns (err: Option<Error>)
      requires Scoped(m0, f0, lhs, rhs) && i < |inits|
      requires ExecInits(m0, f0, lhs, rhs, inits[..i]) == Ok((rt.State(), Snapshot()))
      modifies this, rt
      ensures err.None? ==> ExecInits(m0, f0, lhs, rhs, inits[..i + 1]) == Ok((rt.State(), Snapshot()))
      ensures err.Some? ==> ExecInits(m0, f0, lhs, rhs, inits) == Err(err.value)
    {
      ExecInitsNext(m0, f0, lhs, rhs, inits, i);
      err := Init(rt, inits[i], lhs, rhs);
      if err.Some? {
        ExecInitsSticky(m0, f0, lhs, rhs, inits, i + 1);
      }
    }

    /** The loop of `execute` over the instructions. */
    method Instrs(rt: Runtime, instrs: seq<Instruction>) returns (err: Option<Error>)
      requires Closed(rt.State()) && FrameClosed(|rt.heap|, Snapshot())
      modifies rt
      ensures var x := ExecInstrs(old(rt.State()), Snapshot(), instrs);
        && (err.None? <==> x.Ok?) && (x.Ok? ==> rt.State() == x.value)
        && (x.Err? ==> err == Some(x.error))
    {
      ghost var m1 := rt.State();
      var i := 0;
      while i < |instrs|
        invariant 0 <= i <= |instrs|
        invariant ExecInstrs(m1, Snapshot(), instrs[..i]) == Ok(rt.State())
      {
        assert instrs[..i + 1][..i] == instrs[..i];
        err := Instr(rt, instrs[i]);
        if err.Some? {
          ExecInstrsSticky(m1, Snapshot(), instrs, i + 1);
          return;
        }
        i := i + 1;
      }
      assert instrs[..i] == instrs;
      err := None;
    }
  }

  class VM {
    const runtime: Runtime
    const ruleMap: RuleMap
    const main: Main

    /** `VM::new`: takes each rule out of the list into the map under its key; it
        panics unless every index names a rule not yet taken. */
    constructor (program: VmProgram, stackSize: nat)
      requires RuleMapOf(program.rules, program.ruleMap).Ok?
      ensures fresh(runtime) && runtime.State() == InitialMachine(program.agents, stackSize)
      ensures ruleMap == RuleMapOf(program.rules, program.ruleMap).value.0 && main == program.main
    {
      var rules := Unmoved(program.rules);
      var map_: RuleMap := map[];
      assert program.ruleMap[..0] == [];
      var i := 0;
      while i < |program.ruleMap|
        invariant 0 <= i <= |program.ruleMap|
        invariant RuleMapOf(program.rules, program.ruleMap[..i]) == Ok((map_, rules))
      {
        assert program.ruleMap[..i + 1][..i] == program.ruleMap[..i];
        if RuleMapOf(program.rules, program.ruleMap[..i + 1]).Err? {
          RuleMapSticky(program.rules, program.ruleMap, i + 1);
        }
        var e := program.ruleMap[i];
        map_ := map_[(e.0, e.1) := rules[e.2].value];
        rules := rules[e.2 := None];
        i := i + 1;
      }
      assert program.ruleMap[..i] == program.ruleMap;
      runtime := new Runtime(program.agents, stackSize);
      ruleMap := map_;
      main := program.main;
    }

    /** The reduction of one popped equation whose sides are both set. */
    method Reduce(l: nat, r: nat) returns (err: Option<Error>)
      requires Closed(runtime.State()) && l < |runtime.heap| && r < |runtime.heap|
      modifies runtime
      ensures var x := VmSpec.Reduce(old(runtime.State()), ruleMap, l, r);
        && (err.None? <==> x.Ok?) && (x.Ok? ==> runtime.State() == x.value)
        && (x.Err? ==> err == Some(x.error))
    {
      var lc := runtime.heap[l];
      if lc.RefV? {
        runtime.PushEquation(lc.target, Some(r));
        return None;
      }
      var rc := runtime.heap[r];
      if rc.RefV? {
        runtime.PushEquation(Some(l), rc.target);
        return None;
      }
      if lc.AgentV? && rc.AgentV? {
        err := Interact(l, r);
        return;
      }
      if lc.NameV? {
        runtime.heap := runtime.heap[l := RefV(Some(r))];
        return None;
      }
      if rc.NameV? {
        runtime.heap := runtime.heap[r := RefV(Some(l))];
      }
      err := None;
    }

    /** Interaction: the smaller id first, then the rule's body in a new frame. */
    method Interact(l: nat, r: nat) returns (err: Option<Error>)
      requires Closed(runtime.State()) && l < |runtime.heap| && r < |runtime.heap|
      requires runtime.heap[l].AgentV? && runtime.heap[r].AgentV?
      modifies runtime
      ensures var x := VmSpec.Interact(old(runtime.State()), ruleMap, l, r);
        && (err.None? <==> x.Ok?) && (x.Ok? ==> runtime.State() == x.value)
        && (x.Err? ==> err == Some(x.error))
    {
      var a, b := l, r;
      if runtime.heap[l].id > runtime.heap[r].id {
        a, b := r, l;
      }
      var key := (runtime.heap[a].id, runtime.heap[b].id);
      if key in ruleMap {
        var rule := ruleMap[key];
        var frame := new StackFrame();
        var e := frame.Execute(runtime, rule.initializers, rule.instructions, Some(a), Some(b));
        if e.Some? {
          return Some(InRuleContext(rule.index, e.value));
        }
        return None;
      }
      var left := runtime.Print(runtime.heap[a], 3);
      if left.Err? {
        return Some(left.error);
      }
      var right := runtime.Print(runtime.heap[b], 3);
      if right.Err? {
        return Some(right.error);
      }
      err := Some(NoRule(left.value, right.value));
    }

    /** One iteration of the loop of `run`: pop, refuse an unset side, reduce. */
    method Step() returns (err: Option<Error>)
      requires Closed(runtime.State()) && |runtime.stack| > 0
      modifies runtime
      ensures var x := VmSpec.Step(old(runtime.State()), ruleMap);
        && (err.None? <==> x.Ok?) && (x.Ok? ==> runtime.State() == x.value)
        && (x.Err? ==> err == Some(x.error))
    {
      PopClosed(runtime.State());
      var top := runtime.PopEquation();
      var lhs, rhs := top.value.0, top.value.1;
      if lhs.None? {
        return Some(SideNone(true));
      }
      if rhs.None? {
        return Some(SideNone(false));
      }
      err := Reduce(lhs.value, rhs.value);
    }

    /** The loop of `run`, for at most `fuel` iterations: it ends only once the stack
        is empty, and counts one reduction per popped equation. */
    method Loop(fuel: nat) returns (r: Result<nat, Error>)
      requires Closed(runtime.State())
      modifies runtime
      ensures var x := VmSpec.Loop(old(runtime.State()), ruleMap, fuel);
        && (r.Ok? <==> x.Ok?) && (x.Ok? ==> runtime.State() == x.value.0 && r.value == x.value.1)
        && (x.Err? ==> r == Err(x.error))
    {
      ghost var m1 := runtime.State();
      var reductions := 0;
      var budget := fuel;
      var err: Option<Error> := None;
      while |runtime.stack| > 0 && err.None?
        invariant Closed(m1)
        invariant err.None? ==> Closed(runtime.State())
        invariant err.None? ==>
          VmSpec.Loop(m1, ruleMap, fuel) == Shift(VmSpec.Loop(runtime.State(), ruleMap, budget), reductions)
        invariant err.Some? ==> VmSpec.Loop(m1, ruleMap, fuel) == Err(err.value)
        decreases budget, if err.None? then 1 else 0
      {
        if budget == 0 {
          err := Some(OutOfFuel);
        } else {
          err := LoopStep(m1, fuel, budget, reductions);
          reductions := reductions + 1;
          budget := budget - 1;
        }
      }
      if err.Some? {
        return Err(err.value);
      }
      r := Ok(reductions);
    }

    /** One turn of the loop of `run`. */
    method LoopStep(ghost m1: Machine, ghost fuel: nat, budget: nat, reductions: nat) returns (err: Option<Error>)
      requires Closed(m1) && Closed(runtime.State()) && |runtime.stack| > 0 && budget > 0
      requires VmSpec.Loop(m1, ruleMap, fuel) == Shift(VmSpec.Loop(runtime.State(), ruleMap, budget), reductions)
      modifies runtime
      ensures err.None? ==> Closed(runtime.State())
      ensures err.None? ==>
        VmSpec.Loop(m1, ruleMap, fuel) == Shift(VmSpec.Loop(runtime.State(), ruleMap, budget - 1), reductions + 1)
      ensures err.Some? ==> VmSpec.Loop(m1, ruleMap, fuel) == Err(err.value)
    {
      ghost var m := runtime.State();
      err := Step();
      LoopShifted(m1, fuel, m, ruleMap, budget, reductions);
    }

    /** `VM::run`, with at most `fuel` iterations of its loop: `main` in a new frame,
        the loop, then the output local printed at depth 1000, with the number of
        reductions. */
    method Run(fuel: nat) returns (r: Result<(string, nat), Error>)
      requires Closed(runtime.State())
      modifies runtime
      ensures r == VmSpec.Run(old(runtime.State()), ruleMap, main, fuel)
    {
      var frame := new StackFrame();
      var err := frame.Execute(runtime, main.initializers, main.instructions, None, None);
      if err.Some? {
        return Err(InMainContext(err.value));
      }
      ghost var m1 := runtime.State();
      var reductions := Loop(fuel);
      if reductions.Err? {
        return Err(reductions.error);
      }
      FrameWiden(|m1.heap|, |runtime.heap|, frame.Snapshot());
      var out := frame.Get(main.output);
      if out.Err? {
        return Err(out.error);
      }
      if out.value.None? {
        return Err(OutputNone);
      }
      var text := runtime.Print(runtime.heap[out.value.value], 1000);
      if text.Err? {
        return Err(text.error);
      }
      r := Ok((text.value, reductions.value));
    }
  }
}
