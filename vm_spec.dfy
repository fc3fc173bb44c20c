/** What the interpreter of src/runtime/vm.rs does, as functions on values.

    Every `Rc<RefCell<Value>>` cell lives in an indexed heap and a `PValue` is an
    optional index into it; cells are never freed, nor are they ever shared
    outside the heap, so reference identity is heap position.  A `Machine` holds the
    `Runtime` fields and the heap, a `Frame` the three local vectors of a
    `StackFrame`.  Rust panics (an index past the end of a vector, an `unwrap` of
    `None`, a slot index 0) are the `Panic` outcome, and the `bail!` errors the
    other outcomes. */
module VmSpec {

  import opened Wrappers
  import opened Strings
  import opened Locals
  import opened RuntimeIr

  type PValue = Option<nat>

  datatype Value =
    | AgentV(id: nat, slots: seq<PValue>)
    | NameV(id: nat)
    | RefV(target: PValue)

  datatype Error =
    | Panic(reason: string)
    | ArgumentNone(left: bool)
    | SlotNotFound(slot: nat, shown: string)
    | LocalNone(local: Local)
    | ValueNone
    | SideNone(left: bool)
    | NoRule(shownLeft: string, shownRight: string)
    | InRule(index: nat, cause: Error)
    | InMain(cause: Error)
    | OutputNone
    | OutOfFuel

  const IndexOutOfBounds := "index out of bounds"
  const SubtractOverflow := "attempt to subtract with overflow"
  const UnwrapNone := "called `Option::unwrap()` on a `None` value"

  datatype Machine = Machine(agents: seq<AgentMeta>, heap: seq<Value>, nameCounter: nat,
                             stack: seq<(PValue, PValue)>, maxStackSize: nat, overflowed: bool)

  /** `VM::new`'s runtime: no cells, no names issued, an empty stack. */
  function InitialMachine(agents: seq<AgentMeta>, maxStackSize: nat): Machine
  {
    Machine(agents, [], 0, [], maxStackSize, false)
  }

  // ---------------------------------------------------------------------------
  // Closed heaps: every pointer is a cell, every agent id is in the table

  predicate Points(n: nat, p: PValue)
  {
    p.Some? ==> p.value < n
  }

  predicate ValueClosed(agents: seq<AgentMeta>, n: nat, v: Value)
  {
    match v
    case AgentV(id, slots) => id < |agents| && forall k :: 0 <= k < |slots| ==> Points(n, slots[k])
    case NameV(_) => true
    case RefV(p) => Points(n, p)
  }

  predicate Closed(m: Machine)
  {
    && (forall i :: 0 <= i < |m.heap| ==> ValueClosed(m.agents, |m.heap|, m.heap[i]))
    && (forall k :: 0 <= k < |m.stack| ==> Points(|m.heap|, m.stack[k].0) && Points(|m.heap|, m.stack[k].1))
  }

  lemma ValueClosedWiden(agents: seq<AgentMeta>, n: nat, n': nat, v: Value)
    requires ValueClosed(agents, n, v) && n <= n'
    ensures ValueClosed(agents, n', v)
  {
  }

  /** Appending a closed cell keeps a heap closed. */
  lemma ClosedAppend(m: Machine, v: Value)
    requires Closed(m) && ValueClosed(m.agents, |m.heap| + 1, v)
    ensures Closed(m.(heap := m.heap + [v]))
  {
    var h := m.heap + [v];
    forall i | 0 <= i < |h|
      ensures ValueClosed(m.agents, |h|, h[i])
    {
      if i < |m.heap| {
        ValueClosedWiden(m.agents, |m.heap|, |h|, m.heap[i]);
      }
    }
  }

  /** Overwriting a cell with a closed one keeps a heap closed. */
  lemma ClosedUpdate(m: Machine, i: nat, v: Value)
    requires Closed(m) && i < |m.heap| && ValueClosed(m.agents, |m.heap|, v)
    ensures Closed(m.(heap := m.heap[i := v]))
  {
  }

  // ---------------------------------------------------------------------------
  // `Runtime`: new cells and the equation stack

  function Unset(n: nat): (s: seq<PValue>)
    ensures |s| == n && forall k :: 0 <= k < n ==> s[k].None?
  {
    seq(n, _ => None)
  }

  /** `Runtime::new_agent`: a new cell for agent `id` with one unset slot per unit of
      its arity; nothing else changes. */
  function NewAgentCell(m: Machine, id: nat): (r: (Machine, PValue))
    requires Closed(m) && id < |m.agents|
    ensures Closed(r.0) && r.1 == Some(|m.heap|) && r.0 == m.(heap := r.0.heap)
    ensures |r.0.heap| == |m.heap| + 1 && r.0.heap[..|m.heap|] == m.heap
    ensures var c := r.0.heap[|m.heap|];
      c.AgentV? && c.id == id && |c.slots| == m.agents[id].arity && forall k :: 0 <= k < |c.slots| ==> c.slots[k].None?
  {
    var c := AgentV(id, Unset(m.agents[id].arity));
    ClosedAppend(m, c);
    (m.(heap := m.heap + [c]), Some(|m.heap|))
  }

  /** `Runtime::new_name`: the counter goes up first, so the new name's id is one
      more than every id issued before. */
  function NewNameCell(m: Machine): (r: (Machine, PValue))
    requires Closed(m)
    ensures Closed(r.0) && r.1 == Some(|m.heap|)
    ensures r.0 == m.(heap := r.0.heap, nameCounter := m.nameCounter + 1)
    ensures r.0.heap == m.heap + [NameV(r.0.nameCounter)]
  {
    ClosedAppend(m, NameV(m.nameCounter + 1));
    (m.(heap := m.heap + [NameV(m.nameCounter + 1)], nameCounter := m.nameCounter + 1), Some(|m.heap|))
  }

  /** `Runtime::push_equation`: appends, and raises `overflowed` once the stack is
      longer than `max_stack_size`; the flag is never lowered. */
  function Push(m: Machine, l: PValue, r: PValue): (m': Machine)
    ensures m'.stack == m.stack + [(l, r)]
    ensures m'.overflowed <==> m.overflowed || |m'.stack| > m.maxStackSize
    ensures m' == m.(stack := m'.stack, overflowed := m'.overflowed)
  {
    var s := m.stack + [(l, r)];
    m.(stack := s, overflowed := m.overflowed || |s| > m.maxStackSize)
  }

  /** `Runtime::pop_equation`: the most recently pushed equation. */
  function Pop(m: Machine): (r: Option<((PValue, PValue), Machine)>)
    ensures r.None? <==> |m.stack| == 0
    ensures r.Some? ==> r.value.1 == m.(stack := m.stack[..|m.stack| - 1])
    ensures r.Some? ==> r.value.0 == m.stack[|m.stack| - 1]
  {
    if |m.stack| == 0 then None
    else Some((m.stack[|m.stack| - 1], m.(stack := m.stack[..|m.stack| - 1])))
  }

  lemma PopClosed(m: Machine)
    requires Closed(m) && |m.stack| > 0
    ensures Closed(Pop(m).value.1)
    ensures Points(|m.heap|, Pop(m).value.0.0) && Points(|m.heap|, Pop(m).value.0.1)
  {
  }

  lemma PushClosed(m: Machine, l: PValue, r: PValue)
    requires Closed(m) && Points(|m.heap|, l) && Points(|m.heap|, r)
    ensures Closed(Push(m, l, r))
  {
  }

  // ---------------------------------------------------------------------------
  // `Runtime::print`

  /** Prints a cell with at most `depth` levels: `...` below that, `x{id}` for a
      name, the target's text for a reference, and for an agent its name followed,
      when it has slots, by the slots in parentheses (`?` for an unset one). */
  function Print(m: Machine, v: Value, depth: nat): Result<string, Error>
    requires Closed(m) && ValueClosed(m.agents, |m.heap|, v)
    decreases depth, 0
  {
    if depth == 0 then Ok("...")
    else
      match v
      case AgentV(id, slots) =>
        if |slots| == 0 then Ok(m.agents[id].name)
        else
          (match PrintSlots(m, slots, depth - 1)
           case Ok(s) => Ok(m.agents[id].name + "(" + s + ")")
           case Err(e) => Err(e))
      case NameV(id) => Ok("x" + NatToString(id))
      case RefV(p) =>
        if p.None? then Err(ValueNone) else Print(m, m.heap[p.value], depth - 1)
  }

  /** The slots, separated by `", "`, each printed with `depth` levels. */
  function PrintSlots(m: Machine, slots: seq<PValue>, depth: nat): Result<string, Error>
    requires Closed(m) && forall k :: 0 <= k < |slots| ==> Points(|m.heap|, slots[k])
    decreases depth, 1, |slots|
  {
    if |slots| == 0 then Ok("")
    else
      match PrintSlots(m, slots[..|slots| - 1], depth)
      case Err(e) => Err(e)
      case Ok(before) =>
        var p := slots[|slots| - 1];
        assert Points(|m.heap|, slots[|slots| - 1]);
        var sep := if |slots| == 1 then "" else ", ";
        if p.None? then Ok(before + sep + "?")
        else
          match Print(m, m.heap[p.value], depth)
          case Err(e) => Err(e)
          case Ok(s) => Ok(before + sep + s)
  }

  // ---------------------------------------------------------------------------
  // `Value::slot` and the stack frame

  /** `Value::slot`: slot `index` counted from 1 of an agent cell; no slot for a name
      or a reference.  `index - 1` on 0 is the debug build's overflow panic. */
  function SlotOf(v: Value, index: nat): (r: Result<Option<PValue>, Error>)
    ensures r.Err? <==> v.AgentV? && index == 0
    ensures r.Ok? && r.value.Some? <==> v.AgentV? && 1 <= index <= |v.slots|
    ensures r.Ok? && r.value.Some? ==> r.value.value == v.slots[index - 1]
  {
    match v
    case AgentV(_, slots) =>
      if index == 0 then Err(Panic(SubtractOverflow))
      else if index <= |slots| then Ok(Some(slots[index - 1]))
      else Ok(None)
    case _ => Ok(None)
  }

  datatype Frame = Frame(names: seq<PValue>, agents: seq<PValue>, slots: seq<PValue>)

  const EmptyFrame := Frame([], [], [])

  predicate AllPoint(n: nat, vs: seq<PValue>)
  {
    forall k :: 0 <= k < |vs| ==> Points(n, vs[k])
  }

  predicate FrameClosed(n: nat, f: Frame)
  {
    AllPoint(n, f.names) && AllPoint(n, f.agents) && AllPoint(n, f.slots)
  }

  /** `StackFrame::prepare_index`: grows the vector with unset entries until it has
      entry `index`, and never shrinks it or changes an entry. */
  function Prepared(vs: seq<PValue>, index: nat): (r: seq<PValue>)
    ensures |r| == if |vs| <= index then index + 1 else |vs|
    ensures r[..|vs|] == vs && forall k :: |vs| <= k < |r| ==> r[k].None?
  {
    if |vs| <= index then vs + Unset(index + 1 - |vs|) else vs
  }

  /** Stores `p` at entry `index` of a prepared vector. */
  function Store(vs: seq<PValue>, index: nat, p: PValue): (r: seq<PValue>)
    ensures |r| == if |vs| <= index then index + 1 else |vs|
    ensures r[index] == p && forall k :: 0 <= k < |r| && k != index ==> r[k] == if k < |vs| then vs[k] else None
  {
    Prepared(vs, index)[index := p]
  }

  lemma StoreClosed(n: nat, vs: seq<PValue>, index: nat, p: PValue)
    requires AllPoint(n, vs) && Points(n, p)
    ensures AllPoint(n, Store(vs, index, p))
  {
  }

  lemma FrameWiden(n: nat, n': nat, f: Frame)
    requires FrameClosed(n, f) && n <= n'
    ensures FrameClosed(n', f)
  {
  }

  /** `StackFrame::get`: indexing past the end of the vector panics. */
  function Get(f: Frame, l: Local): (r: Result<PValue, Error>)
    ensures r.Err? <==> l.index >= |match l case Name(_) => f.names case Agent(_) => f.agents case Slot(_) => f.slots|
    ensures r.Ok? ==> r.value == (match l case Name(_) => f.names case Agent(_) => f.agents case Slot(_) => f.slots)[l.index]
  {
    var vs := match l case Name(_) => f.names case Agent(_) => f.agents case Slot(_) => f.slots;
    if l.index < |vs| then Ok(vs[l.index]) else Err(Panic(IndexOutOfBounds))
  }

  // ---------------------------------------------------------------------------
  // `StackFrame::execute`

  /** What a body may point at: the heap, its frame and the two interacting agents. */
  predicate Scoped(m: Machine, f: Frame, lhs: PValue, rhs: PValue)
  {
    Closed(m) && FrameClosed(|m.heap|, f) && Points(|m.heap|, lhs) && Points(|m.heap|, rhs)
  }

  /** An execution step kept the heap closed and only added cells. */
  predicate Grown(m: Machine, r: (Machine, Frame))
  {
    Closed(r.0) && FrameClosed(|r.0.heap|, r.1) && |m.heap| <= |r.0.heap|
  }

  /** `SlotFromLeft` / `SlotFromRight`: entry `index` of the slots takes slot `slot`
      of the argument agent; it fails when the argument is unset or has no such
      slot. */
  function ArgumentSlot(m: Machine, f: Frame, side: PValue, left: bool, index: nat, slot: nat)
    : (r: Result<(Machine, Frame), Error>)
    requires Closed(m) && FrameClosed(|m.heap|, f) && Points(|m.heap|, side)
    ensures r.Ok? <==> side.Some? && SlotOf(m.heap[side.value], slot).Ok? && SlotOf(m.heap[side.value], slot).value.Some?
    ensures side.None? ==> r == Err(ArgumentNone(left))
    ensures r.Ok? ==> r.value.0 == m && r.value.1 == f.(slots := r.value.1.slots)
    ensures r.Ok? ==> var c := m.heap[side.value];
      r.value.1.slots == Store(f.slots, index, c.slots[slot - 1])
    ensures r.Ok? ==> Grown(m, r.value)
  {
    if side.None? then Err(ArgumentNone(left))
    else
      var c := m.heap[side.value];
      match SlotOf(c, slot)
      case Err(e) => Err(e)
      case Ok(None) =>
        (match Print(m, c, 3)
         case Err(e) => Err(e)
         case Ok(s) => Err(SlotNotFound(slot, s)))
      case Ok(Some(p)) =>
        StoreClosed(|m.heap|, f.slots, index, p);
        Ok((m, f.(slots := Store(f.slots, index, p))))
  }

  /** One initializer: a fresh name, a fresh agent (its id must be in the table),
      or an argument slot. */
  function ExecInit(m: Machine, f: Frame, lhs: PValue, rhs: PValue, init: Initializer)
    : (r: Result<(Machine, Frame), Error>)
    requires Scoped(m, f, lhs, rhs)
    ensures r.Ok? ==> Grown(m, r.value)
  {
    match init
    case NameInit(k) =>
      var c := NewNameCell(m);
      FrameWiden(|m.heap|, |c.0.heap|, f);
      StoreClosed(|c.0.heap|, f.names, k, c.1);
      Ok((c.0, f.(names := Store(f.names, k, c.1))))
    case AgentInit(k, id) =>
      if id < |m.agents| then
        var c := NewAgentCell(m, id);
        FrameWiden(|m.heap|, |c.0.heap|, f);
        StoreClosed(|c.0.heap|, f.agents, k, c.1);
        Ok((c.0, f.(agents := Store(f.agents, k, c.1))))
      else Err(Panic(IndexOutOfBounds))
    case SlotFromLeft(k, slot) => ArgumentSlot(m, f, lhs, true, k, slot)
    case SlotFromRight(k, slot) => ArgumentSlot(m, f, rhs, false, k, slot)
  }

  /** The initializers in order, stopping at the first error. */
  function ExecInits(m: Machine, f: Frame, lhs: PValue, rhs: PValue, inits: seq<Initializer>)
    : (r: Result<(Machine, Frame), Error>)
    requires Scoped(m, f, lhs, rhs)
    ensures r.Ok? ==> Grown(m, r.value)
  {
    if |inits| == 0 then Ok((m, f))
    else
      match ExecInits(m, f, lhs, rhs, inits[..|inits| - 1])
      case Err(e) => Err(e)
      case Ok(x) => ExecInit(x.0, x.1, lhs, rhs, inits[|inits| - 1])
  }

  /** `SetSlot`: slot `slot` of the target agent now holds the value; it fails when
      the target or the value is unset or the target has no such slot. */
  function SetSlot(m: Machine, f: Frame, target: Local, slot: nat, value: Local): (r: Result<Machine, Error>)
    requires Closed(m) && FrameClosed(|m.heap|, f)
    ensures r.Ok? <==> && Get(f, target).Ok? && Get(f, target).value.Some?
                       && SlotOf(m.heap[Get(f, target).value.value], slot).Ok?
                       && SlotOf(m.heap[Get(f, target).value.value], slot).value.Some?
                       && Get(f, value).Ok? && Get(f, value).value.Some?
    ensures Get(f, target) == Ok(None) ==> r == Err(LocalNone(target))
    ensures && Get(f, target).Ok? && Get(f, target).value.Some?
            && SlotOf(m.heap[Get(f, target).value.value], slot).Ok?
            && SlotOf(m.heap[Get(f, target).value.value], slot).value.Some?
            && Get(f, value) == Ok(None)
            ==> r == Err(LocalNone(value))
    ensures r.Ok? ==> var t := Get(f, target).value.value; var c := m.heap[t];
      r.value == m.(heap := m.heap[t := c.(slots := c.slots[slot - 1 := Get(f, value).value])])
    ensures r.Ok? ==> Closed(r.value) && |r.value.heap| == |m.heap|
  {
    match Get(f, target)
    case Err(e) => Err(e)
    case Ok(None) => Err(LocalNone(target))
    case Ok(Some(t)) =>
      var c := m.heap[t];
      match SlotOf(c, slot)
      case Err(e) => Err(e)
      case Ok(None) =>
        (match Print(m, c, 3)
         case Err(e) => Err(e)
         case Ok(s) => Err(SlotNotFound(slot, s)))
      case Ok(Some(_)) =>
        match Get(f, value)
        case Err(e) => Err(e)
        case Ok(None) => Err(LocalNone(value))
        case Ok(Some(v)) =>
          var c' := c.(slots := c.slots[slot - 1 := Some(v)]);
          assert ValueClosed(m.agents, |m.heap|, c');
          ClosedUpdate(m, t, c');
          Ok(m.(heap := m.heap[t := c']))
  }

  /** `PushEquation`: pushes the two locals; it fails when either is unset. */
  function PushLocals(m: Machine, f: Frame, left: Local, right: Local): (r: Result<Machine, Error>)
    requires Closed(m) && FrameClosed(|m.heap|, f)
    ensures r.Ok? <==> Get(f, left).Ok? && Get(f, left).value.Some? && Get(f, right).Ok? && Get(f, right).value.Some?
    ensures Get(f, left) == Ok(None) ==> r == Err(LocalNone(left))
    ensures Get(f, left).Ok? && Get(f, left).value.Some? && Get(f, right) == Ok(None) ==> r == Err(LocalNone(right))
    ensures r.Ok? ==> r.value == Push(m, Get(f, left).value, Get(f, right).value)
    ensures r.Ok? ==> Closed(r.value) && r.value.heap == m.heap
  {
    match Get(f, left)
    case Err(e) => Err(e)
    case Ok(None) => Err(LocalNone(left))
    case Ok(Some(l)) =>
      match Get(f, right)
      case Err(e) => Err(e)
      case Ok(None) => Err(LocalNone(right))
      case Ok(Some(r)) =>
        PushClosed(m, Some(l), Some(r));
        Ok(Push(m, Some(l), Some(r)))
  }

  function ExecInstr(m: Machine, f: Frame, instr: Instruction): (r: Result<Machine, Error>)
    requires Closed(m) && FrameClosed(|m.heap|, f)
    ensures r.Ok? ==> Closed(r.value) && |r.value.heap| == |m.heap|
  {
    match instr
    case SetSlot(t, slot, v) => SetSlot(m, f, t, slot, v)
    case PushEquation(l, r, _) => PushLocals(m, f, l, r)
  }

  /** The instructions in order, stopping at the first error. */
  function ExecInstrs(m: Machine, f: Frame, instrs: seq<Instruction>): (r: Result<Machine, Error>)
    requires Closed(m) && FrameClosed(|m.heap|, f)
    ensures r.Ok? ==> Closed(r.value) && |r.value.heap| == |m.heap|
  {
    if |instrs| == 0 then Ok(m)
    else
      match ExecInstrs(m, f, instrs[..|instrs| - 1])
      case Err(e) => Err(e)
      case Ok(m') => ExecInstr(m', f, instrs[|instrs| - 1])
  }

  /** `StackFrame::execute`: the initializers, then the instructions. */
  function Execute(m: Machine, f: Frame, inits: seq<Initializer>, instrs: seq<Instruction>,
                   lhs: PValue, rhs: PValue): (r: Result<(Machine, Frame), Error>)
    requires Scoped(m, f, lhs, rhs)
    ensures r.Ok? ==> Grown(m, r.value)
  {
    match ExecInits(m, f, lhs, rhs, inits)
    case Err(e) => Err(e)
    case Ok(x) =>
      match ExecInstrs(x.0, x.1, instrs)
      case Err(e) => Err(e)
      case Ok(m') => Ok((m', x.1))
  }

  // ---------------------------------------------------------------------------
  // `VM::run`

  /** The rule map `VM::new` builds, keyed by the two agent ids. */
  type RuleMap = map<(nat, nat), Rule>

  /** Variable binding: a name on the left becomes a reference to the right side,
      otherwise a name on the right becomes a reference to the left side. */
  function Bind(m: Machine, l: nat, r: nat): (m': Machine)
    requires Closed(m) && l < |m.heap| && r < |m.heap|
    ensures Closed(m') && m' == m.(heap := m'.heap)
  {
    if m.heap[l].NameV? then
      ClosedUpdate(m, l, RefV(Some(r)));
      m.(heap := m.heap[l := RefV(Some(r))])
    else if m.heap[r].NameV? then
      ClosedUpdate(m, r, RefV(Some(l)));
      m.(heap := m.heap[r := RefV(Some(l))])
    else m
  }

  /** The `map_err` around a rule body: a `bail!` error gains the rule's index, while a
      panic unwinds past it unchanged. */
  function InRuleContext(index: nat, e: Error): Error
  {
    if e.Panic? then e else InRule(index, e)
  }

  /** The `map_err` around `main`, likewise. */
  function InMainContext(e: Error): Error
  {
    if e.Panic? then e else InMain(e)
  }

  /** The key an agent pair is looked up under: the smaller id first. */
  function OrderedPair(m: Machine, l: nat, r: nat): (p: (nat, nat))
    requires l < |m.heap| && r < |m.heap| && m.heap[l].AgentV? && m.heap[r].AgentV?
    ensures p == (l, r) || p == (r, l)
    ensures m.heap[p.0].id <= m.heap[p.1].id
  {
    if m.heap[l].id > m.heap[r].id then (r, l) else (l, r)
  }

  /** Interaction: the rule for the ordered pair runs with the smaller-id agent as
      the left argument; with no rule for the pair, both are reported at depth 3. */
  function Interact(m: Machine, rules: RuleMap, l: nat, r: nat): (res: Result<Machine, Error>)
    requires Closed(m) && l < |m.heap| && r < |m.heap| && m.heap[l].AgentV? && m.heap[r].AgentV?
    ensures res.Ok? ==> Closed(res.value) && |m.heap| <= |res.value.heap|
  {
    var p := OrderedPair(m, l, r);
    var key := (m.heap[p.0].id, m.heap[p.1].id);
    if key in rules then
      var rule := rules[key];
      match Execute(m, EmptyFrame, rule.initializers, rule.instructions, Some(p.0), Some(p.1))
      case Ok(x) => Ok(x.0)
      case Err(e) => Err(InRuleContext(rule.index, e))
    else
      match Print(m, m.heap[p.0], 3)
      case Err(e) => Err(e)
      case Ok(a) =>
        match Print(m, m.heap[p.1], 3)
        case Err(e) => Err(e)
        case Ok(b) => Err(NoRule(a, b))
  }

  /** One popped equation `l = r`: indirection through a reference on the left, then
      on the right; interaction of two agents; otherwise binding. */
  function Reduce(m: Machine, rules: RuleMap, l: nat, r: nat): (res: Result<Machine, Error>)
    requires Closed(m) && l < |m.heap| && r < |m.heap|
    ensures res.Ok? ==> Closed(res.value) && |m.heap| <= |res.value.heap|
  {
    if m.heap[l].RefV? then
      PushClosed(m, m.heap[l].target, Some(r));
      Ok(Push(m, m.heap[l].target, Some(r)))
    else if m.heap[r].RefV? then
      PushClosed(m, Some(l), m.heap[r].target);
      Ok(Push(m, Some(l), m.heap[r].target))
    else if m.heap[l].AgentV? && m.heap[r].AgentV? then Interact(m, rules, l, r)
    else Ok(Bind(m, l, r))
  }

  /** One iteration of the loop of `run`: pop, refuse an unset side, reduce. */
  function Step(m: Machine, rules: RuleMap): (res: Result<Machine, Error>)
    requires Closed(m) && |m.stack| > 0
    ensures res.Ok? ==> Closed(res.value) && |m.heap| <= |res.value.heap|
  {
    PopClosed(m);
    var top := Pop(m).value;
    if top.0.0.None? then Err(SideNone(true))
    else if top.0.1.None? then Err(SideNone(false))
    else Reduce(top.1, rules, top.0.0.value, top.0.1.value)
  }

  /** The loop of `run` with at most `fuel` iterations: the final machine, whose
      stack is empty, and the number of reductions. */
  function Loop(m: Machine, rules: RuleMap, fuel: nat): (res: Result<(Machine, nat), Error>)
    requires Closed(m)
    ensures res.Ok? ==> Closed(res.value.0) && |res.value.0.stack| == 0 && |m.heap| <= |res.value.0.heap|
    ensures res.Ok? ==> res.value.1 <= fuel
    decreases fuel, 1
  {
    if |m.stack| == 0 then Ok((m, 0))
    else if fuel == 0 then Err(OutOfFuel)
    else LoopAfter(Step(m, rules), rules, fuel)
  }

  /** The loop after one step taken out of `fuel` iterations: the step's error, or
      the loop from the step's machine with one more reduction counted. */
  function LoopAfter(s: Result<Machine, Error>, rules: RuleMap, fuel: nat): (res: Result<(Machine, nat), Error>)
    requires fuel > 0 && (s.Ok? ==> Closed(s.value))
    ensures res.Ok? ==> s.Ok? && Closed(res.value.0) && |res.value.0.stack| == 0
    ensures res.Ok? ==> |s.value.heap| <= |res.value.0.heap| && 0 < res.value.1 <= fuel
    decreases fuel, 0
  {
    match s
    case Err(e) => Err(e)
    case Ok(m') =>
      match Loop(m', rules, fuel - 1)
      case Err(e) => Err(e)
      case Ok(x) => Ok((x.0, x.1 + 1))
  }

  /** `VM::run`: `main` in an empty frame with no arguments, the loop, and then the
      output local printed at depth 1000, with the number of reductions. */
  function Run(m: Machine, rules: RuleMap, main: Main, fuel: nat): (res: Result<(string, nat), Error>)
    requires Closed(m)
  {
    match Execute(m, EmptyFrame, main.initializers, main.instructions, None, None)
    case Err(e) => Err(InMainContext(e))
    case Ok(x) =>
      match Loop(x.0, rules, fuel)
      case Err(e) => Err(e)
      case Ok(y) =>
        FrameWiden(|x.0.heap|, |y.0.heap|, x.1);
        match Get(x.1, main.output)
        case Err(e) => Err(e)
        case Ok(None) => Err(OutputNone)
        case Ok(Some(p)) =>
          match Print(y.0, y.0.heap[p], 1000)
          case Err(e) => Err(e)
          case Ok(s) => Ok((s, y.1))
  }

  // ---------------------------------------------------------------------------
  // `VM::new`

  /** The list `VM::new` moves the rules out of: every rule still there. */
  function Unmoved(rules: seq<Rule>): (r: seq<Option<Rule>>)
    ensures |r| == |rules| && forall k :: 0 <= k < |rules| ==> r[k] == Some(rules[k])
  {
    seq(|rules|, k requires 0 <= k < |rules| => Some(rules[k]))
  }

  /** The rule map of `VM::new`: entry `(a, b, i)` moves rule `i` out of the list
      under key `(a, b)`, a later entry for a key replacing an earlier one; an index
      past the list, or one already moved, panics. */
  function RuleMapOf(rules: seq<Rule>, entries: seq<(nat, nat, nat)>): (r: Result<(RuleMap, seq<Option<Rule>>), Error>)
    ensures r.Ok? ==> |r.value.1| == |rules|
    ensures r.Ok? ==> forall k :: k in r.value.0 <==> exists j :: 0 <= j < |entries| && (entries[j].0, entries[j].1) == k
  {
    if |entries| == 0 then Ok((map[], Unmoved(rules)))
    else
      match RuleMapOf(rules, entries[..|entries| - 1])
      case Err(e) => Err(e)
      case Ok(x) =>
        var e := entries[|entries| - 1];
        if e.2 >= |x.1| then Err(Panic(IndexOutOfBounds))
        else if x.1[e.2].None? then Err(Panic(UnwrapNone))
        else
          assert forall j :: 0 <= j < |entries| - 1 ==> entries[..|entries| - 1][j] == entries[j];
          Ok((x.0[(e.0, e.1) := x.1[e.2].value], x.1[e.2 := None]))
  }
}
