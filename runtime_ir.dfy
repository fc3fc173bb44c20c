/** The intermediate representation that src/runtime/builder.rs produces and
    src/runtime/vm.rs interprets.  Its declarations (`runtime::ir`) are not part of
    this model; the shapes here are the ones the two files construct and match on:
    initializers that create names and agents or read an argument slot, instructions
    that store into a slot or push an equation, rules, and named functions with their
    output locals. */
module RuntimeIr {

  import opened Locals

  datatype Initializer =
    | NameInit(index: nat)
    | AgentInit(index: nat, id: nat)
    | SlotFromLeft(index: nat, slot: nat)
    | SlotFromRight(index: nat, slot: nat)

  datatype Instruction =
    | SetSlot(target: Local, slot: nat, value: Local)
    | PushEquation(left: Local, right: Local, description: string)

  datatype Rule = Rule(index: nat, description: string,
                       initializers: seq<Initializer>, instructions: seq<Instruction>)

  datatype Function = Function(name: string, initializers: seq<Initializer>,
                               instructions: seq<Instruction>, outputs: seq<Local>)

  /** `rule_map` holds `(left agent, right agent, rule index)`. */
  datatype Program = Program(agents: seq<AgentMeta>, rules: seq<Rule>,
                             ruleMap: seq<(nat, nat, nat)>, functions: seq<Function>)

  /** The entry point the VM runs: a body and the one local printed at the end.
      src/runtime/vm.rs reads `program.main` with a single `output`, while
      src/runtime/builder.rs emits a list of functions with several outputs. */
  datatype Main = Main(initializers: seq<Initializer>, instructions: seq<Instruction>, output: Local)

  /** The program as src/runtime/vm.rs reads it. */
  datatype VmProgram = VmProgram(agents: seq<AgentMeta>, rules: seq<Rule>,
                                 ruleMap: seq<(nat, nat, nat)>, main: Main)

  /** The local an initializer declares. */
  function InitLocal(i: Initializer): Local
  {
    match i
    case NameInit(k) => Name(k)
    case AgentInit(k, _) => Agent(k)
    case SlotFromLeft(k, _) => Slot(k)
    case SlotFromRight(k, _) => Slot(k)
  }
}
