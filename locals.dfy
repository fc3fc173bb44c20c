/** The vocabulary both intermediate representations share (src/backend/mod.rs, and
    the `runtime::ir` module the runtime builder and the VM are written against):
    local variables of a rule or function body, and the agent table's entries.
    `AgentId` is a plain `nat`: the Rust newtype derives its order from the wrapped
    `usize`, which is exactly the order of `nat`. */
module Locals {

  /** A local variable of a body: a fresh name, an agent built by the body, or an
      argument taken from a slot of one of the two interacting agents. */
  datatype Local = Name(index: nat) | Agent(index: nat) | Slot(index: nat)

  datatype AgentMeta = AgentMeta(name: string, arity: nat)
}
