/** The register file and the fetch step (src/cpu.rs). The source's `execute` fetches and
    decodes one instruction and advances the program counter; it dispatches on nothing. */
module Processor {
  import opened Common
  import opened Memory
  import opened Instructions
  import opened MachineState

  class Cpu {
    const registers: array<u8>
    var pc: nat
    var i: u16
    var stack: seq<u16>

    ghost predicate Valid()
    {
      registers.Length == 16
    }

    /** `Cpu::new`: sixteen zero registers, `pc` and `i` at 0 and an empty stack. The capacity
        only reserves space and is not part of the observable state. */
    constructor New(stackCapacity: nat)
      ensures Valid() && fresh(registers)
      ensures registers[..] == seq(16, _ => 0 as u8)
      ensures pc == 0 && i == 0 && stack == []
    {
      registers := new u8[16](_ => 0 as u8);
      pc := 0;
      i := 0;
      stack := [];
      new;
      assert registers[..] == seq(16, _ => 0 as u8);
    }

    /** `Cpu::default`, which is `Cpu::new(16)`. */
    static method Default() returns (cpu: Cpu)
      ensures fresh(cpu) && fresh(cpu.registers) && cpu.Valid()
      ensures cpu.registers[..] == seq(16, _ => 0 as u8)
      ensures cpu.pc == 0 && cpu.i == 0 && cpu.stack == []
    {
      cpu := new Cpu.New(16);
    }

    /** `execute`: reads the bytes at `pc` and `pc + 1`, decodes them and advances `pc` by two.
        It fails, with `pc` unchanged, exactly when one of the two reads is outside memory.
        Nothing but `pc` changes: not the registers, `i`, the stack, nor anything in the state.
        `fetched` is the decoded instruction, which the source computes and does not use. */
    method Execute(state: EmulatorState) returns (r: Outcome, ghost fetched: Option<Instruction>)
      requires Valid() && state.Valid()
      modifies this
      ensures r.Pass? <==> old(pc) + 1 < RAM_SIZE
      ensures r.Fail? ==> r.error == OutOfBounds && pc == old(pc) && fetched == None
      ensures r.Pass? ==> pc == old(pc) + 2
      ensures r.Pass? ==> fetched == Some(Parse(state.ram.mem[old(pc)], state.ram.mem[old(pc) + 1]))
      ensures i == old(i) && stack == old(stack)
      ensures unchanged(registers) && unchanged(state) && unchanged(state.ram.mem)
    {
      var first := state.ram.Get(pc);
      if first.Err? {
        return Fail(first.error), None;
      }
      var second := state.ram.Get(pc + 1);
      if second.Err? {
        return Fail(second.error), None;
      }
      fetched := Some(Parse(first.value, second.value));
      pc := pc + 2;
      r := Pass;
    }
  }
}
