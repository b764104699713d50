/** The shared machine state a CPU step works on (`EmulatorState` of src/emulator.rs and
    `KeyState` of src/cpu.rs). It is a module of its own because in the source the CPU and the
    emulator refer to each other, and Dafny modules may not. */
module MachineState {
  import opened Common
  import opened Memory
  import opened Timers
  import opened Display

  /** `[bool; 16]`: one flag per hexadecimal key. */
  type KeyState = k: seq<bool> | |k| == 16 witness seq(16, _ => false)

  class EmulatorState {
    const ram: Ram
    const soundTimer: Timer
    const delayTimer: Timer
    var frameBuffer: FrameBuffer
    var keyState: KeyState

    /** The memory is 4096 bytes and the two timers are two objects. */
    ghost predicate Valid()
    {
      ram.Valid() && soundTimer != delayTimer
    }

    /** The struct expression that builds the state from its parts. */
    constructor (ram: Ram, soundTimer: Timer, delayTimer: Timer, frameBuffer: FrameBuffer, keyState: KeyState)
      requires ram.Valid() && soundTimer != delayTimer
      ensures Valid()
      ensures this.ram == ram && this.soundTimer == soundTimer && this.delayTimer == delayTimer
      ensures this.frameBuffer == frameBuffer && this.keyState == keyState
    {
      this.ram := ram;
      this.soundTimer := soundTimer;
      this.delayTimer := delayTimer;
      this.frameBuffer := frameBuffer;
      this.keyState := keyState;
    }
  }
}
