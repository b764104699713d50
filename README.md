# CHIP-8 emulator core, modelled in Dafny

This project models the state-handling core of a small CHIP-8 emulator written in Rust: its
bounds-checked 4096-byte RAM, the decoder that splits a 16-bit big-endian word into instruction
fields, the saturating 8-bit timers, the CPU's fetch step, and the emulator that loads bytes into
memory and runs one step at a time (CPU fetch, one frame to the renderer, timers on a schedule).

One module per source file:

- `common.dfy` (`Common`): `u8`/`u16` as bit-vectors, `u32`, and the failure values. Rust's
  `anyhow` errors become `Outcome`/`Result` carrying an error kind: `OutOfBounds` or `RenderFailed`.
- `ram.dfy` (`Memory`): `RAM_SIZE`, `IsValidAddress`, and class `Ram` over a fixed `array<u8>`.
  `Set` writes one cell in place. `Get` and `GetSlice` only read.
- `instruction.dfy` (`Instructions`): `Parse`, written with the source's own
  shifts and masks on bit-vectors, plus lemmas that read its fields as numbers.
- `timer.dfy` (`Timers`): class `Timer` with `Get`, `Set`, `Decrement`. `DecrementN` is the value
  after k decrements.
- `display.dfy` (`Display`): the 64×32 `FrameBuffer` shape and a `Renderer` whose `Draw` may fail.
- `state.dfy` (`MachineState`): `EmulatorState` and `KeyState`. In Rust, `cpu.rs` and
  `emulator.rs` refer to each other. Dafny modules cannot, so the shared state has its own module.
- `cpu.dfy` (`Processor`): class `Cpu` with its register array, `New`, `Default` and `Execute`.
- `emulator.dfy` (`Emulation`): class `Emulator` with `New`, `Load`, `LoadFont`, `LoadRom`, `Step`.
  It also holds the pure specifications these are proved against:
  - `LoadSpec`: byte-by-byte loading that stops at the first refused write;
  - `Tick` and `TickRun`: the timer schedule;
  - `TimerRun`: one timer over several steps.

The model follows the code, including where it departs from the usual CHIP-8 description:

- `execute` only fetches, decodes and advances `pc`. No instruction is dispatched or executed, so
  the model has no opcode semantics.
- `get_slice` tests the end address `address + length` with the same strict `< 4096` check as the
  start address. So a slice that ends exactly at the top of memory is refused. The source's own
  test (src/ram.rs:81) expects this.
- `Cpu::new` starts with `pc = 0`. Only `load_rom` moves `pc` to 0x200.
- The timers are decremented once every `timer_freq = cycles / 60` successful steps. A comment in
  the source says "every 8th call", but the code does not do that. When `cycles < 60`,
  `timer_freq` is 0 and the timers are decremented on every successful step. The lemmas state the
  period as `max(timer_freq, 1)`.
- The `u32` tick counter cannot overflow: `Emulator.Valid()` keeps `ticks < max(timer_freq, 1)`.
- A failed render comes after `pc` has advanced and before the counter moves. `Step` states both.

The model includes the unit tests of `ram.rs`, `timer.rs` and `instruction.rs`. They are the
client methods `Memory.SliceChecks`, `Timers.DecrementsFromTen` and `Timers.StaysAtZero`, and the
lemmas `Memory.ValidAddressCases`, `Memory.SliceCases` and `Instructions.ParseExample`.

## Model

| member | source | states |
|---|---|---|
| `Memory.IsValidAddress` | src/ram.rs:46-53 | an address passes exactly when it is below 4096; otherwise the error is out-of-bounds |
| `Memory.CheckSlice` | src/ram.rs:33-35 | the slice checks pass exactly when `address < 4096` and `address + length < 4096` (strict, so a slice ending at the top is refused) |
| `Memory.ValidAddressCases` | src/ram.rs:59-69 | 0 and 4095 are valid addresses; 4096 and 4106 are not |
| `Memory.SliceCases` | src/ram.rs:71-83 | slices (0, 4095) and (1024, 2048) pass; (0, 4096) and (2048, 4101) fail |
| `Memory.Ram.Default` | src/ram.rs:40-44 | a fresh memory of exactly 4096 zero bytes |
| `Memory.Ram.Set` | src/ram.rs:16-20 | fails exactly when the address is at least 4096, and then memory is unchanged; otherwise that one cell holds the value and every other cell is unchanged |
| `Memory.Ram.Get` | src/ram.rs:27-30 | fails exactly when the address is at least 4096; otherwise returns the byte at that address; changes nothing |
| `Memory.Ram.GetSlice` | src/ram.rs:33-37 | runs the checks of `CheckSlice` and succeeds exactly when they pass (`address < 4096` and `address + length < 4096`), and then returns `mem[address .. address+length]` |
| `Instructions.Parse` | src/instruction.rs:19-28 | total; `opcode`, `x`, `y`, `n` are below 16 and `nnn` below 4096; `opcode:x` rebuild the first byte and `y:n` the second; `nn` is the second byte; `nnn` is `x` followed by `nn` |
| `Instructions.ParseAsNumbers` | src/instruction.rs:21-26 | as numbers: `opcode*16 + x == first`, `y*16 + n == second`, `nn == second`, `nnn == x*256 + nn == (first mod 16)*256 + second` |
| `Instructions.ParseInjective` | src/instruction.rs:19-28 | two byte pairs that decode to the same instruction are equal |
| `Instructions.ParseExample` | src/instruction.rs:36-48 | `Parse(0xF0, 0xF0)` is opcode 0xF, x 0, y 0xF, n 0, nn 0xF0, nnn 0x0F0 |
| `Timers.SaturatingDec` | src/timer.rs:18-22 | one decrement gives `max(v - 1, 0)`; it never wraps |
| `Timers.DecrementNSaturates` | src/timer.rs:18-37 | k decrements from v leave `max(v - k, 0)` (so 10 with four decrements gives 6) |
| `Timers.ZeroStaysZero` | src/timer.rs:39-46 | once at 0, any number of decrements stays 0 |
| `Timers.DecrementAfter` | src/timer.rs:18-22 | k+1 decrements equal k decrements followed by one more |
| `Timers.Timer.Default` | src/timer.rs:1-2 | a default timer reads 0 |
| `Timers.Timer.Get` | src/timer.rs:9-11 | returns the current value and changes nothing |
| `Timers.Timer.Set` | src/timer.rs:14-16 | afterwards the value is the one set, so a following `Get` returns it |
| `Timers.Timer.Decrement` | src/timer.rs:20-22 | the new value is `max(old - 1, 0)` |
| `Display.BlankFrame` | src/emulator.rs:41 | the initial 64×32 frame has every pixel off |
| `Display.Renderer.Draw` | src/display.rs:8-10 | takes exactly one frame-buffer snapshot per call; may fail, with a render error |
| `MachineState.EmulatorState.constructor` | src/emulator.rs:13-19 | given a 4096-byte memory and two distinct timers, the state is well formed and made of exactly the memory, timers, frame buffer and key state it is given |
| `Processor.Cpu.New` | src/cpu.rs:20-27 | sixteen zero registers, `pc == 0`, `i == 0`, an empty stack |
| `Processor.Cpu.Default` | src/cpu.rs:39-43 | the same initial state as `new(16)` |
| `Processor.Cpu.Execute` | src/cpu.rs:30-36 | fails exactly when `pc + 1 >= 4096`, and then `pc` is unchanged; otherwise `pc` grows by 2 and the fetched instruction is `Parse(ram[pc], ram[pc+1])`; registers, `i`, stack and the whole emulator state are unchanged |
| `Emulation.LoadSpecMeaning` | src/emulator.rs:65-70 | loading succeeds exactly when the data is empty or `offset + len <= 4096`; the cells from `offset` hold the bytes written (all of them, or on failure the prefix below 4096) and every other cell is unchanged |
| `Emulation.TickKeepsBound` | src/emulator.rs:78-83 | one counter update keeps `ticks < max(timer_freq, 1)` |
| `Emulation.TickRunCounts` | src/emulator.rs:78-83 | over k successful steps, `decrements * max(timer_freq, 1) + ticks' == ticks + k` with `ticks' < max(timer_freq, 1)` |
| `Emulation.TimerFreqStepsDecrementOnce` | src/emulator.rs:78-83 | from a zero counter, fewer than `timer_freq` steps never decrement the timers; exactly `timer_freq` steps decrement them once and reset the counter to 0 |
| `Emulation.TimerRunFollowsSchedule` | src/emulator.rs:78-83 | over k successful steps a timer loses exactly the schedule's number of decrements, saturating at 0 |
| `Emulation.Emulator.New` | src/emulator.rs:35-49 | zero memory, both timers 0, blank frame, no key pressed, default CPU, `ticks == 0`, `timer_freq == cycles / 60` |
| `Emulation.Emulator.Load` | src/emulator.rs:65-70 | the new memory and the outcome are those of `LoadSpec`: success exactly when the data is empty or fits; the written prefix is in place and all other cells are unchanged, including on failure |
| `Emulation.Emulator.LoadFont` | src/emulator.rs:52-55 | always succeeds; memory 0x50..0x9F holds the 80 font bytes and all other cells are unchanged |
| `Emulation.Emulator.LoadRom` | src/emulator.rs:58-62 | loads at 0x200 as `Load` does; succeeds exactly when `0x200 + len <= 4096`; then memory from 0x200 holds the ROM and `pc == 0x200`, otherwise `pc` is unchanged |
| `Emulation.Emulator.Step` | src/emulator.rs:75-85 | a failed fetch: out-of-bounds exactly when `pc + 1 >= 4096`, no render, nothing else changes; otherwise `pc` grows by 2 and the current frame is handed to the renderer once; a failed render leaves counter and timers unchanged; a full success applies `Tick`, decrementing both timers once when the counter reaches `timer_freq`; keeps `ticks < max(timer_freq, 1)` |

## Left out

- Opcode dispatch and execution (ALU, flags, jumps, calls, drawing, keys, BCD, random and the rest). The source's `execute` ends after the `pc` advance and implements none of them.
- src/bin/main.rs: SDL set-up, the event loop, the keyboard-to-keypad mapping and the sleep are I/O. It also calls `Emulator::new` with one argument, which does not match the two-argument `new` in src/emulator.rs.
- `SDLRenderer` and everything about what is displayed. `Display.Renderer.Draw` is an abstract call that may fail and keeps a ghost record of the frames handed to it.
- Display.Renderer.Draw: its success or failure is nondeterministic, so no contract says when it fails.
- Error message texts: every failure is reduced to its kind.
- `usize` overflow of `address + length` and `offset + i`: addresses are `nat`.
- The stack's initial capacity in `Cpu::new`: it cannot be observed.
- Aliasing of the emulator's parts. The state's memory, timers and the CPU are `const` references to distinct objects, where Rust holds them by value. The source never replaces them.
- The key state is only stored. The core never reads or writes it outside construction.
