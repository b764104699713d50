/** The emulator: loading bytes into memory, and one step of CPU, renderer and timers
    (src/emulator.rs). */
module Emulation {
  import opened Common
  import opened Memory
  import opened Timers
  import opened Display
  import opened MachineState
  import opened Processor

  const FONT_OFFSET: nat := 0x50
  const ROM_OFFSET: nat := 0x200

  /** `[u8; 80]`: sixteen glyphs of five bytes. */
  type Font = f: seq<u8> | |f| == 80 witness seq(80, _ => 0 as u8)

  // ---------------------------------------------------------------------------------------
  // Loading

  datatype LoadResult = LoadResult(mem: seq<u8>, outcome: Outcome)

  /** What `load` does to a memory: write the bytes one by one from `offset` on, stopping at
      the first write that `set` refuses. */
  function LoadSpec(mem: seq<u8>, offset: nat, data: seq<u8>): LoadResult
    requires |mem| == RAM_SIZE
    decreases |data|
  {
    if data == [] then LoadResult(mem, Pass)
    else if IsValidAddress(offset).Fail? then LoadResult(mem, IsValidAddress(offset))
    else LoadSpec(mem[offset := data[0]], offset + 1, data[1..])
  }

  /** How many bytes `load` writes: all of them when they fit, otherwise the part that lies
      below the top of memory. */
  function Written(offset: nat, length: nat): nat
  {
    if offset + length <= RAM_SIZE then length
    else if offset < RAM_SIZE then RAM_SIZE - offset
    else 0
  }

  /** `load` succeeds exactly when `data` is empty or fits below the top of memory. The cells
      from `offset` on hold the bytes it wrote (all of `data`, or on failure the prefix that
      fits) and every other cell is as it was. */
  lemma {:induction false} LoadSpecMeaning(mem: seq<u8>, offset: nat, data: seq<u8>)
    requires |mem| == RAM_SIZE
    ensures var r := LoadSpec(mem, offset, data);
      && |r.mem| == RAM_SIZE
      && (r.outcome.Pass? <==> |data| == 0 || offset + |data| <= RAM_SIZE)
      && (r.outcome.Fail? ==> r.outcome.error == OutOfBounds)
      && forall a | 0 <= a < RAM_SIZE ::
           r.mem[a] == if offset <= a < offset + Written(offset, |data|) then data[a - offset] else mem[a]
    decreases |data|
  {
    if data != [] && offset < RAM_SIZE {
      var mem' := mem[offset := data[0]];
      LoadSpecMeaning(mem', offset + 1, data[1..]);
      assert Written(offset + 1, |data| - 1) + 1 == Written(offset, |data|);
      var r := LoadSpec(mem, offset, data);
      assert r == LoadSpec(mem', offset + 1, data[1..]);
      forall a | 0 <= a < RAM_SIZE
        ensures r.mem[a] == if offset <= a < offset + Written(offset, |data|) then data[a - offset] else mem[a]
      {
        if offset + 1 <= a < offset + Written(offset, |data|) {
          assert data[1..][a - (offset + 1)] == data[a - offset];
        }
      }
    }
  }

  // ---------------------------------------------------------------------------------------
  // The timer schedule

  datatype TickResult = TickResult(ticks: nat, fires: bool)

  /** The counter update at the end of a successful `step`: count the step; on reaching
      `timerFreq`, decrement the timers and start again from 0. */
  function Tick(ticks: nat, timerFreq: nat): TickResult
  {
    if ticks + 1 >= timerFreq then TickResult(0, true) else TickResult(ticks + 1, false)
  }

  datatype Schedule = Schedule(ticks: nat, decrements: nat)

  /** The counter after `k` successful steps, and how many times the timers were decremented. */
  function TickRun(ticks: nat, timerFreq: nat, k: nat): Schedule
    decreases k
  {
    if k == 0 then Schedule(ticks, 0)
    else
      var t := Tick(ticks, timerFreq);
      var s := TickRun(t.ticks, timerFreq, k - 1);
      Schedule(s.ticks, s.decrements + if t.fires then 1 else 0)
  }

  /** The counter stays below `max(timerFreq, 1)`. */
  lemma TickKeepsBound(ticks: nat, timerFreq: nat)
    requires ticks < Max(timerFreq, 1)
    ensures Tick(ticks, timerFreq).ticks < Max(timerFreq, 1)
  {
  }

  /** Over `k` successful steps the timers are decremented once per `max(timerFreq, 1)` steps:
      the decrements times the period, plus the final counter, is the starting counter plus `k`. */
  lemma {:induction false} TickRunCounts(ticks: nat, timerFreq: nat, k: nat)
    requires ticks < Max(timerFreq, 1)
    ensures var s := TickRun(ticks, timerFreq, k);
      s.ticks < Max(timerFreq, 1) && s.decrements * Max(timerFreq, 1) + s.ticks == ticks + k
    decreases k
  {
    if k > 0 {
      var t := Tick(ticks, timerFreq);
      TickRunCounts(t.ticks, timerFreq, k - 1);
      var s := TickRun(t.ticks, timerFreq, k - 1);
      if t.fires {
        assert ticks + 1 == Max(timerFreq, 1);
        assert (s.decrements + 1) * Max(timerFreq, 1) == s.decrements * Max(timerFreq, 1) + Max(timerFreq, 1);
      }
    }
  }

  /** From a zero counter, fewer than `timerFreq` successful steps never decrement the timers,
      and exactly `timerFreq` of them decrement them once and bring the counter back to 0. */
  lemma TimerFreqStepsDecrementOnce(timerFreq: nat, k: nat)
    requires 1 <= timerFreq && k <= timerFreq
    ensures TickRun(0, timerFreq, k) == if k < timerFreq then Schedule(k, 0) else Schedule(0, 1)
  {
    TickRunCounts(0, timerFreq, k);
    var s := TickRun(0, timerFreq, k);
    if s.decrements == 1 {
      assert s.ticks + timerFreq == k;
    }
  }

  /** One timer over `k` successful steps: each step updates the counter and, when the counter
      fires, decrements the timer. */
  function TimerRun(ticks: nat, timerFreq: nat, value: u8, k: nat): u8
    decreases k
  {
    if k == 0 then value
    else
      var t := Tick(ticks, timerFreq);
      TimerRun(t.ticks, timerFreq, if t.fires then SaturatingDec(value) else value, k - 1)
  }

  /** Over `k` successful steps a timer is decremented exactly as often as the schedule fires,
      so it ends at `max(value - decrements, 0)`. */
  lemma {:induction false} TimerRunFollowsSchedule(ticks: nat, timerFreq: nat, value: u8, k: nat)
    ensures TimerRun(ticks, timerFreq, value, k) == DecrementN(value, TickRun(ticks, timerFreq, k).decrements)
    ensures TimerRun(ticks, timerFreq, value, k) as int == Max(value as int - TickRun(ticks, timerFreq, k).decrements, 0)
    decreases k
  {
    if k > 0 {
      var t := Tick(ticks, timerFreq);
      var v := if t.fires then SaturatingDec(value) else value;
      TimerRunFollowsSchedule(t.ticks, timerFreq, v, k - 1);
    }
    DecrementNSaturates(value, TickRun(ticks, timerFreq, k).decrements);
  }

  // ---------------------------------------------------------------------------------------
  // The emulator

  class Emulator {
    const state: EmulatorState
    const cpu: Cpu
    const display: Renderer
    /** CPU cycles since the last timer decrement. */
    var ticks: u32
    /** CPU cycles between two timer decrements. */
    const timerFreq: u32

    /** The state is well formed, the registers are not the memory, and the counter is below
        its period. */
    ghost predicate Valid()
      reads this
    {
      state.Valid() && cpu.Valid() && cpu.registers != state.ram.mem &&
      ticks as int < Max(timerFreq as int, 1)
    }

    /** `Emulator::new`: zero memory, timers at 0, a blank frame, no key pressed, a default
        CPU, a zero counter and one timer decrement per `cycles / 60` steps. */
    constructor New(display: Renderer, cycles: u32)
      ensures Valid() && this.display == display
      ensures fresh(state) && fresh(state.ram) && fresh(state.ram.mem)
      ensures fresh(state.soundTimer) && fresh(state.delayTimer) && fresh(cpu) && fresh(cpu.registers)
      ensures state.ram.mem[..] == seq(RAM_SIZE, _ => 0 as u8)
      ensures state.soundTimer.value == 0 && state.delayTimer.value == 0
      ensures state.frameBuffer == BlankFrame() && state.keyState == seq(16, _ => false)
      ensures cpu.registers[..] == seq(16, _ => 0 as u8) && cpu.pc == 0 && cpu.i == 0 && cpu.stack == []
      ensures ticks == 0 && timerFreq == cycles / 60
    {
      var ram := new Ram.Default();
      var delayTimer := new Timer.Default();
      var soundTimer := new Timer.Default();
      state := new EmulatorState(ram, soundTimer, delayTimer, BlankFrame(), seq(16, _ => false));
      var defaultCpu := Cpu.Default();
      cpu := defaultCpu;
      this.display := display;
      ticks := 0;
      timerFreq := cycles / 60;
    }

    /** `load`: copies `data` into memory from `offset` on, byte by byte through `set`, and
        stops with an error at the first byte that falls outside memory. */
    method Load(offset: nat, data: seq<u8>) returns (r: Outcome)
      requires Valid()
      modifies state.ram.mem
      ensures Valid()
      ensures LoadSpec(old(state.ram.mem[..]), offset, data) == LoadResult(state.ram.mem[..], r)
      ensures r.Pass? <==> |data| == 0 || offset + |data| <= RAM_SIZE
      ensures r.Fail? ==> r.error == OutOfBounds
      ensures forall a | 0 <= a < RAM_SIZE ::
        state.ram.mem[a] == if offset <= a < offset + Written(offset, |data|) then data[a - offset] else old(state.ram.mem[a])
    {
      ghost var before := state.ram.mem[..];
      LoadSpecMeaning(before, offset, data);
      var k := 0;
      while k < |data|
        invariant 0 <= k <= |data|
        invariant LoadSpec(state.ram.mem[..], offset + k, data[k..]) == LoadSpec(before, offset, data)
      {
        var written := state.ram.Set(offset + k, data[k]);
        if written.Fail? {
          return written;
        }
        assert data[k..][1..] == data[k + 1..];
        k := k + 1;
      }
      assert data[k..] == [];
      r := Pass;
    }

    /** `load_font`: the 80 glyph bytes go to 0x50..0x9F, which always fits. */
    method LoadFont(font: Font) returns (r: Outcome)
      requires Valid()
      modifies state.ram.mem
      ensures Valid() && r.Pass?
      ensures state.ram.mem[FONT_OFFSET..FONT_OFFSET + 80] == font
      ensures forall a | 0 <= a < RAM_SIZE && !(FONT_OFFSET <= a < FONT_OFFSET + 80) ::
        state.ram.mem[a] == old(state.ram.mem[a])
    {
      r := Load(FONT_OFFSET, font);
      if r.Fail? {
        return r;
      }
      assert state.ram.mem[FONT_OFFSET..FONT_OFFSET + 80] == font by {
        forall j | 0 <= j < 80 ensures state.ram.mem[FONT_OFFSET + j] == font[j] {}
      }
    }

    /** `load_rom`: loads the ROM at 0x200 and, only if that succeeded, points `pc` at it. */
    method LoadRom(rom: seq<u8>) returns (r: Outcome)
      requires Valid()
      modifies state.ram.mem, cpu
      ensures Valid()
      ensures LoadSpec(old(state.ram.mem[..]), ROM_OFFSET, rom) == LoadResult(state.ram.mem[..], r)
      ensures r.Pass? <==> ROM_OFFSET + |rom| <= RAM_SIZE
      ensures r.Pass? ==> state.ram.mem[ROM_OFFSET..ROM_OFFSET + |rom|] == rom
      ensures cpu.pc == if r.Pass? then ROM_OFFSET else old(cpu.pc)
      ensures cpu.i == old(cpu.i) && cpu.stack == old(cpu.stack) && unchanged(cpu.registers)
    {
      r := Load(ROM_OFFSET, rom);
      if r.Fail? {
        return r;
      }
      assert state.ram.mem[ROM_OFFSET..ROM_OFFSET + |rom|] == rom by {
        forall j | 0 <= j < |rom| ensures state.ram.mem[ROM_OFFSET + j] == rom[j] {}
      }
      cpu.pc := ROM_OFFSET;
    }

    /** `step`: one CPU fetch, then one frame handed to the renderer, then the timer schedule.
        A failed fetch stops before the renderer; a failed render stops after the fetch but
        before the counter. Only a fully successful step counts towards the timers. */
    method Step() returns (r: Outcome)
      requires Valid()
      modifies this, cpu, display, state.soundTimer, state.delayTimer
      ensures Valid()
      ensures r == Fail(OutOfBounds) <==> old(cpu.pc) + 1 >= RAM_SIZE
      ensures r == Fail(OutOfBounds) ==> cpu.pc == old(cpu.pc) && display.frames == old(display.frames)
      ensures r != Fail(OutOfBounds) ==>
        cpu.pc == old(cpu.pc) + 2 && display.frames == old(display.frames) + [state.frameBuffer]
      ensures r.Fail? ==> r.error in {OutOfBounds, RenderFailed}
      ensures r.Fail? ==>
        ticks == old(ticks) &&
        state.soundTimer.value == old(state.soundTimer.value) &&
        state.delayTimer.value == old(state.delayTimer.value)
      ensures r.Pass? ==>
        var t := Tick(old(ticks) as nat, timerFreq as nat);
        && ticks as nat == t.ticks
        && state.soundTimer.value == (if t.fires then SaturatingDec(old(state.soundTimer.value)) else old(state.soundTimer.value))
        && state.delayTimer.value == (if t.fires then SaturatingDec(old(state.delayTimer.value)) else old(state.delayTimer.value))
      ensures cpu.i == old(cpu.i) && cpu.stack == old(cpu.stack) && unchanged(cpu.registers)
      ensures unchanged(state) && unchanged(state.ram.mem)
    {
      ghost var fetched;
      r, fetched := cpu.Execute(state);
      if r.Fail? {
        return r;
      }
      r := display.Draw(state.frameBuffer);
      if r.Fail? {
        return r;
      }
      ticks := ticks + 1;
      if ticks >= timerFreq {
        state.soundTimer.Decrement();
        state.delayTimer.Decrement();
        ticks := 0;
      }
      r := Pass;
    }
  }
}
