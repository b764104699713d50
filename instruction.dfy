/** Decoding of a big-endian 16-bit CHIP-8 word into its fields (src/instruction.rs). */
module Instructions {
  import opened Common

  /** The fields of an instruction. As in the source, the 4-bit fields are held in a `u8`
      and the 12-bit field in a `u16`. */
  datatype Instruction = Instruction(opcode: u8, x: u8, y: u8, n: u8, nn: u8, nnn: u16)

  /** `Instruction::parse`: total, with no error path. Each nibble field is below 16 and
      `nnn` below 4096; the nibbles put back together give the two bytes; `nn` is the
      second byte and `nnn` is `x` followed by `nn`. */
  function Parse(first: u8, second: u8): (r: Instruction)
    ensures r.opcode < 16 && r.x < 16 && r.y < 16 && r.n < 16 && r.nnn < 0x1000
    ensures ((r.opcode << 4) | r.x) == first && ((r.y << 4) | r.n) == second
    ensures r.nn == second
    ensures r.nnn == ((r.x as u16) << 8) | (r.nn as u16)
  {
    Instruction(
      opcode := (first >> 4) & 0xF,
      x := first & 0xF,
      y := (second >> 4) & 0xF,
      n := second & 0xF,
      nn := second,
      nnn := ((first & 0xF) as u16 << 8) | (second as u16))
  }

  lemma HighNibbleValue(b: u8)
    ensures ((b >> 4) & 0xF) as int == b as int / 16
  {
  }

  lemma LowNibbleValue(b: u8)
    ensures (b & 0xF) as int == b as int % 16
  {
  }

  lemma JoinValue(high: u8, low: u8)
    requires high < 16
    ensures (((high as u16) << 8) | (low as u16)) as int == high as int * 256 + low as int
  {
  }

  /** The same facts read as numbers: `opcode*16 + x` is the first byte, `y*16 + n` the
      second, and `nnn == x*256 + nn`. */
  lemma ParseAsNumbers(first: u8, second: u8)
    ensures var r := Parse(first, second);
      && r.opcode as int * 16 + r.x as int == first as int
      && r.y as int * 16 + r.n as int == second as int
      && r.nn as int == second as int
      && r.nnn as int == r.x as int * 256 + r.nn as int
      && r.nnn as int == (first as int % 16) * 256 + second as int
  {
    HighNibbleValue(first);
    LowNibbleValue(first);
    HighNibbleValue(second);
    LowNibbleValue(second);
    JoinValue(first & 0xF, second);
  }

  /** Decoding keeps all the information of the word: two different words never decode alike. */
  lemma ParseInjective(a1: u8, b1: u8, a2: u8, b2: u8)
    requires Parse(a1, b1) == Parse(a2, b2)
    ensures a1 == a2 && b1 == b2
  {
  }

  /** The worked example of src/instruction.rs. */
  lemma ParseExample()
    ensures Parse(0xF0, 0xF0) == Instruction(0xF, 0x0, 0xF, 0x0, 0xF0, 0x0F0)
  {
  }
}
