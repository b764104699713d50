/** Bounds-checked 4096-byte memory (src/ram.rs). */
module Memory {
  import opened Common

  const RAM_SIZE: nat := 4096

  /** `is_valid_address`: an address may be accessed exactly when it lies below RAM_SIZE. */
  function IsValidAddress(address: nat): (r: Outcome)
    ensures r.Pass? <==> address < RAM_SIZE
    ensures r.Fail? ==> r.error == OutOfBounds
  {
    if address >= RAM_SIZE then Fail(OutOfBounds) else Pass
  }

  /** The two checks `get_slice` makes before slicing: the start address, then the end address
      `address + length`, each with the same strict test. A slice that ends exactly at the top
      of memory is therefore refused. */
  function CheckSlice(address: nat, length: nat): (r: Outcome)
    ensures r.Pass? <==> address < RAM_SIZE && address + length < RAM_SIZE
    ensures r.Fail? ==> r.error == OutOfBounds
  {
    var first := IsValidAddress(address);
    if first.Fail? then first else IsValidAddress(address + length)
  }

  /** The cases of the address tests in src/ram.rs. */
  lemma ValidAddressCases()
    ensures IsValidAddress(0).Pass? && IsValidAddress(RAM_SIZE - 1).Pass?
    ensures IsValidAddress(RAM_SIZE).Fail? && IsValidAddress(RAM_SIZE + 10).Fail?
  {
  }

  /** The cases of the slice tests in src/ram.rs. */
  lemma SliceCases()
    ensures CheckSlice(0, RAM_SIZE - 1).Pass? && CheckSlice(RAM_SIZE / 4, RAM_SIZE / 2).Pass?
    ensures CheckSlice(0, RAM_SIZE).Fail? && CheckSlice(RAM_SIZE / 2, RAM_SIZE + 5).Fail?
  {
  }

  /** The memory itself: a fixed array that is never replaced or resized. */
  class Ram {
    const mem: array<u8>

    ghost predicate Valid()
    {
      mem.Length == RAM_SIZE
    }

    /** `Ram::default`: 4096 zero bytes. */
    constructor Default()
      ensures Valid() && fresh(mem)
      ensures mem[..] == seq(RAM_SIZE, _ => 0 as u8)
    {
      mem := new u8[RAM_SIZE](_ => 0 as u8);
      new;
      assert mem[..] == seq(RAM_SIZE, _ => 0 as u8);
    }

    /** Writes one byte; fails, leaving memory as it was, when the address is out of range. */
    method Set(address: nat, value: u8) returns (r: Outcome)
      requires Valid()
      modifies mem
      ensures r == IsValidAddress(address)
      ensures r.Pass? <==> address < RAM_SIZE
      ensures mem[..] == if r.Pass? then old(mem[..])[address := value] else old(mem[..])
    {
      r := IsValidAddress(address);
      if r.Pass? {
        mem[address] := value;
      }
    }

    /** Reads one byte; fails when the address is out of range. */
    method Get(address: nat) returns (r: Result<u8>)
      requires Valid()
      ensures r.Ok? <==> address < RAM_SIZE
      ensures r.Ok? ==> r.value == mem[address]
      ensures r.Err? ==> r.error == OutOfBounds
    {
      var check := IsValidAddress(address);
      if check.Fail? {
        return Err(check.error);
      }
      r := Ok(mem[address]);
    }

    /** Reads `length` consecutive bytes from `address`, after `CheckSlice`. */
    method GetSlice(address: nat, length: nat) returns (r: Result<seq<u8>>)
      requires Valid()
      ensures r.Ok? <==> CheckSlice(address, length).Pass?
      ensures r.Ok? <==> address < RAM_SIZE && address + length < RAM_SIZE
      ensures r.Ok? ==> r.value == mem[address..address + length]
      ensures r.Err? ==> r.error == OutOfBounds
    {
      var check := CheckSlice(address, length);
      if check.Fail? {
        return Err(check.error);
      }
      r := Ok(mem[address..address + length]);
    }
  }

  /** The slice tests of src/ram.rs, run against a fresh memory. */
  method SliceChecks()
  {
    var ram := new Ram.Default();
    var ok1 := ram.GetSlice(0, RAM_SIZE - 1);
    var ok2 := ram.GetSlice(RAM_SIZE / 4, RAM_SIZE / 2);
    assert ok1.Ok? && ok2.Ok?;
    var bad1 := ram.GetSlice(0, RAM_SIZE);
    var bad2 := ram.GetSlice(RAM_SIZE / 2, RAM_SIZE + 5);
    assert bad1.Err? && bad2.Err?;
  }
}
