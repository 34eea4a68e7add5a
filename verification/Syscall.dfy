/** The four system calls, in their capturing form: output is appended to a log and input is
    consumed from a buffer. */
module Syscall {
  import opened Words
  import opened Memory

  datatype World = World(output: seq<u8>, errorOutput: seq<u8>, input: seq<u8>)

  /** What a successful call leaves behind; `returned` is the value for R14, if the call sets it. */
  datatype Outcome = Outcome(returned: Option<u64>, memory: Memory, world: World, halt: bool, exitCode: u64)

  const EXIT: u64 := 0
  const WRITE: u64 := 1
  const READ: u64 := 2
  const ALLOCATE: u64 := 3
  const MAX_TRANSFER: u64 := 0x10_0000

  /** How many of R1, R2 and R3 the call looks at. */
  function ArgumentCount(number: u64): nat {
    if number == EXIT || number == ALLOCATE then 1 else if number == WRITE || number == READ then 3 else 0
  }

  /** `None` is an error return, which traps the program. */
  function Invoke(number: u64, a1: u64, a2: u64, a3: u64, m: Memory, w: World): Option<Outcome> {
    if number == EXIT then Some(Outcome(None, m, w, true, a1))
    else if number == WRITE then DoWrite(a1, a2, a3, m, w)
    else if number == READ then DoRead(a1, a2, a3, m, w)
    else if number == ALLOCATE then DoAllocate(a1, m, w)
    else None
  }

  function DoWrite(fd: u64, address: u64, length: u64, m: Memory, w: World): Option<Outcome> {
    if (fd != 1 && fd != 2) || length > MAX_TRANSFER then None
    else
      var bytes := ReadBytes(m, address, length);
      if bytes.Err? then None
      else
        var w' := if fd == 1 then w.(output := w.output + bytes.value)
                  else w.(errorOutput := w.errorOutput + bytes.value);
        Some(Outcome(Some(length), m, w', false, 0))
  }

  function DoRead(fd: u64, address: u64, length: u64, m: Memory, w: World): Option<Outcome> {
    if fd != 0 || length > MAX_TRANSFER then None
    else
      var count := if length < |w.input| then length else |w.input|;
      var m' := WriteBytes(m, address, w.input[..count]);
      if m'.Err? then None
      else Some(Outcome(Some(count), m'.value, w.(input := w.input[count..]), false, 0))
  }

  /** A failed allocation is reported in-band as a null pointer. */
  function DoAllocate(size: u64, m: Memory, w: World): Option<Outcome> {
    var block := Allocate(m, size);
    if block.Err? then Some(Outcome(Some(0), m, w, false, 0))
    else Some(Outcome(Some(block.value.0), block.value.1, w, false, 0))
  }

  /** A call depends on no argument register beyond the ones it counts. */
  lemma UnusedArguments(number: u64, a1: u64, a2: u64, a3: u64, b1: u64, b2: u64, b3: u64, m: Memory, w: World)
    requires ArgumentCount(number) >= 1 ==> a1 == b1
    requires ArgumentCount(number) >= 3 ==> a2 == b2 && a3 == b3
    ensures Invoke(number, a1, a2, a3, m, w) == Invoke(number, b1, b2, b3, m, w)
  {
  }
}
