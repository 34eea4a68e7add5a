/** What each pass of the optimizer does to a code section, item by item. A pass marks items
    for removal or rewrites an instruction in place; it never moves an item. */
module Passes {
  import opened Words
  import opened Isa
  import opened Alu
  import opened Ir

  predicate EndsBlock(op: Opcode) {
    FindOpcode(op).None? || IsBranch(op) || IsTerminator(op) || op.SYSCALL?
  }

  predicate IsOp(items: seq<Item>, i: nat, op: Opcode)
    requires i < |items|
  {
    items[i].Instr? && items[i].ins.machine.opcode == op
  }

  // ----- unreachable code -----

  /** The scan's `reachable` flag before item i. */
  predicate Reachable(items: seq<Item>, i: nat)
    requires i <= |items|
  {
    if i == 0 || items[i - 1].Label? then true
    else
      && Reachable(items, i - 1)
      && !(items[i - 1].Instr? && IsTerminator(items[i - 1].ins.machine.opcode))
  }

  predicate Unreachable(items: seq<Item>, i: nat)
    requires i < |items|
  {
    items[i].Instr? && !Reachable(items, i)
  }

  function MarkUnreachable(items: seq<Item>): (r: seq<bool>)
    ensures |r| == |items|
  {
    seq(|items|, i requires 0 <= i < |items| => Unreachable(items, i))
  }

  // ----- PUSH / POP pairs -----

  /** Items i and i+1 are a PUSH/POP pair that the left-to-right scan consumes. */
  predicate PairStart(items: seq<Item>, remove: seq<bool>, i: nat)
    requires |remove| == |items|
  {
    && i + 1 < |items| && !remove[i] && !remove[i + 1]
    && IsOp(items, i, PUSH) && IsOp(items, i + 1, POP)
    && (i == 0 || !PairStart(items, remove, i - 1))
  }

  predicate SamePair(items: seq<Item>, i: nat)
    requires i + 1 < |items| && items[i].Instr? && items[i + 1].Instr?
  {
    items[i].ins.machine.dst == items[i + 1].ins.machine.dst
  }

  function PeepholeItem(items: seq<Item>, remove: seq<bool>, i: nat): Item
    requires |remove| == |items| && i < |items|
  {
    if PairStart(items, remove, i) && !SamePair(items, i) then
      var m := items[i].ins.machine;
      Instr(items[i].ins.(machine := m.(opcode := MOV, dst := items[i + 1].ins.machine.dst, src := m.dst)))
    else items[i]
  }

  predicate PeepholeMark(items: seq<Item>, remove: seq<bool>, i: nat)
    requires |remove| == |items| && i < |items|
  {
    || remove[i]
    || (PairStart(items, remove, i) && SamePair(items, i))
    || (i > 0 && PairStart(items, remove, i - 1))
  }

  function PeepholeItems(items: seq<Item>, remove: seq<bool>): (r: seq<Item>)
    requires |remove| == |items|
    ensures |r| == |items|
  {
    seq(|items|, i requires 0 <= i < |items| => PeepholeItem(items, remove, i))
  }

  function PeepholeMarks(items: seq<Item>, remove: seq<bool>): (r: seq<bool>)
    requires |remove| == |items|
    ensures |r| == |items|
  {
    seq(|items|, i requires 0 <= i < |items| => PeepholeMark(items, remove, i))
  }

  // ----- jumps to the next instruction -----

  /** Going from item j over removed items and labels only, a label `name` is met. */
  predicate LabelFollows(items: seq<Item>, remove: seq<bool>, j: nat, name: string)
    requires |remove| == |items| && j <= |items|
    decreases |items| - j
  {
    if j == |items| then false
    else if remove[j] then LabelFollows(items, remove, j + 1, name)
    else if !items[j].Label? then false
    else items[j].name == name || LabelFollows(items, remove, j + 1, name)
  }

  predicate JumpsToNext(items: seq<Item>, remove: seq<bool>, i: nat)
    requires |remove| == |items| && i < |items|
  {
    && IsOp(items, i, JMP)
    && items[i].ins.symbol.Some? && items[i].ins.symbol.value.addend == 0
    && LabelFollows(items, remove, i + 1, items[i].ins.symbol.value.name)
  }

  function JumpMarks(items: seq<Item>, remove: seq<bool>): (r: seq<bool>)
    requires |remove| == |items|
    ensures |r| == |items|
  {
    seq(|items|, i requires 0 <= i < |items| => remove[i] || JumpsToNext(items, remove, i))
  }

  // ----- blocks -----

  /** A basic block can begin at item i. */
  predicate Leader(items: seq<Item>, i: nat)
    requires i <= |items|
  {
    i == 0 || items[i - 1].Label? || (items[i - 1].Instr? && EndsBlock(items[i - 1].ins.machine.opcode))
  }

  // ----- constant folding -----

  type Constants = c: seq<Option<u64>> | |c| == REGISTER_COUNT
    witness [None, None, None, None, None, None, None, None, None, None, None, None, None, None, None, None]

  const NO_CONSTANTS: Constants :=
    [None, None, None, None, None, None, None, None, None, None, None, None, None, None, None, None]

  /** `fitsSigned(value, 48)` of the word read as signed. */
  predicate FitsImmediate(value: u64) {
    -0x8000_0000_0000 <= ToI64(value) < 0x8000_0000_0000
  }

  /** The ALU result when every operand is a known constant. */
  function KnownResult(m: Instruction, c: Constants): Option<Result<AluResult, AluError>> {
    if IsBinaryAlu(m.opcode) then
      if c[m.dst].Some? && c[m.src].Some? then Some(EvaluateBinary(m.opcode, c[m.dst].value, c[m.src].value)) else None
    else if IsUnaryAlu(m.opcode) && c[m.dst].Some? then Some(EvaluateUnary(m.opcode, c[m.dst].value))
    else None
  }

  /** The constants after an instruction, given those before it. */
  function Transfer(ins: IrInstruction, c: Constants): Constants {
    var m := ins.machine;
    if ins.symbol.Some? then c[m.dst := None]
    else if m.opcode.MOVI? || m.opcode.LEA? then c[m.dst := Some(ToU64(m.imm))]
    else if m.opcode.MOV? then c[m.dst := c[m.src]]
    else
      var r := KnownResult(m, c);
      if r.None? then if WritesDst(m.opcode) then c[m.dst := None] else c
      else if r.value.Err? then c[m.dst := None]
      else if r.value.value.writesValue then c[m.dst := Some(r.value.value.value)]
      else c
  }

  function LoadConstant(m: Instruction, value: u64): Instruction {
    m.(opcode := MOVI, imm := ToI64(value), src := 0)
  }

  /** The value an instruction is replaced by, if it is folded. */
  function FoldedValue(ins: IrInstruction, c: Constants, flagsDead: bool): Option<u64> {
    var m := ins.machine;
    if ins.symbol.Some? then None
    else if m.opcode.MOV? then
      if c[m.src].Some? && FitsImmediate(c[m.src].value) then c[m.src] else None
    else
      var r := KnownResult(m, c);
      if r.Some? && r.value.Ok? && r.value.value.writesValue
         && (!r.value.value.writesFlags || flagsDead) && FitsImmediate(r.value.value.value)
      then Some(r.value.value.value) else None
  }

  /** The constants known before item i; nothing is known where a block begins. */
  function ConstantsAt(items: seq<Item>, remove: seq<bool>, i: nat): Constants
    requires |remove| == |items| && i <= |items|
  {
    if Leader(items, i) then NO_CONSTANTS
    else if remove[i - 1] || !items[i - 1].Instr? then ConstantsAt(items, remove, i - 1)
    else Transfer(items[i - 1].ins, ConstantsAt(items, remove, i - 1))
  }

  /** Some path of the section's control flow from item i reads FLAGS, or leaves what is known of
      the control flow, within `steps` items and before FLAGS is written. */
  predicate FlagsNeededWithin(items: seq<Item>, labels: map<string, nat>, i: nat, steps: nat)
    decreases steps
  {
    if steps == 0 || i >= |items| then false
    else if !items[i].Instr? then FlagsNeededWithin(items, labels, i + 1, steps - 1)
    else
      var ins := items[i].ins;
      var op := ins.machine.opcode;
      if ReadsFlags(op) then true
      else if WritesFlags(op) || op.HALT? then false
      else if IsBranch(op) then
        || op.CALL?
        || ins.symbol.None?
        || ins.symbol.value.name !in labels
        || FlagsNeededWithin(items, labels, labels[ins.symbol.value.name], steps - 1)
      else FlagsNeededWithin(items, labels, i + 1, steps - 1)
  }

  ghost predicate FlagsNeeded(items: seq<Item>, i: nat) {
    exists steps: nat :: FlagsNeededWithin(items, LabelMap(items), i, steps)
  }

  ghost function FoldItem(items: seq<Item>, remove: seq<bool>, i: nat): Item
    requires |remove| == |items| && i < |items|
  {
    if remove[i] || !items[i].Instr? then items[i]
    else
      var ins := items[i].ins;
      var v := FoldedValue(ins, ConstantsAt(items, remove, i), !FlagsNeeded(items, i + 1));
      if v.None? then items[i] else Instr(ins.(machine := LoadConstant(ins.machine, v.value)))
  }

  ghost function FoldItems(items: seq<Item>, remove: seq<bool>): (r: seq<Item>)
    requires |remove| == |items|
    ensures |r| == |items|
  {
    seq(|items|, i requires 0 <= i < |items| => FoldItem(items, remove, i))
  }

  // ----- identities -----

  predicate IsIdentity(item: Item) {
    && item.Instr? && item.ins.symbol.None?
    && var m := item.ins.machine; (m.opcode.MOV? && m.dst == m.src) || m.opcode.NOP?
  }

  function IdentityMarks(items: seq<Item>, remove: seq<bool>): (r: seq<bool>)
    requires |remove| == |items|
    ensures |r| == |items|
  {
    seq(|items|, i requires 0 <= i < |items| => remove[i] || IsIdentity(items[i]))
  }

  // ----- dead stores -----

  predicate PureDefine(op: Opcode) { op.MOVI? || op.MOV? || op.LEA? }

  /** From item j to the end of its block, `reg` is written before it is read. */
  predicate Overwritten(items: seq<Item>, remove: seq<bool>, j: nat, reg: Reg)
    requires |remove| == |items| && j <= |items|
    decreases |items| - j
  {
    if j == |items| || Leader(items, j) || items[j].Label? then false
    else if remove[j] || !items[j].Instr? then Overwritten(items, remove, j + 1, reg)
    else if ReadsRegister(items[j].ins.machine, reg) then false
    else if WritesRegister(items[j].ins.machine, reg) then true
    else Overwritten(items, remove, j + 1, reg)
  }

  predicate IsDeadStore(items: seq<Item>, remove: seq<bool>, i: nat)
    requires |remove| == |items| && i < |items|
  {
    && items[i].Instr? && PureDefine(items[i].ins.machine.opcode)
    && Overwritten(items, remove, i + 1, items[i].ins.machine.dst)
  }

  function DeadStoreMarks(items: seq<Item>, remove: seq<bool>): (r: seq<bool>)
    requires |remove| == |items|
    ensures |r| == |items|
  {
    seq(|items|, i requires 0 <= i < |items| => remove[i] || IsDeadStore(items, remove, i))
  }

  // ----- compaction -----

  function Kept(items: seq<Item>, remove: seq<bool>): seq<Item>
    requires |remove| == |items|
  {
    if items == [] then []
    else
      var last := |items| - 1;
      Kept(items[..last], remove[..last]) + (if remove[last] then [] else [items[last]])
  }

  /** How many of the first i items are kept: where item i, or its first kept successor, ends up. */
  function KeptBefore(remove: seq<bool>, i: nat): (r: nat)
    requires i <= |remove|
    ensures r <= i
  {
    if i == 0 then 0 else KeptBefore(remove, i - 1) + (if remove[i - 1] then 0 else 1)
  }

  function KeptMap(remove: seq<bool>): (k: seq<nat>)
    ensures |k| == |remove| + 1
    ensures forall i :: 0 <= i <= |remove| ==> k[i] == KeptBefore(remove, i)
  {
    seq(|remove| + 1, i requires 0 <= i <= |remove| => KeptBefore(remove, i))
  }

  function NoMarks(n: nat): (r: seq<bool>)
    ensures |r| == n && forall i :: 0 <= i < n ==> !r[i]
  {
    seq(n, _ => false)
  }

  // ----- one whole pass -----

  /** The section and the marks just before compaction. */
  ghost function PassMarked(items: seq<Item>): (r: (seq<Item>, seq<bool>))
    ensures |r.0| == |items| == |r.1|
  {
    var r0 := MarkUnreachable(items);
    var items1 := PeepholeItems(items, r0);
    var r1 := PeepholeMarks(items, r0);
    var r2 := JumpMarks(items1, r1);
    var items2 := FoldItems(items1, r2);
    (items2, DeadStoreMarks(items2, IdentityMarks(items2, r2)))
  }

  ghost function Pass(items: seq<Item>): seq<Item> {
    var r := PassMarked(items);
    Kept(r.0, r.1)
  }

  const MAX_ITERATIONS: nat := 8

  ghost function Optimized(items: seq<Item>, rounds: nat): seq<Item>
    decreases rounds
  {
    if rounds == 0 then items else Optimized(Pass(items), rounds - 1)
  }
}
