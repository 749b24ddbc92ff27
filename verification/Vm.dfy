/** The bytecode interpreter and its gas metering (internal/vm/interpreter.go, opcodes.go). */
module Vm {
  import opened Wrappers
  import opened Nibbles
  import opened BigInt

  const UINT64: nat := 0x1_0000_0000_0000_0000
  const INT64_MAX: nat := 0x7FFF_FFFF_FFFF_FFFF

  const OP_STOP := 0x00
  const OP_PUSH1 := 0x01
  const OP_PUSH32 := 0x20
  const OP_POP := 0x30
  const OP_DUP := 0x31
  const OP_ADD := 0x40
  const OP_SUB := 0x41
  const OP_MUL := 0x42
  const OP_EQ := 0x50
  const OP_ISZERO := 0x53
  const OP_JUMP := 0x60
  const OP_JUMPI := 0x61
  const OP_SLOAD := 0x70
  const OP_SSTORE := 0x71
  const OP_RETURN := 0x84
  const OP_REVERT := 0x85
  const OP_SHA256 := 0x90

  /** OpcodeInfo's gas column; opcodes that only fail are priced too. */
  function Gas(op: byte): (gas: nat)
    ensures gas <= 100000
  {
    if op == OP_STOP || op == OP_RETURN || op == OP_REVERT then 0
    else if op == OP_POP || op == 0x80 || op == 0x81 then 2
    else if op in {OP_PUSH1, OP_PUSH32, OP_DUP, 0x32, OP_ADD, OP_SUB, OP_EQ, 0x51, 0x52, OP_ISZERO} then 3
    else if op == OP_MUL || op == 0x43 then 5
    else if op == OP_JUMP then 8
    else if op == OP_JUMPI then 10
    else if op == OP_SLOAD then 200
    else if op == OP_SSTORE then 5000
    else if op == 0x82 then 400
    else if op == 0x83 then 700
    else if op == OP_SHA256 then 60
    else if op == 0x91 then 30
    else if op == 0xA0 then 100000
    else if op == 0xA1 || op == 0xA2 then 50000
    else 0
  }

  /** Everything a run changes; nil and empty byte slices are alike. */
  datatype Machine = Machine(pc: int, stack: seq<Bytes>, storage: map<Bytes, Bytes>, gasUsed: nat, output: Bytes)

  datatype Outcome =
    | Returned(output: Bytes)
    | OutOfGas
    | PushExceedsCode
    | JumpTooLarge
    | Reverted
    | UnknownOpcode
    | Trap

  /** One instruction: the run goes on, or it ends. */
  datatype Next = Continue(m: Machine) | Halt(outcome: Outcome, m: Machine)

  type Hasher = Bytes -> Bytes

  // ---- The stack ----

  function Top(stack: seq<Bytes>): Bytes {
    if stack == [] then [] else stack[|stack| - 1]
  }

  /** Pop on an empty stack yields nil and leaves it empty. */
  function Rest(stack: seq<Bytes>): seq<Bytes> {
    if stack == [] then [] else stack[..|stack| - 1]
  }

  function Flag(b: bool): Bytes {
    if b then [1] else [0]
  }

  /** A storage key: the first 32 bytes, padded with zeros. */
  function Key(b: Bytes): (k: Bytes)
    ensures |k| == 32
    decreases 32 - |b|
  {
    if |b| >= 32 then b[..32] else Key(b + [0])
  }

  function Magnitude(x: int): nat {
    if x < 0 then -x else x
  }

  /** int(target.Uint64()): the upper half of the range turns negative. */
  function JumpTarget(t: nat): int
    requires t < UINT64
  {
    if t <= INT64_MAX then t else t - UINT64
  }

  function IsZero(b: Bytes): bool {
    forall i :: 0 <= i < |b| ==> b[i] == 0
  }

  // ---- One instruction ----

  const BINARY: set<byte> := {OP_ADD, OP_SUB, OP_MUL, OP_EQ}

  /** Result of a two-operand opcode; subtraction keeps the magnitude only. */
  function Combine(op: byte, a: Bytes, b: Bytes): Bytes {
    if op == OP_ADD then ToBytes(FromBytes(a) + FromBytes(b))
    else if op == OP_SUB then ToBytes(Magnitude(FromBytes(b) - FromBytes(a)))
    else if op == OP_MUL then ToBytes(FromBytes(a) * FromBytes(b))
    else Flag(a == b)
  }

  function Jump(m: Machine, target: Bytes): Next {
    var t := FromBytes(target);
    if t >= UINT64 then Halt(JumpTooLarge, m) else Continue(m.(pc := JumpTarget(t)))
  }

  /** The switch of Run, after gas is charged and pc has moved past the opcode. */
  function Exec(code: Bytes, op: byte, m: Machine, H: Hasher): Next
    requires 0 <= m.pc <= |code|
  {
    var a, one := Top(m.stack), Rest(m.stack);
    var b, two := Top(one), Rest(one);
    if op == OP_STOP then Halt(Returned(m.output), m)
    else if op == OP_PUSH1 || op == OP_PUSH32 then
      if m.pc + op > |code| then Halt(PushExceedsCode, m)
      else Continue(m.(stack := m.stack + [code[m.pc..m.pc + op]], pc := m.pc + op))
    else if op == OP_POP then Continue(m.(stack := one))
    else if op == OP_DUP then
      if m.stack == [] then Halt(Trap, m) else Continue(m.(stack := m.stack + [a]))
    else if op in BINARY then Continue(m.(stack := two + [Combine(op, a, b)]))
    else if op == OP_ISZERO then Continue(m.(stack := one + [Flag(IsZero(a))]))
    else if op == OP_JUMP then Jump(m.(stack := one), a)
    else if op == OP_JUMPI then
      if b != [] && b[0] != 0 then Jump(m.(stack := two), a) else Continue(m.(stack := two))
    else if op == OP_SLOAD then
      Continue(m.(stack := one + [if Key(a) in m.storage then m.storage[Key(a)] else []]))
    else if op == OP_SSTORE then Continue(m.(stack := two, storage := m.storage[Key(b) := a]))
    else if op == OP_RETURN then Halt(Returned(a), m.(stack := one, output := a))
    else if op == OP_REVERT then Halt(Reverted, m)
    else if op == OP_SHA256 then Continue(m.(stack := one + [H(a)]))
    else Halt(UnknownOpcode, m)
  }

  /** uint64 addition. */
  function Add64(a: nat, b: nat): nat {
    (a + b) % UINT64
  }

  /** One turn of Run's loop: gas check, charge, dispatch.  A negative pc is an index panic. */
  function Step(code: Bytes, limit: nat, m: Machine, H: Hasher): Next
    requires m.pc < |code|
  {
    if m.pc < 0 then Halt(Trap, m)
    else
      var op := code[m.pc];
      if Add64(m.gasUsed, Gas(op)) > limit then Halt(OutOfGas, m)
      else Exec(code, op, m.(gasUsed := Add64(m.gasUsed, Gas(op)), pc := m.pc + 1), H)
  }

  // ---- What an instruction does, in numbers ----

  /** The i-th stack entry from the top; below the bottom all are empty. */
  function Under(stack: seq<Bytes>, i: nat): Bytes {
    if i < |stack| then stack[|stack| - 1 - i] else []
  }

  /** The stack without so many entries from the top, or empty. */
  function Below(stack: seq<Bytes>, k: nat): seq<Bytes> {
    if k <= |stack| then stack[..|stack| - k] else []
  }

  /** The run goes on with so many entries popped and this one pushed, and nothing else changed. */
  ghost predicate Pushes(m: Machine, n: Next, popped: nat, top: Bytes) {
    n == Continue(Machine(m.pc, Below(m.stack, popped) + [top], m.storage, m.gasUsed, m.output))
  }

  /** The same for a number, which is pushed without leading zeros. */
  ghost predicate PushesNumber(m: Machine, n: Next, popped: nat, x: nat) {
    && n.Continue? && n.m.stack != []
    && var top := n.m.stack[|n.m.stack| - 1];
    Pushes(m, n, popped, top) && FromBytes(top) == x && (top == [] || top[0] != 0)
  }

  /** The run goes on at this position, the upper half of uint64 read as negative, or ends if it is no uint64. */
  ghost predicate GoesTo(m: Machine, n: Next, popped: nat, target: nat) {
    var rest := m.(stack := Below(m.stack, popped));
    if target >= 0x1_0000_0000_0000_0000 then n == Halt(JumpTooLarge, rest)
    else if target < 0x8000_0000_0000_0000 then n == Continue(rest.(pc := target))
    else n == Continue(rest.(pc := target - 0x1_0000_0000_0000_0000))
  }

  /** k is the 32 bytes of storage key that b stands for. */
  ghost predicate IsKey(b: Bytes, k: Bytes) {
    |k| == 32 && forall i :: 0 <= i < 32 ==> k[i] == if i < |b| then b[i] else 0
  }

  lemma {:induction false} KeyMeans(b: Bytes, k: Bytes)
    ensures IsKey(b, k) <==> k == Key(b)
    decreases 32 - |b|
  {
    if |b| < 32 {
      KeyMeans(b + [0], k);
      assert IsKey(b, k) <==> IsKey(b + [0], k);
    }
  }

  /** ADD, SUB and MUL replace the two entries on top by the sum, the distance or the product. */
  ghost predicate Computes(op: byte, m: Machine, n: Next) {
    var x, y := FromBytes(Under(m.stack, 0)), FromBytes(Under(m.stack, 1));
    && (op == 0x40 ==> PushesNumber(m, n, 2, x + y))
    && (op == 0x41 ==> PushesNumber(m, n, 2, if x > y then x - y else y - x))
    && (op == 0x42 ==> PushesNumber(m, n, 2, x * y))
  }

  /** EQ compares the two entries on top byte by byte, ISZERO asks whether all bytes of one are zero. */
  ghost predicate Compares(op: byte, m: Machine, n: Next) {
    var a, b := Under(m.stack, 0), Under(m.stack, 1);
    && (op == 0x50 ==> Pushes(m, n, 2, if a == b then [1] else [0]))
    && (op == 0x53 ==> Pushes(m, n, 1, if forall i :: 0 <= i < |a| ==> a[i] == 0 then [1] else [0]))
  }

  /** JUMP goes to the top entry; JUMPI only if the first byte of the condition below it is not zero. */
  ghost predicate Jumps(op: byte, m: Machine, n: Next) {
    var x, b := FromBytes(Under(m.stack, 0)), Under(m.stack, 1);
    && (op == 0x60 ==> GoesTo(m, n, 1, x))
    && (op == 0x61 && b != [] && b[0] != 0 ==> GoesTo(m, n, 2, x))
    && (op == 0x61 && (b == [] || b[0] == 0) ==> n == Continue(m.(stack := Below(m.stack, 2))))
  }

  /** SLOAD reads the key on top, unset as empty; SSTORE writes the value on top under the key below it. */
  ghost predicate Stores(op: byte, m: Machine, n: Next) {
    var a, b := Under(m.stack, 0), Under(m.stack, 1);
    && (op == 0x70 ==> forall k :: IsKey(a, k) ==> Pushes(m, n, 1, if k in m.storage then m.storage[k] else []))
    && (op == 0x71 ==>
          forall k :: IsKey(b, k) ==>
            n == Continue(m.(stack := Below(m.stack, 2), storage := m.storage[k := a])))
  }

  /** STOP, PUSH1, PUSH32, POP, DUP, RETURN, REVERT, SHA256, and opcodes there are none of. */
  ghost predicate Moves(code: Bytes, op: byte, m: Machine, n: Next, H: Hasher)
    requires 0 <= m.pc <= |code|
  {
    var a := Under(m.stack, 0);
    if op == 0x00 then n == Halt(Returned(m.output), m)
    else if op == 0x01 || op == 0x20 then
      if m.pc + op > |code| then n == Halt(PushExceedsCode, m)
      else n == Continue(m.(stack := m.stack + [code[m.pc..m.pc + op]], pc := m.pc + op))
    else if op == 0x30 then n == Continue(m.(stack := Below(m.stack, 1)))
    else if op == 0x31 then if m.stack == [] then n == Halt(Trap, m) else Pushes(m, n, 0, a)
    else if op == 0x84 then n == Halt(Returned(a), m.(stack := Below(m.stack, 1), output := a))
    else if op == 0x85 then n == Halt(Reverted, m)
    else if op == 0x90 then Pushes(m, n, 1, H(a))
    else n == Halt(UnknownOpcode, m)
  }

  /** The opcodes by what they do to the stack, the storage and the position. */
  ghost predicate Lawful(code: Bytes, op: byte, m: Machine, n: Next, H: Hasher)
    requires 0 <= m.pc <= |code|
  {
    if op in {0x40, 0x41, 0x42} then Computes(op, m, n)
    else if op in {0x50, 0x53} then Compares(op, m, n)
    else if op in {0x60, 0x61} then Jumps(op, m, n)
    else if op in {0x70, 0x71} then Stores(op, m, n)
    else Moves(code, op, m, n, H)
  }

  lemma StackMeans(stack: seq<Bytes>)
    ensures Top(stack) == Under(stack, 0) && Rest(stack) == Below(stack, 1)
    ensures Top(Rest(stack)) == Under(stack, 1) && Rest(Rest(stack)) == Below(stack, 2)
  {
  }

  /** The number that an arithmetic opcode makes of its operands. */
  function Value(op: byte, x: nat, y: nat): nat {
    if op == 0x40 then x + y else if op == 0x42 then x * y else if x > y then x - y else y - x
  }

  lemma CombineIs(op: byte, a: Bytes, b: Bytes, x: nat, y: nat)
    requires op in {0x40, 0x41, 0x42} && x == FromBytes(a) && y == FromBytes(b)
    ensures Combine(op, a, b) == ToBytes(Value(op, x, y))
  {
    if op == 0x42 {
      assert Value(op, x, y) == x * y;
    } else if op == 0x41 {
      assert Value(op, x, y) == Magnitude(y - x);
    }
  }

  lemma CombineMeans(op: byte, a: Bytes, b: Bytes)
    requires op in {0x40, 0x41, 0x42}
    ensures var r := Combine(op, a, b);
            FromBytes(r) == Value(op, FromBytes(a), FromBytes(b)) && (r == [] || r[0] != 0)
  {
    CombineIs(op, a, b, FromBytes(a), FromBytes(b));
    RoundTrip(Value(op, FromBytes(a), FromBytes(b)));
  }

  lemma ExecCombines(code: Bytes, op: byte, m: Machine, H: Hasher, r: Bytes)
    requires 0 <= m.pc <= |code| && op in {0x40, 0x41, 0x42}
    requires r == Combine(op, Under(m.stack, 0), Under(m.stack, 1))
    ensures Pushes(m, Exec(code, op, m, H), 2, r)
  {
    StackMeans(m.stack);
  }

  lemma PushedNumber(m: Machine, n: Next, r: Bytes, x: nat)
    requires Pushes(m, n, 2, r) && FromBytes(r) == x && (r == [] || r[0] != 0)
    ensures PushesNumber(m, n, 2, x)
  {
  }

  lemma ExecComputes(code: Bytes, op: byte, m: Machine, H: Hasher)
    requires 0 <= m.pc <= |code| && op in {0x40, 0x41, 0x42}
    ensures Computes(op, m, Exec(code, op, m, H))
  {
    var a, b := Under(m.stack, 0), Under(m.stack, 1);
    CombineMeans(op, a, b);
    ExecCombines(code, op, m, H, Combine(op, a, b));
    PushedNumber(m, Exec(code, op, m, H), Combine(op, a, b), FromBytes(Combine(op, a, b)));
  }

  lemma ExecStores(code: Bytes, op: byte, m: Machine, H: Hasher)
    requires 0 <= m.pc <= |code| && op in {0x70, 0x71}
    ensures Stores(op, m, Exec(code, op, m, H))
  {
    StackMeans(m.stack);
    forall k ensures (IsKey(Under(m.stack, 0), k) <==> k == Key(Under(m.stack, 0)))
                     && (IsKey(Under(m.stack, 1), k) <==> k == Key(Under(m.stack, 1)))
    {
      KeyMeans(Under(m.stack, 0), k);
      KeyMeans(Under(m.stack, 1), k);
    }
  }

  lemma ExecMoves(code: Bytes, op: byte, m: Machine, H: Hasher)
    requires 0 <= m.pc <= |code| && op !in {0x40, 0x41, 0x42, 0x50, 0x53, 0x60, 0x61, 0x70, 0x71}
    ensures Moves(code, op, m, Exec(code, op, m, H), H)
  {
    StackMeans(m.stack);
  }

  lemma ExecLawful(code: Bytes, op: byte, m: Machine, H: Hasher)
    requires 0 <= m.pc <= |code|
    ensures Lawful(code, op, m, Exec(code, op, m, H), H)
  {
    if op in {0x40, 0x41, 0x42} {
      ExecComputes(code, op, m, H);
    } else if op in {0x70, 0x71} {
      ExecStores(code, op, m, H);
    } else if op in {0x50, 0x53, 0x60, 0x61} {
      StackMeans(m.stack);
    } else {
      ExecMoves(code, op, m, H);
    }
  }

  /** One turn: a negative position traps; without the gas nothing happens; otherwise the opcode does what it does. */
  lemma StepLawful(code: Bytes, limit: nat, m: Machine, H: Hasher)
    requires m.pc < |code|
    ensures var n := Step(code, limit, m, H);
            if m.pc < 0 then n == Halt(Trap, m)
            else
              var op := code[m.pc];
              var used := (m.gasUsed + Gas(op)) % 0x1_0000_0000_0000_0000;
              if used > limit then n == Halt(OutOfGas, m)
              else Lawful(code, op, m.(gasUsed := used, pc := m.pc + 1), n, H)
  {
    if 0 <= m.pc {
      ExecLawful(code, code[m.pc], m.(gasUsed := Add64(m.gasUsed, Gas(code[m.pc])), pc := m.pc + 1), H);
    }
  }

  /** The price list; everything that is not on it is free. */
  lemma PriceList(op: byte)
    ensures Gas(op) == 2 <==> op in {0x30, 0x80, 0x81}
    ensures Gas(op) == 3 <==> op in {0x01, 0x20, 0x31, 0x32, 0x40, 0x41, 0x50, 0x51, 0x52, 0x53}
    ensures Gas(op) == 5 <==> op in {0x42, 0x43}
    ensures (Gas(op) == 8 <==> op == 0x60) && (Gas(op) == 10 <==> op == 0x61)
    ensures (Gas(op) == 30 <==> op == 0x91) && (Gas(op) == 60 <==> op == 0x90)
    ensures (Gas(op) == 200 <==> op == 0x70) && (Gas(op) == 5000 <==> op == 0x71)
    ensures (Gas(op) == 400 <==> op == 0x82) && (Gas(op) == 700 <==> op == 0x83)
    ensures Gas(op) == 50000 <==> op in {0xA1, 0xA2}
    ensures Gas(op) == 100000 <==> op == 0xA0
    ensures Gas(op) in {0, 2, 3, 5, 8, 10, 30, 60, 200, 400, 700, 5000, 50000, 100000}
  {
  }

  // ---- Whole runs ----

  /** One turn of the loop before its gas check: what the counter would be charged to, and what would follow. */
  datatype Turn = Turn(charge: nat, next: Next)

  function Fetch(code: Bytes, H: Hasher): Machine -> Turn {
    (m: Machine) =>
      if m.pc >= |code| then Turn(0, Halt(Returned(m.output), m))
      else if m.pc < 0 then Turn(0, Halt(Trap, m))
      else
        var charge := Add64(m.gasUsed, Gas(code[m.pc]));
        Turn(charge, Exec(code, code[m.pc], m.(gasUsed := charge, pc := m.pc + 1), H))
  }

  /** At most so many turns of a metered machine; None while it is still going. */
  function Follow(turn: Machine -> Turn, limit: nat, m: Machine, steps: nat): Option<(Outcome, Machine)>
    decreases steps
  {
    if steps == 0 then None
    else if turn(m).charge > limit then Some((OutOfGas, m))
    else match turn(m).next
      case Halt(outcome, n) => Some((outcome, n))
      case Continue(n) => Follow(turn, limit, n, steps - 1)
  }

  /** A run followed for at most so many turns. */
  function RunFor(code: Bytes, limit: nat, m: Machine, H: Hasher, steps: nat): Option<(Outcome, Machine)> {
    Follow(Fetch(code, H), limit, m, steps)
  }

  lemma StepTurn(code: Bytes, limit: nat, m: Machine, H: Hasher)
    requires m.pc < |code|
    ensures var t := Fetch(code, H)(m);
            Step(code, limit, m, H) == if t.charge > limit then Halt(OutOfGas, m) else t.next
  {
  }

  ghost predicate Ends(code: Bytes, limit: nat, m: Machine, H: Hasher) {
    exists steps: nat :: RunFor(code, limit, m, H, steps).Some?
  }

  /** The dearest opcode after which a run goes on. */
  const DEAREST: nat := 5000

  /** The limits under which no instruction that continues can wrap the counter past its check. */
  predicate Bounded(limit: nat) {
    limit + DEAREST < UINT64
  }

  /** Dispatch leaves the gas counter alone, and an opcode that continues costs from 2 to 5000. */
  lemma ExecGas(code: Bytes, op: byte, m: Machine, H: Hasher)
    requires 0 <= m.pc <= |code|
    ensures Exec(code, op, m, H).m.gasUsed == m.gasUsed
    ensures Exec(code, op, m, H).Continue? ==> 2 <= Gas(op) <= DEAREST
  {
  }

  /** An instruction that continues ends within the limit, and from within the limit it costs at least 2. */
  lemma StepGas(code: Bytes, limit: nat, m: Machine, H: Hasher)
    requires m.pc < |code| && Bounded(limit)
    ensures var n := Step(code, limit, m, H);
            && (n.Continue? ==> n.m.gasUsed <= limit)
            && (n.Continue? && m.gasUsed <= limit ==> m.gasUsed + 2 <= n.m.gasUsed)
            && (m.gasUsed <= limit ==> n.m.gasUsed <= limit)
  {
    if 0 <= m.pc {
      ExecGas(code, code[m.pc], m.(gasUsed := Add64(m.gasUsed, Gas(code[m.pc])), pc := m.pc + 1), H);
    }
  }

  /** Gas left, as a measure: it falls with every instruction that continues, also from a counter above the limit. */
  ghost function GasLeft(limit: nat, used: nat): nat {
    if used <= limit then limit - used + 1 else limit + 2
  }

  /** Run, which ends because gas does. */
  function Run(code: Bytes, limit: nat, m: Machine, H: Hasher): (Outcome, Machine)
    requires Bounded(limit)
    decreases GasLeft(limit, m.gasUsed)
  {
    if m.pc >= |code| then (Returned(m.output), m)
    else
      StepGas(code, limit, m, H);
      match Step(code, limit, m, H)
      case Halt(outcome, n) => (outcome, n)
      case Continue(n) => Run(code, limit, n, H)
  }

  lemma RunStep(code: Bytes, limit: nat, m: Machine, H: Hasher)
    requires Bounded(limit) && m.pc < |code|
    ensures var next := Step(code, limit, m, H);
            if next.Halt? then Run(code, limit, m, H) == (next.outcome, next.m)
            else && Run(code, limit, m, H) == Run(code, limit, next.m, H)
                 && GasLeft(limit, next.m.gasUsed) < GasLeft(limit, m.gasUsed)
  {
    StepGas(code, limit, m, H);
  }

  /** How many instructions a run starts. */
  ghost function Steps(code: Bytes, limit: nat, m: Machine, H: Hasher): nat
    requires Bounded(limit)
    decreases GasLeft(limit, m.gasUsed)
  {
    if m.pc >= |code| then 0
    else
      StepGas(code, limit, m, H);
      match Step(code, limit, m, H)
      case Halt(_, _) => 1
      case Continue(n) => 1 + Steps(code, limit, n, H)
  }

  /** A run takes at most one instruction for every two units of gas, one more to end and one to get below the limit. */
  lemma {:induction false} StepsBounded(code: Bytes, limit: nat, m: Machine, H: Hasher)
    requires Bounded(limit)
    ensures Steps(code, limit, m, H) <= if m.gasUsed <= limit then (limit - m.gasUsed) / 2 + 1 else limit / 2 + 2
    decreases GasLeft(limit, m.gasUsed)
  {
    if m.pc < |code| {
      StepGas(code, limit, m, H);
      match Step(code, limit, m, H)
      case Halt(_, _) =>
      case Continue(n) => StepsBounded(code, limit, n, H);
    }
  }

  /** Following a run for that many turns gives its end. */
  lemma {:induction false} RunEnds(code: Bytes, limit: nat, m: Machine, H: Hasher)
    requires Bounded(limit)
    ensures RunFor(code, limit, m, H, Steps(code, limit, m, H) + 1) == Some(Run(code, limit, m, H))
    decreases GasLeft(limit, m.gasUsed)
  {
    if m.pc < |code| {
      StepTurn(code, limit, m, H);
      RunStep(code, limit, m, H);
      match Step(code, limit, m, H)
      case Halt(_, _) =>
      case Continue(n) =>
        RunEnds(code, limit, n, H);
        assert Steps(code, limit, m, H) == Steps(code, limit, n, H) + 1;
    }
  }

  /** A run from within its limit never uses more gas than the limit. */
  lemma {:induction false} RunWithinLimit(code: Bytes, limit: nat, m: Machine, H: Hasher)
    requires Bounded(limit) && m.gasUsed <= limit
    ensures Run(code, limit, m, H).1.gasUsed <= limit
    decreases GasLeft(limit, m.gasUsed)
  {
    if m.pc < |code| {
      StepGas(code, limit, m, H);
      match Step(code, limit, m, H)
      case Halt(_, _) =>
      case Continue(n) => RunWithinLimit(code, limit, n, H);
    }
  }

  // ---- What programs compute ----

  /** SLOAD gives what SSTORE has written under the same 32 bytes of key, and under others what was there before. */
  lemma LoadAfterStore(code: Bytes, limit: nat, m: Machine, later: Machine, H: Hasher, key: Bytes, asked: Bytes)
    requires 0 <= m.pc < |code| && code[m.pc] == 0x71 && Step(code, limit, m, H).Continue?
    requires 0 <= later.pc < |code| && code[later.pc] == 0x70 && Step(code, limit, later, H).Continue?
    requires later.storage == Step(code, limit, m, H).m.storage
    requires IsKey(Under(m.stack, 1), key) && IsKey(Under(later.stack, 0), asked)
    ensures Step(code, limit, later, H).m.stack == Below(later.stack, 1)
            + [if asked == key then Under(m.stack, 0) else if asked in m.storage then m.storage[asked] else []]
  {
    StepLawful(code, limit, m, H);
    StepLawful(code, limit, later, H);
  }

  /** One more instruction of a run. */
  lemma RunOp(code: Bytes, limit: nat, m: Machine, H: Hasher, op: byte, gas: nat)
    requires Bounded(limit) && 0 <= m.pc < |code| && code[m.pc] == op && gas == Gas(op) && m.gasUsed + gas < UINT64
    ensures if m.gasUsed + gas > limit then Run(code, limit, m, H) == (OutOfGas, m)
            else
              var n := Exec(code, op, m.(gasUsed := m.gasUsed + gas, pc := m.pc + 1), H);
              Run(code, limit, m, H) == if n.Halt? then (n.outcome, n.m) else Run(code, limit, n.m, H)
  {
    RunStep(code, limit, m, H);
  }

  lemma ExecPush(code: Bytes, m: Machine, H: Hasher, x: byte)
    requires 0 <= m.pc < |code| && code[m.pc..m.pc + 1] == [x]
    ensures Exec(code, 0x01, m, H) == Continue(m.(stack := m.stack + [[x]], pc := m.pc + 1))
  {
  }

  lemma RunPush(code: Bytes, limit: nat, m: Machine, H: Hasher, x: byte)
    requires Bounded(limit) && 0 <= m.pc && m.pc + 1 < |code| && m.gasUsed + 3 < UINT64
    requires code[m.pc] == 0x01 && code[m.pc + 1] == x
    ensures Run(code, limit, m, H) ==
            if m.gasUsed + 3 > limit then (OutOfGas, m)
            else Run(code, limit, m.(pc := m.pc + 2, stack := m.stack + [[x]], gasUsed := m.gasUsed + 3), H)
  {
    StepPush(code, limit, m, H, x);
    RunStep(code, limit, m, H);
  }

  lemma StepPush(code: Bytes, limit: nat, m: Machine, H: Hasher, x: byte)
    requires 0 <= m.pc && m.pc + 1 < |code| && m.gasUsed + 3 < UINT64
    requires code[m.pc] == 0x01 && code[m.pc + 1] == x
    ensures Step(code, limit, m, H) ==
            if m.gasUsed + 3 > limit then Halt(OutOfGas, m)
            else Continue(m.(pc := m.pc + 2, stack := m.stack + [[x]], gasUsed := m.gasUsed + 3))
  {
    var charged := m.(gasUsed := m.gasUsed + 3, pc := m.pc + 1);
    assert code[charged.pc..charged.pc + 1] == [x];
    ExecPush(code, charged, H, x);
  }

  /** A new machine on this storage. */
  function Fresh(storage: map<Bytes, Bytes>): Machine {
    Machine(0, [], storage, 0, [])
  }

  /** Push two bytes, compute, return: the number comes back, for 9 units of gas or 11, and not for less. */
  lemma ComputingProgram(op: byte, x: byte, y: byte, limit: nat, storage: map<Bytes, Bytes>, H: Hasher)
    requires op in {0x40, 0x41, 0x42} && Bounded(limit)
    ensures var (o, m) := Run([0x01, x, 0x01, y, op, 0x84], limit, Fresh(storage), H);
            if limit < (if op == 0x42 then 11 else 9) then o == OutOfGas
            else
              && o.Returned? && m.storage == storage && m.gasUsed == (if op == 0x42 then 11 else 9)
              && (op == 0x40 ==> FromBytes(o.output) == x + y)
              && (op == 0x41 ==> FromBytes(o.output) == if x > y then x - y else y - x)
              && (op == 0x42 ==> FromBytes(o.output) == x * y)
  {
    var code: Bytes := [0x01, x, 0x01, y, op, 0x84];
    var m2 := Machine(4, [[x], [y]], storage, 6, []);
    PushTwo(code, limit, Fresh(storage), H, x, y);
    if limit >= 6 {
      FromByte(x);
      FromByte(y);
      ComputeAndReturn(code, limit, m2, H, op, if op == 0x42 then 5 else 3, Value(op, y, x));
    }
  }

  lemma ComputeAndReturn(code: Bytes, limit: nat, m: Machine, H: Hasher, op: byte, gas: nat, v: nat)
    requires Bounded(limit) && m.pc == 4 && |code| == 6 && code[4] == op && code[5] == 0x84 && m.gasUsed == 6
    requires op in {0x40, 0x41, 0x42} && gas == (if op == 0x42 then 5 else 3) && |m.stack| == 2
    requires v == Value(op, FromBytes(m.stack[1]), FromBytes(m.stack[0]))
    ensures var (o, n) := Run(code, limit, m, H);
            if limit < 6 + gas then o == OutOfGas
            else o.Returned? && FromBytes(o.output) == v && n.storage == m.storage && n.gasUsed == 6 + gas
  {
    var r := Combine(op, m.stack[1], m.stack[0]);
    CombineMeans(op, m.stack[1], m.stack[0]);
    ExecCombines(code, op, m.(gasUsed := 6 + gas, pc := 5), H, r);
    ComputeOp(code, limit, m, H, op, gas, r);
    if limit >= 6 + gas {
      ReturnTop(code, limit, Machine(5, [r], m.storage, 6 + gas, m.output), H, r);
    }
  }

  lemma ComputeOp(code: Bytes, limit: nat, m: Machine, H: Hasher, op: byte, gas: nat, r: Bytes)
    requires Bounded(limit) && m.pc == 4 < |code| && code[4] == op && m.gasUsed == 6 && |m.stack| == 2
    requires op in {0x40, 0x41, 0x42} && gas == (if op == 0x42 then 5 else 3)
    requires Pushes(m.(gasUsed := 6 + gas, pc := 5), Exec(code, op, m.(gasUsed := 6 + gas, pc := 5), H), 2, r)
    ensures Run(code, limit, m, H) ==
            if limit < 6 + gas then (OutOfGas, m)
            else Run(code, limit, Machine(5, [r], m.storage, 6 + gas, m.output), H)
  {
    assert Below(m.stack, 2) + [r] == [r];
    RunOp(code, limit, m, H, op, gas);
  }

  lemma ReturnTop(code: Bytes, limit: nat, m: Machine, H: Hasher, r: Bytes)
    requires Bounded(limit) && 0 <= m.pc < |code| && code[m.pc] == 0x84 && m.stack == [r] && m.gasUsed <= limit
    ensures var (o, n) := Run(code, limit, m, H);
            o == Returned(r) && n.storage == m.storage && n.gasUsed == m.gasUsed
  {
    RunOp(code, limit, m, H, 0x84, 0);
  }

  /**
   * Push a condition and a target, jump to it if the condition is not zero: one
   * of two bytes comes back, for 19 units of gas either way.
   */
  lemma BranchingProgram(c: byte, x: byte, y: byte, limit: nat, storage: map<Bytes, Bytes>, H: Hasher)
    requires Bounded(limit)
    ensures var (o, m) := Run([0x01, c, 0x01, 8, 0x61, 0x01, x, 0x84, 0x01, y, 0x84], limit, Fresh(storage), H);
            if limit < 19 then o == OutOfGas
            else o == Returned(if c != 0 then [y] else [x]) && m.storage == storage && m.gasUsed == 19
  {
    var code: Bytes := [0x01, c, 0x01, 8, 0x61, 0x01, x, 0x84, 0x01, y, 0x84];
    PushTwo(code, limit, Fresh(storage), H, c, 8);
    if limit >= 6 {
      var m := Machine(4, [[c], [8]], storage, 6, []);
      FromByte(8);
      BranchTo(code, limit, m, H, [c], [8], if c != 0 then 8 else 5);
      if limit >= 16 {
        PushAndReturn(code, limit, Machine(if c != 0 then 8 else 5, [], storage, 16, []), H, if c != 0 then y else x);
      }
    }
  }

  lemma PushTwo(code: Bytes, limit: nat, m: Machine, H: Hasher, x: byte, y: byte)
    requires Bounded(limit) && |code| > 4 && code[..4] == [0x01, x, 0x01, y] && m == Fresh(m.storage)
    ensures var (o, n) := Run(code, limit, m, H);
            if limit < 6 then o == OutOfGas
            else Run(code, limit, m, H) == Run(code, limit, Machine(4, [[x], [y]], m.storage, 6, []), H)
  {
    assert code[0] == code[..4][0] && code[1] == code[..4][1] && code[2] == code[..4][2] && code[3] == code[..4][3];
    assert [] + [[x]] == [[x]] && [[x]] + [[y]] == [[x], [y]];
    RunPush(code, limit, m, H, x);
    RunPush(code, limit, Machine(2, [[x]], m.storage, 3, []), H, y);
  }

  lemma BranchTo(code: Bytes, limit: nat, m: Machine, H: Hasher, cond: Bytes, target: Bytes, pc: nat)
    requires Bounded(limit) && m.pc == 4 < |code| && code[4] == 0x61 && m.gasUsed == 6 && m.stack == [cond, target]
    requires cond != [] && FromBytes(target) < 0x8000_0000_0000_0000
    requires pc == if cond[0] != 0 then FromBytes(target) else 5
    ensures if limit < 16 then Run(code, limit, m, H) == (OutOfGas, m)
            else Run(code, limit, m, H) == Run(code, limit, Machine(pc, [], m.storage, 16, m.output), H)
  {
    RunOp(code, limit, m, H, 0x61, 10);
    StackMeans(m.stack);
  }

  lemma PushAndReturn(code: Bytes, limit: nat, m: Machine, H: Hasher, x: byte)
    requires Bounded(limit) && 0 <= m.pc && m.pc + 2 < |code| && m.stack == [] && m.gasUsed + 3 < UINT64
    requires code[m.pc] == 0x01 && code[m.pc + 1] == x && code[m.pc + 2] == 0x84
    ensures var (o, n) := Run(code, limit, m, H);
            if limit < m.gasUsed + 3 then o == OutOfGas
            else o == Returned([x]) && n.storage == m.storage && n.gasUsed == m.gasUsed + 3
  {
    RunPush(code, limit, m, H, x);
    assert [] + [[x]] == [[x]];
    if limit >= m.gasUsed + 3 {
      ReturnTop(code, limit, Machine(m.pc + 2, [[x]], m.storage, m.gasUsed + 3, m.output), H, [x]);
    }
  }

  /** The 32 bytes of key that one byte stands for. */
  function ByteKey(b: byte): Bytes {
    [b, 0, 0, 0, 0, 0, 0, 0, 0, 0, 0, 0, 0, 0, 0, 0, 0, 0, 0, 0, 0, 0, 0, 0, 0, 0, 0, 0, 0, 0, 0, 0]
  }

  /** Store a value under a key, load a key, return: the value or what was there before, for 5209 units of gas. */
  lemma StoringProgram(k: byte, v: byte, j: byte, limit: nat, storage: map<Bytes, Bytes>, H: Hasher)
    requires Bounded(limit)
    ensures var (o, m) := Run([0x01, k, 0x01, v, 0x71, 0x01, j, 0x70, 0x84], limit, Fresh(storage), H);
            if limit < 5209 then o == OutOfGas
            else
              && o == Returned(if j == k then [v] else if ByteKey(j) in storage then storage[ByteKey(j)] else [])
              && m.storage == storage[ByteKey(k) := [v]] && m.gasUsed == 5209
  {
    assert ByteKey(j)[0] == j && ByteKey(k)[0] == k;
    StoreAndLoad([0x01, k, 0x01, v, 0x71, 0x01, j, 0x70, 0x84], limit, storage, H, k, v, j, ByteKey(k), ByteKey(j));
  }

  lemma StoreAndLoad(code: Bytes, limit: nat, storage: map<Bytes, Bytes>, H: Hasher, k: byte, v: byte, j: byte,
                     slot: Bytes, asked: Bytes)
    requires Bounded(limit) && code == [0x01, k, 0x01, v, 0x71, 0x01, j, 0x70, 0x84]
    requires IsKey([k], slot) && IsKey([j], asked)
    ensures var (o, m) := Run(code, limit, Fresh(storage), H);
            if limit < 5209 then o == OutOfGas
            else
              && o == Returned(if asked == slot then [v] else if asked in storage then storage[asked] else [])
              && m.storage == storage[slot := [v]] && m.gasUsed == 5209
  {
    PushTwo(code, limit, Fresh(storage), H, k, v);
    if limit >= 6 {
      StoreOp(code, limit, Machine(4, [[k], [v]], storage, 6, []), H, [k], slot, [v]);
    }
    if limit >= 5006 {
      LoadAndReturn(code, limit, Machine(5, [], storage[slot := [v]], 5006, []), H, j, asked);
    }
  }

  lemma LoadAndReturn(code: Bytes, limit: nat, m: Machine, H: Hasher, j: byte, asked: Bytes)
    requires Bounded(limit) && m.pc == 5 && |code| == 9 && code[5] == 0x01 && code[6] == j && code[7] == 0x70
    requires code[8] == 0x84 && m.gasUsed == 5006 && m.stack == [] && IsKey([j], asked)
    ensures var (o, n) := Run(code, limit, m, H);
            if limit < 5209 then o == OutOfGas
            else
              && o == Returned(if asked in m.storage then m.storage[asked] else [])
              && n.storage == m.storage && n.gasUsed == 5209
  {
    RunPush(code, limit, m, H, j);
    assert [] + [[j]] == [[j]];
    var r := if asked in m.storage then m.storage[asked] else [];
    if limit >= 5009 {
      LoadOp(code, limit, Machine(7, [[j]], m.storage, 5009, m.output), H, [j], asked, r);
    }
    if limit >= 5209 {
      ReturnTop(code, limit, Machine(8, [r], m.storage, 5209, m.output), H, r);
    }
  }

  lemma StoreOp(code: Bytes, limit: nat, m: Machine, H: Hasher, key: Bytes, slot: Bytes, val: Bytes)
    requires Bounded(limit) && m.pc == 4 < |code| && code[4] == 0x71 && m.gasUsed == 6 && m.stack == [key, val]
    requires IsKey(key, slot)
    ensures Run(code, limit, m, H) ==
            if limit < 5006 then (OutOfGas, m)
            else Run(code, limit, Machine(5, [], m.storage[slot := val], 5006, m.output), H)
  {
    RunOp(code, limit, m, H, 0x71, 5000);
    var charged := m.(gasUsed := 5006, pc := 5);
    ExecStores(code, 0x71, charged, H);
    assert Under(charged.stack, 1) == key && Under(charged.stack, 0) == val && Below(charged.stack, 2) == [];
  }

  lemma LoadOp(code: Bytes, limit: nat, m: Machine, H: Hasher, key: Bytes, slot: Bytes, r: Bytes)
    requires Bounded(limit) && m.pc == 7 < |code| && code[7] == 0x70 && m.gasUsed == 5009 && m.stack == [key]
    requires IsKey(key, slot) && r == if slot in m.storage then m.storage[slot] else []
    ensures Run(code, limit, m, H) ==
            if limit < 5209 then (OutOfGas, m)
            else Run(code, limit, Machine(8, [r], m.storage, 5209, m.output), H)
  {
    RunOp(code, limit, m, H, 0x70, 200);
    var charged := m.(gasUsed := 5209, pc := 8);
    ExecStores(code, 0x70, charged, H);
    assert Under(charged.stack, 0) == key && Below(charged.stack, 1) + [r] == [r];
  }

  // ---- The price of a run ----

  function Max(a: nat, b: nat): nat {
    if a >= b then a else b
  }

  /** The price of a run: the largest value the gas counter is charged to. */
  function PriceOf(turn: Machine -> Turn, m: Machine, steps: nat): nat
    decreases steps
  {
    if steps == 0 then 0
    else match turn(m).next
      case Halt(_, _) => turn(m).charge
      case Continue(n) => Max(turn(m).charge, PriceOf(turn, n, steps - 1))
  }

  function Price(code: Bytes, m: Machine, H: Hasher, steps: nat): nat {
    PriceOf(Fetch(code, H), m, steps)
  }

  /** A run that ended, but not out of gas. */
  predicate Finished(end: Option<(Outcome, Machine)>) {
    end.Some? && end.value.0 != OutOfGas
  }

  /** A metered machine that ends in time ends the same way under the limits that cover its price, and no others. */
  lemma {:induction false} FollowHasPrice(turn: Machine -> Turn, limit: nat, other: nat, m: Machine, steps: nat)
    requires Finished(Follow(turn, limit, m, steps))
    requires forall n :: turn(n).next.Halt? ==> turn(n).next.outcome != OutOfGas
    ensures PriceOf(turn, m, steps) <= limit
    ensures Follow(turn, other, m, steps).Some?
    ensures Finished(Follow(turn, other, m, steps)) <==> PriceOf(turn, m, steps) <= other
    ensures Finished(Follow(turn, other, m, steps)) ==> Follow(turn, other, m, steps) == Follow(turn, limit, m, steps)
    decreases steps
  {
    match turn(m).next
    case Halt(_, _) =>
    case Continue(n) => FollowHasPrice(turn, limit, other, n, steps - 1);
  }

  /**
   * A run that ends, but not out of gas, has a price, whatever its limit: under
   * another limit it gives the same outcome, stack, storage and gas if and only
   * if that covers the price, and ends out of gas otherwise.
   */
  lemma RunHasPrice(code: Bytes, limit: nat, other: nat, m: Machine, H: Hasher, steps: nat)
    requires Finished(RunFor(code, limit, m, H, steps))
    ensures Price(code, m, H, steps) <= limit
    ensures RunFor(code, other, m, H, steps).Some?
    ensures Finished(RunFor(code, other, m, H, steps)) <==> Price(code, m, H, steps) <= other
    ensures Finished(RunFor(code, other, m, H, steps))
            ==> RunFor(code, other, m, H, steps) == RunFor(code, limit, m, H, steps)
  {
    forall n | Fetch(code, H)(n).next.Halt? ensures Fetch(code, H)(n).next.outcome != OutOfGas {
    }
    FollowHasPrice(Fetch(code, H), limit, other, m, steps);
  }

  /** A turn that passes its gas check leaves the counter where it charged it, or where it was, and never lower. */
  predicate Metered(limit: nat, used: nat, t: Turn) {
    used <= limit && t.charge <= limit ==> used <= t.next.m.gasUsed <= limit && t.next.m.gasUsed == Max(used, t.charge)
  }

  predicate Meters(turn: Machine -> Turn, limit: nat, m: Machine) {
    Metered(limit, m.gasUsed, turn(m))
  }

  lemma {:induction false} PriceIsLast(turn: Machine -> Turn, limit: nat, m: Machine, steps: nat)
    requires Finished(Follow(turn, limit, m, steps)) && m.gasUsed <= limit
    requires forall n :: Meters(turn, limit, n)
    ensures Follow(turn, limit, m, steps).value.1.gasUsed == Max(m.gasUsed, PriceOf(turn, m, steps))
    decreases steps
  {
    assert Meters(turn, limit, m);
    match turn(m).next
    case Halt(_, _) =>
    case Continue(n) => PriceIsLast(turn, limit, n, steps - 1);
  }

  /** With no opcode able to wrap the counter, the price is the gas used at the end. */
  lemma PriceIsGasUsed(code: Bytes, limit: nat, m: Machine, H: Hasher)
    requires limit + 100000 < UINT64 && m.gasUsed <= limit
    requires Run(code, limit, m, H).0 != OutOfGas
    ensures Run(code, limit, m, H).1.gasUsed == Max(m.gasUsed, Price(code, m, H, Steps(code, limit, m, H) + 1))
  {
    RunEnds(code, limit, m, H);
    forall n ensures Meters(Fetch(code, H), limit, n) {
      FetchMeters(code, limit, n, H);
    }
    PriceRead(Fetch(code, H), limit, m, Steps(code, limit, m, H) + 1, Run(code, limit, m, H));
  }

  lemma PriceRead(turn: Machine -> Turn, limit: nat, m: Machine, steps: nat, end: (Outcome, Machine))
    requires Follow(turn, limit, m, steps) == Some(end) && end.0 != OutOfGas && m.gasUsed <= limit
    requires forall n :: Meters(turn, limit, n)
    ensures end.1.gasUsed == Max(m.gasUsed, PriceOf(turn, m, steps))
  {
    PriceIsLast(turn, limit, m, steps);
  }

  lemma FetchMeters(code: Bytes, limit: nat, m: Machine, H: Hasher)
    requires limit + 100000 < UINT64
    ensures Meters(Fetch(code, H), limit, m)
  {
    if 0 <= m.pc < |code| {
      var charge := Add64(m.gasUsed, Gas(code[m.pc]));
      ChargeMeters(code, code[m.pc], limit, m.gasUsed, m.(gasUsed := charge, pc := m.pc + 1), H);
    }
  }

  lemma ChargeMeters(code: Bytes, op: byte, limit: nat, used: nat, charged: Machine, H: Hasher)
    requires limit + 100000 < UINT64 && 0 <= charged.pc <= |code| && charged.gasUsed == Add64(used, Gas(op))
    ensures Metered(limit, used, Turn(charged.gasUsed, Exec(code, op, charged, H)))
  {
    ExecGas(code, op, charged, H);
    if used <= limit {
      assert Add64(used, Gas(op)) == used + Gas(op);
    }
  }

  // ---- Overflow ----

  /** No instruction under this limit lowers the gas counter. */
  ghost predicate NeverLowers(limit: nat, H: Hasher) {
    forall code: Bytes, m: Machine ::
      m.pc < |code| && m.gasUsed <= limit ==> m.gasUsed <= Step(code, limit, m, H).m.gasUsed
  }

  /** That is so exactly while the dearest opcode of all cannot wrap it, also one that only fails. */
  lemma CounterNeverFalls(limit: nat, H: Hasher)
    requires limit < UINT64
    ensures NeverLowers(limit, H) <==> limit + 100000 < UINT64
  {
    if limit + 100000 < UINT64 {
      forall code: Bytes, m: Machine | m.pc < |code| && m.gasUsed <= limit
        ensures m.gasUsed <= Step(code, limit, m, H).m.gasUsed
      {
        if 0 <= m.pc {
          ExecGas(code, code[m.pc], m.(gasUsed := Add64(m.gasUsed, Gas(code[m.pc])), pc := m.pc + 1), H);
        }
      }
    } else {
      var m := Machine(0, [], map[], limit, []);
      assert Add64(limit, Gas(0xA0)) == limit + 100000 - UINT64;
      assert Step([0xA0], limit, m, H).m.gasUsed < m.gasUsed;
    }
  }

  function Repeat(op: byte, n: nat): (b: Bytes)
    ensures |b| == n && forall i :: 0 <= i < n ==> b[i] == op
  {
    if n == 0 then [] else Repeat(op, n - 1) + [op]
  }

  const POPS: nat := 1589

  /** What one round of the loop below costs; it divides 2^64. */
  const ROUND: nat := 8192

  /** 1598 bytes: PUSH1 3, JUMP, then round and round: PUSH1 0, 1589 times POP, SSTORE, PUSH1 3, JUMP. */
  function Spin(): (code: Bytes)
    ensures |code| == POPS + 9
  {
    [OP_PUSH1, 3, OP_JUMP, OP_PUSH1, 0] + Repeat(OP_POP, POPS) + [OP_SSTORE, OP_PUSH1, 3, OP_JUMP]
  }

  lemma SpinCode()
    ensures var c := Spin();
            && c[0] == OP_PUSH1 && c[1] == 3 && c[2] == OP_JUMP && c[3] == OP_PUSH1 && c[4] == 0
            && (forall i :: 5 <= i < 5 + POPS ==> c[i] == OP_POP)
            && c[5 + POPS] == OP_SSTORE && c[6 + POPS] == OP_PUSH1 && c[7 + POPS] == 3 && c[8 + POPS] == OP_JUMP
  {
  }

  /** What the counter stands at, modulo one round, when the run is at a position; rounds end after the SSTORE. */
  ghost function Offset(pc: int): Option<nat> {
    if pc == 0 || pc == 6 + POPS then Some(0)
    else if pc == 2 || pc == 8 + POPS then Some(3)
    else if pc == 3 then Some(11)
    else if 5 <= pc <= 5 + POPS then Some(14 + 2 * (pc - 5))
    else None
  }

  /** Position, counter and stack of the spinning run. */
  ghost predicate Spinning(m: Machine) {
    && Offset(m.pc).Some? && m.gasUsed < UINT64 && m.gasUsed % ROUND == Offset(m.pc).value
    && m.stack == if m.pc == 2 || m.pc == 8 + POPS then [[3]] else if m.pc == 5 then [[0]] else []
  }

  /** Within a round the counter passes the check and keeps its offset; the end of a round may wrap it to zero. */
  lemma SpinCharge(used: nat, offset: nat, gas: nat, limit: nat)
    requires used < UINT64 && used % ROUND == offset && UINT64 - DEAREST <= limit
    requires offset + gas <= ROUND - DEAREST || offset + gas == ROUND
    ensures Add64(used, gas) <= limit && Add64(used, gas) % ROUND == (offset + gas) % ROUND
  {
    var rounds := used / ROUND;
    assert used == rounds * ROUND + offset && UINT64 == 0x8_0000_0000_0000 * ROUND;
    assert used + gas == rounds * ROUND + (offset + gas);
    assert rounds < 0x8_0000_0000_0000;
  }

  lemma SpinStep(m: Machine, limit: nat, H: Hasher)
    requires Spinning(m) && UINT64 - DEAREST <= limit
    ensures m.pc < |Spin()|
    ensures Step(Spin(), limit, m, H).Continue? && Spinning(Step(Spin(), limit, m, H).m)
  {
    SpinCode();
    var c := Spin();
    SpinCharge(m.gasUsed, Offset(m.pc).value, Gas(c[m.pc]), limit);
    assert FromBytes([3]) == FromBytes([3][..0]) * 256 + 3;
    assert c[1..2] == [3] && c[4..5] == [0] && c[7 + POPS..8 + POPS] == [3];
  }

  /** This turn passes the gas check, does not halt and keeps an invariant. */
  ghost predicate Rolls(turn: Machine -> Turn, limit: nat, keeps: Machine -> bool, m: Machine) {
    turn(m).charge <= limit && turn(m).next.Continue? && keeps(turn(m).next.m)
  }

  lemma SpinRolls(m: Machine, limit: nat, H: Hasher)
    requires Spinning(m) && UINT64 - DEAREST <= limit
    ensures Rolls(Fetch(Spin(), H), limit, Spinning, m)
  {
    SpinStep(m, limit, H);
    StepTurn(Spin(), limit, m, H);
  }

  lemma {:induction false} RollsOn(turn: Machine -> Turn, limit: nat, keeps: Machine -> bool, m: Machine, steps: nat)
    requires keeps(m) && forall n :: keeps(n) ==> Rolls(turn, limit, keeps, n)
    ensures Follow(turn, limit, m, steps) == None
    decreases steps
  {
    if steps > 0 {
      assert Rolls(turn, limit, keeps, m);
      RollsOn(turn, limit, keeps, turn(m).next.m, steps - 1);
    }
  }

  /** Under any larger limit a fresh interpreter can run for ever: the counter wraps at the SSTORE. */
  lemma SpinNeverEnds(limit: nat, H: Hasher)
    requires !Bounded(limit)
    ensures !Ends(Spin(), limit, Machine(0, [], map[], 0, []), H)
  {
    var m := Machine(0, [], map[], 0, []);
    forall n | Spinning(n) ensures Rolls(Fetch(Spin(), H), limit, Spinning, n) {
      SpinRolls(n, limit, H);
    }
    forall steps: nat ensures RunFor(Spin(), limit, m, H, steps) == None {
      RollsOn(Fetch(Spin(), H), limit, Spinning, m, steps);
    }
  }

  /** Every run ends, of any code and from any start, exactly while the limit is below 2^64 - 5000. */
  lemma EveryRunEnds(limit: nat, H: Hasher)
    ensures Bounded(limit) <==> forall code: Bytes, m: Machine :: Ends(code, limit, m, H)
  {
    if Bounded(limit) {
      forall code: Bytes, m: Machine ensures Ends(code, limit, m, H) {
        RunEnds(code, limit, m, H);
      }
    } else {
      SpinNeverEnds(limit, H);
    }
  }

  // ---- The object ----

  class Interpreter {
    const code: Bytes
    const hash: Hasher
    const gasLimit: nat
    var pc: int
    var stack: seq<Bytes>
    var storage: map<Bytes, Bytes>
    var gasUsed: nat
    var output: Bytes

    ghost function Value(): Machine
      reads this
    {
      Machine(pc, stack, storage, gasUsed, output)
    }

    constructor (code: Bytes, hash: Hasher, gasLimit: nat, storage: map<Bytes, Bytes>, gasUsed: nat)
      ensures this.code == code && this.hash == hash && this.gasLimit == gasLimit
      ensures Value() == Machine(0, [], storage, gasUsed, [])
    {
      this.code, this.hash, this.gasLimit := code, hash, gasLimit;
      this.pc, this.stack, this.storage, this.gasUsed, this.output := 0, [], storage, gasUsed, [];
    }

    method Pop() returns (top: Bytes)
      modifies this`stack
      ensures top == Top(old(stack)) && stack == Rest(old(stack))
    {
      if stack == [] {
        return [];
      }
      top := stack[|stack| - 1];
      stack := stack[..|stack| - 1];
    }

    method Push(val: Bytes)
      modifies this`stack
      ensures stack == old(stack) + [val]
    {
      stack := stack + [val];
    }

    /** Sets pc, or ends the run when the target is not a uint64. */
    method JumpTo(target: Bytes) returns (halted: Option<Outcome>)
      modifies this`pc
      ensures Jump(old(Value()), target) == (if halted.None? then Continue(Value()) else Halt(halted.value, Value()))
    {
      var t := FromBytes(target);
      if t >= UINT64 {
        return Some(JumpTooLarge);
      }
      pc := JumpTarget(t);
      return None;
    }

    /** The loop over the bytes in ISZERO. */
    method AllZero(a: Bytes) returns (isZero: bool)
      ensures isZero == IsZero(a)
    {
      for i := 0 to |a|
        invariant forall j :: 0 <= j < i ==> a[j] == 0
      {
        if a[i] != 0 {
          return false;
        }
      }
      return true;
    }

    /** How far a run is after an instruction. */
    ghost function After(halted: Option<Outcome>): Next
      reads this
    {
      if halted.None? then Continue(Value()) else Halt(halted.value, Value())
    }

    /** One opcode. */
    method Dispatch(op: byte) returns (halted: Option<Outcome>)
      requires 0 <= pc <= |code|
      modifies this
      ensures Exec(code, op, old(Value()), hash) == After(halted)
      ensures Lawful(code, op, old(Value()), After(halted), hash)
    {
      ExecLawful(code, op, Value(), hash);
      halted := Switch(op);
    }

    /** Run's switch. */
    method Switch(op: byte) returns (halted: Option<Outcome>)
      requires 0 <= pc <= |code|
      modifies this
      ensures Exec(code, op, old(Value()), hash) == After(halted)
    {
      halted := None;
      if op == OP_STOP {
        halted := Some(Returned(output));
      } else if op == OP_PUSH1 || op == OP_PUSH32 {
        if pc + op > |code| {
          return Some(PushExceedsCode);
        }
        Push(code[pc..pc + op]);
        pc := pc + op;
      } else if op == OP_POP {
        var a := Pop();
      } else if op == OP_DUP {
        if stack == [] {
          return Some(Trap);
        }
        Push(stack[|stack| - 1]);
      } else if op in BINARY {
        var a := Pop();
        var b := Pop();
        Push(Combine(op, a, b));
      } else if op == OP_ISZERO {
        var a := Pop();
        var isZero := AllZero(a);
        Push(Flag(isZero));
      } else if op == OP_JUMP {
        var target := Pop();
        halted := JumpTo(target);
      } else if op == OP_JUMPI {
        var target := Pop();
        var cond := Pop();
        if |cond| > 0 && cond[0] != 0 {
          halted := JumpTo(target);
        }
      } else if op == OP_SLOAD {
        var key := Pop();
        Push(if Key(key) in storage then storage[Key(key)] else []);
      } else if op == OP_SSTORE {
        var val := Pop();
        var key := Pop();
        storage := storage[Key(key) := val];
      } else if op == OP_RETURN {
        output := Pop();
        halted := Some(Returned(output));
      } else if op == OP_REVERT {
        halted := Some(Reverted);
      } else if op == OP_SHA256 {
        var data := Pop();
        Push(hash(data));
      } else {
        halted := Some(UnknownOpcode);
      }
    }

    /** The body of Run's loop: check and charge the gas, move past the opcode, switch. */
    method Turn() returns (halted: Option<Outcome>)
      requires pc < |code|
      modifies this
      ensures Step(code, gasLimit, old(Value()), hash) == After(halted)
    {
      if pc < 0 {
        return Some(Trap);
      }
      var op := code[pc];
      if Add64(gasUsed, Gas(op)) > gasLimit {
        return Some(OutOfGas);
      }
      gasUsed := Add64(gasUsed, Gas(op));
      pc := pc + 1;
      halted := Dispatch(op);
    }

    /** The fetch-execute loop. */
    method RunAll() returns (outcome: Outcome)
      requires Bounded(gasLimit)
      modifies this
      ensures (outcome, Value()) == Run(code, gasLimit, old(Value()), hash)
    {
      ghost var start := Value();
      while pc < |code|
        invariant Run(code, gasLimit, Value(), hash) == Run(code, gasLimit, start, hash)
        decreases GasLeft(gasLimit, gasUsed)
      {
        RunStep(code, gasLimit, Value(), hash);
        var halted := Turn();
        if halted.Some? {
          return halted.value;
        }
      }
      return Returned(output);
    }
  }
}
