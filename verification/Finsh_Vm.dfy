/** The stack machine of the shell: opcodes, one step, and the fetch loop. */
module FinshVm {
  import opened Wrappers
  import opened FinshWord
  import opened FinshArith

  const FINSH_STACK_MAX: nat := 64
  const FINSH_TEXT_MAX: nat := 128

  const OP_NOOP: byte := 0x00
  const OP_BITWISE_DWORD: byte := 0x1B
  const OP_LD_DWORD: byte := 0x24
  const OP_LD_VALUE_DWORD: byte := 0x27
  const OP_ST_DWORD: byte := 0x2A
  const OP_POP: byte := 0x2B
  const OP_LD_VALUE_DWORD_STACK: byte := 0x2F

  function OpCode(op: BinOp): byte {
    match op
    case Add => 0x03
    case Sub => 0x06
    case Div => 0x09
    case Mod => 0x0C
    case Mul => 0x0F
    case And => 0x12
    case Or => 0x15
    case Xor => 0x18
    case Shl => 0x1E
    case Shr => 0x21
  }

  /** The row of the operation table that holds a binary DWORD operation, if `c` is one. */
  function DecodeBin(c: byte): Option<BinOp> {
    if c == 0x03 then Some(Add)
    else if c == 0x06 then Some(Sub)
    else if c == 0x09 then Some(Div)
    else if c == 0x0C then Some(Mod)
    else if c == 0x0F then Some(Mul)
    else if c == 0x12 then Some(And)
    else if c == 0x15 then Some(Or)
    else if c == 0x18 then Some(Xor)
    else if c == 0x1E then Some(Shl)
    else if c == 0x21 then Some(Shr)
    else None
  }

  /** Machine state: program counter, the stack below the stack pointer, and the long cells of memory. */
  datatype Vm = Vm(pc: nat, stack: seq<word>, mem: Memory)

  predicate Room(s: Vm) { |s.stack| < FINSH_STACK_MAX }

  function Push(s: Vm, v: word): Vm { s.(stack := s.stack + [v]) }

  /** `s` with its top `n` cells replaced by `v`. */
  function Replace(s: Vm, n: nat, v: word): Vm
    requires n <= |s.stack|
  {
    s.(stack := s.stack[..|s.stack| - n] + [v])
  }

  /** OP_BIN_DWORD. */
  function BinStep(op: BinOp, s: Vm): Option<Vm> {
    var n := |s.stack|;
    if n < 2 then None
    else
      match Arith(op, s.stack[n - 2], s.stack[n - 1])
      case None => None
      case Some(v) => Some(Replace(s, 2, v))
  }

  /** OP_ld_dword and OP_ld_value_dword; the program counter is at the operand. */
  function LoadStep(indirect: bool, text: seq<byte>, s: Vm): Option<Vm> {
    if s.pc + 4 > |text| || !Room(s) then None
    else
      var v := GetDword(text, s.pc);
      if !indirect then Some(Push(s, v).(pc := s.pc + 4))
      else if v as nat in s.mem then Some(Push(s, s.mem[v as nat]).(pc := s.pc + 4))
      else None
  }

  /** OP_bw_dword. */
  function BitwiseStep(s: Vm): Option<Vm> {
    var n := |s.stack|;
    if n < 1 then None else Some(Replace(s, 1, Complement(s.stack[n - 1])))
  }

  /** OP_ld_value_dword_stack. */
  function DerefStep(s: Vm): Option<Vm> {
    var n := |s.stack|;
    if n < 1 || s.stack[n - 1] as nat !in s.mem then None else Some(Replace(s, 1, s.mem[s.stack[n - 1] as nat]))
  }

  /** OP_pop. */
  function PopStep(s: Vm): Option<Vm> {
    if |s.stack| < 1 then None else Some(s.(stack := s.stack[..|s.stack| - 1]))
  }

  /** OP_st_dword: the address stays on the stack. */
  function StoreStep(s: Vm): Option<Vm> {
    var n := |s.stack|;
    if n < 2 || s.stack[n - 2] as nat !in s.mem then None
    else Some(s.(stack := s.stack[..n - 1], mem := s.mem[s.stack[n - 2] as nat := s.stack[n - 1]]))
  }

  /**
   * The operation table, applied with the program counter already past the opcode. None stands
   * for an access outside the stack, the text or the modelled memory, an undefined C operation,
   * or an opcode outside the DWORD set.
   */
  function Operate(op: byte, text: seq<byte>, s: Vm): Option<Vm> {
    if op == OP_NOOP then Some(s)
    else if DecodeBin(op).Some? then BinStep(DecodeBin(op).value, s)
    else if op == OP_BITWISE_DWORD then BitwiseStep(s)
    else if op == OP_LD_DWORD then LoadStep(false, text, s)
    else if op == OP_LD_VALUE_DWORD then LoadStep(true, text, s)
    else if op == OP_LD_VALUE_DWORD_STACK then DerefStep(s)
    else if op == OP_ST_DWORD then StoreStep(s)
    else if op == OP_POP then PopStep(s)
    else None
  }

  /** One turn of the fetch loop. */
  function Step(text: seq<byte>, s: Vm): (t: Option<Vm>)
    requires s.pc < |text|
    ensures t.Some? ==> s.pc < t.value.pc
  {
    Operate(text[s.pc], text, s.(pc := s.pc + 1))
  }

  /** The whole run: fetch until the program counter leaves the text segment. */
  function RunFrom(text: seq<byte>, s: Vm): Option<Vm>
    decreases |text| - s.pc
  {
    if s.pc >= |text| then Some(s)
    else
      match Step(text, s)
      case None => None
      case Some(t) => RunFrom(text, t)
  }

  /** The machine as the source holds it: global arrays, stack pointer and program counter. */
  class Machine {
    const text: array<byte>
    const stack: array<word>
    var sp: nat
    var pc: nat
    var mem: Memory

    constructor (mem: Memory)
      ensures text.Length == FINSH_TEXT_MAX && stack.Length == FINSH_STACK_MAX
      ensures fresh(text) && fresh(stack) && this.mem == mem
    {
      text := new byte[FINSH_TEXT_MAX](_ => 0);
      stack := new word[FINSH_STACK_MAX](_ => 0);
      sp, pc := 0, 0;
      this.mem := mem;
    }

    ghost predicate Valid()
      reads this
    {
      stack.Length == FINSH_STACK_MAX && sp <= FINSH_STACK_MAX
    }

    ghost function State(): Vm
      reads this, stack
      requires Valid()
    {
      Vm(pc, stack[..sp], mem)
    }

    /** What an operation leaves: the new state, or None when it was not defined. */
    ghost function Outcome(ok: bool): Option<Vm>
      reads this, stack
      requires Valid()
    {
      if ok then Some(State()) else None
    }

    method BinDword(op: BinOp) returns (ok: bool)
      requires Valid()
      modifies this, stack
      ensures Valid() && Outcome(ok) == BinStep(op, old(State()))
      ensures old(sp) >= 2 ==> Means(op, old(stack[sp - 2]), old(stack[sp - 1]), if ok then Some(stack[sp - 1]) else None)
    {
      if sp < 2 {
        return false;
      }
      var r := Arith(op, stack[sp - 2], stack[sp - 1]);
      ArithMeans(op, stack[sp - 2], stack[sp - 1]);
      hide Means, Arith;
      if r.None? {
        return false;
      }
      stack[sp - 2] := r.value;
      sp := sp - 1;
      assert stack[..sp] == old(stack[..sp])[..old(sp) - 2] + [r.value];
      ok := true;
    }

    method BitwiseDword() returns (ok: bool)
      requires Valid()
      modifies stack
      ensures Valid() && Outcome(ok) == BitwiseStep(old(State()))
      ensures ok ==> Inverts(old(stack[sp - 1]), stack[sp - 1])
    {
      if sp < 1 {
        return false;
      }
      ComplementInverts(stack[sp - 1]);
      stack[sp - 1] := Complement(stack[sp - 1]);
      assert stack[..sp] == old(stack[..sp])[..sp - 1] + [stack[sp - 1]];
      ok := true;
    }

    method LoadDword(indirect: bool) returns (ok: bool)
      requires Valid()
      modifies this, stack
      ensures Valid() && Outcome(ok) == LoadStep(indirect, old(text[..]), old(State()))
    {
      if pc + 4 > text.Length || sp >= FINSH_STACK_MAX {
        return false;
      }
      var v := GetDword(text[..], pc);
      if indirect {
        if v as nat !in mem {
          return false;
        }
        v := mem[v as nat];
      }
      stack[sp] := v;
      sp := sp + 1;
      assert stack[..sp] == old(stack[..sp]) + [v];
      pc := pc + 4;
      ok := true;
    }

    method LoadValueDwordStack() returns (ok: bool)
      requires Valid()
      modifies stack
      ensures Valid() && Outcome(ok) == DerefStep(old(State()))
    {
      if sp < 1 || stack[sp - 1] as nat !in mem {
        return false;
      }
      stack[sp - 1] := mem[stack[sp - 1] as nat];
      assert stack[..sp] == old(stack[..sp])[..sp - 1] + [stack[sp - 1]];
      ok := true;
    }

    method StoreDword() returns (ok: bool)
      requires Valid()
      modifies this
      ensures Valid() && Outcome(ok) == StoreStep(old(State()))
    {
      if sp < 2 || stack[sp - 2] as nat !in mem {
        return false;
      }
      mem := mem[stack[sp - 2] as nat := stack[sp - 1]];
      sp := sp - 1;
      assert stack[..sp] == old(stack[..sp])[..sp];
      ok := true;
    }

    method Pop() returns (ok: bool)
      requires Valid()
      modifies this
      ensures Valid() && Outcome(ok) == PopStep(old(State()))
    {
      if sp < 1 {
        return false;
      }
      sp := sp - 1;
      assert stack[..sp] == old(stack[..sp])[..sp];
      ok := true;
    }

    /** The call through the operation table. */
    method Dispatch(op: byte) returns (ok: bool)
      requires Valid()
      modifies this, stack
      ensures Valid() && Outcome(ok) == Operate(op, old(text[..]), old(State()))
    {
      ok := true;
      if op == OP_NOOP {
      } else if DecodeBin(op).Some? {
        ok := BinDword(DecodeBin(op).value);
      } else if op == OP_BITWISE_DWORD {
        ok := BitwiseDword();
      } else if op == OP_LD_DWORD {
        ok := LoadDword(false);
      } else if op == OP_LD_VALUE_DWORD {
        ok := LoadDword(true);
      } else if op == OP_LD_VALUE_DWORD_STACK {
        ok := LoadValueDwordStack();
      } else if op == OP_ST_DWORD {
        ok := StoreDword();
      } else if op == OP_POP {
        ok := Pop();
      } else {
        ok := false;
      }
    }

    /** finsh_vm_run: the answer is false exactly when some step is undefined. */
    method Run() returns (ok: bool)
      requires Valid()
      modifies this, stack
      ensures Valid() && text[..] == old(text[..])
      ensures Outcome(ok) == RunFrom(text[..], Vm(0, [], old(mem)))
    {
      sp := 0;
      pc := 0;
      ghost var code, start := text[..], State();
      while pc < text.Length
        invariant Valid() && text[..] == code
        invariant RunFrom(code, start) == RunFrom(code, State())
        decreases text.Length - pc
      {
        ghost var before := State();
        var op := text[pc];
        pc := pc + 1;
        ok := Dispatch(op);
        assert Outcome(ok) == Step(code, before);
        if !ok {
          return false;
        }
      }
      ok := true;
    }
  }
}
