/** The compiler preserves meaning: the emitted bytes compute what a left-to-right evaluator computes. */
module FinshCorrect {
  import opened Wrappers
  import opened FinshWord
  import opened FinshArith
  import opened FinshVm
  import opened FinshNode
  import opened FinshCompiler

  /** Source expressions. `Step` is `++`/`--`, in prefix position when `before` holds. */
  datatype Expr =
    | Const(w: word)
    | Var(v: nat)
    | Bin(op: BinOp, left: Expr, right: Expr)
    | Not(e: Expr)
    | Set(v: nat, value: Expr)
    | Step(v: nat, before: bool, up: bool)

  type Store = seq<word>

  /** Left-to-right evaluation with 32-bit wrap-around; None where C leaves an operation undefined. */
  function Eval(e: Expr, store: Store): (r: Option<(word, Store)>)
    requires InScope(e, |store|)
    ensures r.Some? ==> |r.value.1| == |store|
  {
    match e
    case Const(w) => Some((w, store))
    case Var(v) => Some((store[v], store))
    case Bin(op, left, right) => (
      match Eval(left, store)
      case None => None
      case Some((x, store1)) =>
        match Eval(right, store1)
        case None => None
        case Some((y, store2)) =>
          match Arith(op, x, y)
          case None => None
          case Some(z) => Some((z, store2)))
    case Not(e1) => (
      match Eval(e1, store)
      case None => None
      case Some((x, store1)) => Some((Complement(x), store1)))
    case Set(v, e1) => (
      match Eval(e1, store)
      case None => None
      case Some((x, store1)) => Some((x, store1[v := x])))
    case Step(v, before, up) =>
      var x := Wrap(if up then store[v] as int + 1 else store[v] as int - 1);
      Some((if before then x else store[v], store[v := x]))
  }

  /** The left operand is evaluated first, and the operator has its meaning on the two values. */
  lemma EvalBinMeans(op: BinOp, left: Expr, right: Expr, store: Store)
    requires InScope(left, |store|) && InScope(right, |store|)
    ensures var r := Eval(Bin(op, left, right), store);
            match Eval(left, store)
            case None => r == None
            case Some((x, store1)) =>
              match Eval(right, store1)
              case None => r == None
              case Some((y, store2)) =>
                && Means(op, x, y, if r.Some? then Some(r.value.0) else None)
                && (r.Some? ==> r.value.1 == store2)
  {
    var r := Eval(Bin(op, left, right), store);
    hide Means, Arith;
    match Eval(left, store)
    case None =>
    case Some((x, store1)) =>
      match Eval(right, store1)
      case None =>
      case Some((y, store2)) => ArithMeans(op, x, y);
  }

  /** Every variable is declared. */
  predicate InScope(e: Expr, n: nat) {
    match e
    case Const(_) => true
    case Var(v) => v < n
    case Bin(_, left, right) => InScope(left, n) && InScope(right, n)
    case Not(e1) => InScope(e1, n)
    case Set(v, e1) => v < n && InScope(e1, n)
    case Step(v, _, _) => v < n
  }

  predicate AllInScope(es: seq<Expr>, n: nat) { forall i :: 0 <= i < |es| ==> InScope(es[i], n) }

  /** A statement list: the value of the last statement, if there is one, and the final variables. */
  function EvalAll(es: seq<Expr>, store: Store): Option<(seq<word>, Store)>
    requires AllInScope(es, |store|)
  {
    if es == [] then Some(([], store))
    else
      match Eval(es[0], store)
      case None => None
      case Some((x, store1)) => if |es| == 1 then Some(([x], store1)) else EvalAll(es[1..], store1)
  }

  /** An identifier node as the parser leaves it. */
  predicate IsId(a: Ast, v: nat) { a.Node? && a.kind == Id && a.variable == v && a.child.Nil? && !a.address }

  /** `a` without its siblings is the tree the parser builds for `e`: make_sys_node hangs the operands below the operator. */
  predicate Parses(a: Ast, e: Expr)
    decreases e
  {
    && a.Node? && !a.address
    && match e
       case Const(w) => a.kind in {ValueInt, ValueLong} && a.value == w && a.child.Nil?
       case Var(v) => IsId(a, v)
       case Bin(op, left, right) =>
         && a.kind == Binary(op)
         && Parses(a.child, left) && Parses(a.child.sibling, right) && a.child.sibling.sibling.Nil?
       case Not(e1) => a.kind == Bitwise && Parses(a.child, e1) && a.child.sibling.Nil?
       case Set(v, e1) =>
         && a.kind == Assign && IsId(a.child, v)
         && Parses(a.child.sibling, e1) && a.child.sibling.sibling.Nil?
       case Step(v, before, up) =>
         && a.kind == (if before then if up then PreInc else PreDec else if up then Inc else Dec)
         && IsId(a.child, v) && a.child.sibling.Nil?
  }

  predicate ParsesAll(a: Ast, es: seq<Expr>) {
    if es == [] then a.Nil? else Parses(a, es[0]) && ParsesAll(a.sibling, es[1..])
  }

  /** Variables of DWORD types at pairwise different addresses. */
  ghost predicate DwordVariables(vars: Variables) {
    && vars.Valid()
    && (forall i :: 0 <= i < |vars.types| ==> LoadsDword(vars.types[i]))
    && (forall i, j :: 0 <= i < |vars.address| && 0 <= j < |vars.address| && i != j ==> vars.address[i] as nat != vars.address[j] as nat)
  }

  /** The code of an expression, written down without any tree. */
  function Gen(address: seq<word>, e: Expr): seq<byte>
    requires InScope(e, |address|)
  {
    match e
    case Const(w) => LoadConst(w)
    case Var(v) => LoadCell(address[v])
    case Bin(op, left, right) => Gen(address, left) + Gen(address, right) + [OpCode(op)]
    case Not(e1) => Gen(address, e1) + [OP_BITWISE_DWORD]
    case Set(v, e1) => LoadConst(address[v]) + Gen(address, e1) + [OP_ST_DWORD, OP_LD_VALUE_DWORD_STACK]
    case Step(v, before, up) =>
      var op := if up then Add else Sub;
      if before then LoadConst(address[v]) + PreStep(address[v], op)
      else LoadCell(address[v]) + PostStep(address[v], op)
  }

  function GenAll(address: seq<word>, es: seq<Expr>): seq<byte>
    requires AllInScope(es, |address|)
  {
    if es == [] then []
    else Gen(address, es[0]) + (if |es| == 1 then [] else [OP_POP]) + GenAll(address, es[1..])
  }

  // ----- the compiler emits Gen -----

  lemma CodeCutSibling(vars: Variables, a: Ast)
    requires a.Node?
    ensures Code(vars, a) == Code(vars, a.(sibling := Nil)) + Code(vars, a.sibling)
  {
    var b := a.(sibling := Nil);
    assert Own(vars, a) == Own(vars, b);
    assert Code(vars, b) == Code(vars, b.child) + Own(vars, b) + Code(vars, b.sibling);
    assert Code(vars, b) == Code(vars, a.child) + Own(vars, a);
  }

  /** One unfolding of the type check. */
  lemma CheckedFields(types: seq<FinshType>, a: Ast, isAddress: bool)
    requires a.Node?
    ensures var c := Checked(types, a, isAddress);
            && c.Node? && c.kind == a.kind && c.value == a.value && c.variable == a.variable
            && c.address == (a.address || isAddress)
            && c.child == Checked(types, a.child, TakesAddress(a.kind) || isAddress)
            && c.sibling == Checked(types, a.sibling, false)
            && (c.child.Node? ==> c.dataType == c.child.dataType)
  {
  }

  lemma CheckedNil(types: seq<FinshType>, isAddress: bool)
    ensures Checked(types, Nil, isAddress) == Nil
  {
  }

  lemma CodeFields(vars: Variables, a: Ast)
    requires a.Node?
    ensures Code(vars, a) == Code(vars, a.child) + Own(vars, a) + Code(vars, a.sibling)
    ensures a.sibling.Nil? ==> Code(vars, a) == Code(vars, a.child) + Own(vars, a)
  {
  }

  /** What the type check and the code generator make of the tree of `e`. */
  ghost predicate GoodCode(vars: Variables, a: Ast, e: Expr)
    requires DwordVariables(vars) && InScope(e, |vars.address|)
  {
    var c := Checked(vars.types, a, false);
    c.Node? && c.dataType == Dword && Code(vars, c.(sibling := Nil)) == Gen(vars.address, e)
  }

  /** The last operand of an operator: its whole code is Gen. */
  lemma GoodLast(vars: Variables, a: Ast, e: Expr)
    requires DwordVariables(vars) && InScope(e, |vars.address|) && GoodCode(vars, a, e) && a.Node? && a.sibling.Nil?
    ensures var c := Checked(vars.types, a, false);
            c.Node? && c.dataType == Dword && Code(vars, c) == Gen(vars.address, e)
  {
    hide Checked, Code, Gen;
    var c := Checked(vars.types, a, false);
    CheckedFields(vars.types, a, false);
    CheckedNil(vars.types, false);
    assert c == c.(sibling := Nil);
  }

  /** The first operand: its code, then that of the operand after it. */
  lemma GoodFirst(vars: Variables, a: Ast, e: Expr)
    requires DwordVariables(vars) && InScope(e, |vars.address|) && GoodCode(vars, a, e) && a.Node?
    ensures var c := Checked(vars.types, a, false);
            && c.Node? && c.dataType == Dword && c.sibling == Checked(vars.types, a.sibling, false)
            && Code(vars, c) == Gen(vars.address, e) + Code(vars, c.sibling)
  {
    hide Checked, Code, Gen;
    CheckedFields(vars.types, a, false);
    CodeCutSibling(vars, Checked(vars.types, a, false));
  }

  lemma CheckedBin(vars: Variables, a: Ast, op: BinOp, left: Expr, right: Expr)
    requires DwordVariables(vars) && InScope(Bin(op, left, right), |vars.address|) && Parses(a, Bin(op, left, right))
    requires GoodCode(vars, a.child, left) && GoodCode(vars, a.child.sibling, right)
    ensures GoodCode(vars, a, Bin(op, left, right))
  {
    hide Checked, Code;
    assert Parses(a.child, left) && Parses(a.child.sibling, right);
    GoodFirst(vars, a.child, left);
    GoodLast(vars, a.child.sibling, right);
    CheckedFields(vars.types, a, false);
    var c := Checked(vars.types, a, false).(sibling := Nil);
    assert Own(vars, c) == [OpCode(op)];
    CodeFields(vars, c);
  }

  lemma CheckedNot(vars: Variables, a: Ast, e: Expr)
    requires DwordVariables(vars) && InScope(Not(e), |vars.address|) && Parses(a, Not(e))
    requires GoodCode(vars, a.child, e)
    ensures GoodCode(vars, a, Not(e))
  {
    hide Checked, Code;
    assert Parses(a.child, e);
    GoodLast(vars, a.child, e);
    CheckedFields(vars.types, a, false);
    CodeFields(vars, Checked(vars.types, a, false).(sibling := Nil));
  }

  /** An identifier below `=`, `++` or `--` is loaded as an address, below a post-operator as a value. */
  lemma CheckedTarget(vars: Variables, a: Ast, v: nat, isAddress: bool)
    requires DwordVariables(vars) && v < |vars.address| && IsId(a, v)
    ensures var c := Checked(vars.types, a, isAddress);
            && c.Node? && c.kind == Id && c.variable == v && c.dataType == Dword
            && c.sibling == Checked(vars.types, a.sibling, false)
            && Code(vars, c) == (if isAddress then LoadConst(vars.address[v]) else LoadCell(vars.address[v])) + Code(vars, c.sibling)
  {
    hide Checked, Code;
    CheckedFields(vars.types, a, isAddress);
    CheckedIdType(vars, a, v, isAddress);
    CheckedNil(vars.types, isAddress);
    CodeNil(vars);
    CodeFields(vars, Checked(vars.types, a, isAddress));
  }

  lemma CheckedIdType(vars: Variables, a: Ast, v: nat, isAddress: bool)
    requires DwordVariables(vars) && v < |vars.address| && IsId(a, v)
    ensures Checked(vars.types, a, isAddress).dataType == Dword
  {
    assert LoadsDword(vars.types[v]);
  }

  lemma CheckedSet(vars: Variables, a: Ast, v: nat, e: Expr)
    requires DwordVariables(vars) && InScope(Set(v, e), |vars.address|) && Parses(a, Set(v, e))
    requires GoodCode(vars, a.child.sibling, e)
    ensures GoodCode(vars, a, Set(v, e))
  {
    hide Checked, Code;
    assert Parses(a.child.sibling, e);
    CheckedFields(vars.types, a, false);
    CheckedTarget(vars, a.child, v, true);
    GoodLast(vars, a.child.sibling, e);
    CodeFields(vars, Checked(vars.types, a, false).(sibling := Nil));
  }

  lemma CheckedStep(vars: Variables, a: Ast, v: nat, before: bool, up: bool)
    requires DwordVariables(vars) && v < |vars.address| && Parses(a, Step(v, before, up))
    ensures GoodCode(vars, a, Step(v, before, up))
  {
    hide Checked, Code, PreStep, PostStep, LoadConst, LoadCell, DwordVariables;
    var op, address := if up then Add else Sub, vars.address[v];
    assert Gen(vars.address, Step(v, before, up)) ==
           (if before then LoadConst(address) else LoadCell(address))
               + (if before then PreStep(address, op) else PostStep(address, op));
    assert a.child.sibling.Nil? && IsId(a.child, v) && TakesAddress(a.kind) == before;
    hide Parses, Gen;
    StepCode(vars, a, v, before, up);
  }

  lemma StepCode(vars: Variables, a: Ast, v: nat, before: bool, up: bool)
    requires DwordVariables(vars) && v < |vars.address|
    requires a.Node? && a.kind == if before then if up then PreInc else PreDec else if up then Inc else Dec
    requires !a.address && IsId(a.child, v) && a.child.sibling.Nil?
    ensures var op, address := if up then Add else Sub, vars.address[v];
            var c := Checked(vars.types, a, false);
            c.Node? && c.dataType == Dword &&
            Code(vars, c.(sibling := Nil)) ==
            (if before then LoadConst(address) else LoadCell(address))
                + (if before then PreStep(address, op) else PostStep(address, op))
  {
    hide Checked, Code, PreStep, PostStep, LoadConst, LoadCell, DwordVariables, Own;
    CheckedFields(vars.types, a, false);
    CheckedTarget(vars, a.child, v, before);
    CheckedNil(vars.types, false);
    CodeNil(vars);
    var c := Checked(vars.types, a, false).(sibling := Nil);
    CodeFields(vars, c);
    assert Known(vars, v) by { DwordKnown(vars, v); }
    OwnStep(vars, c, v, before, up);
  }

  lemma DwordKnown(vars: Variables, v: nat)
    requires DwordVariables(vars) && v < |vars.address|
    ensures Known(vars, v)
  {
  }

  lemma OwnStep(vars: Variables, c: Ast, v: nat, before: bool, up: bool)
    requires Known(vars, v) && c.Node? && c.dataType == Dword && c.child.Node? && c.child.kind == Id && c.child.variable == v
    requires c.kind == if before then if up then PreInc else PreDec else if up then Inc else Dec
    ensures var op := if up then Add else Sub;
            Own(vars, c) == if before then PreStep(vars.address[v], op) else PostStep(vars.address[v], op)
  {
    hide PreStep, PostStep, LoadConst, LoadCell;
  }

  lemma CodeNil(vars: Variables)
    ensures Code(vars, Nil) == []
  {
  }

  /** After the type check every node of an expression is DWORD and its code is Gen. */
  lemma {:induction false} CheckedCode(vars: Variables, a: Ast, e: Expr)
    requires DwordVariables(vars) && InScope(e, |vars.address|) && Parses(a, e)
    ensures GoodCode(vars, a, e)
    decreases e
  {
    match e
    case Const(_) =>
    case Var(_) =>
    case Bin(op, left, right) =>
      CheckedCode(vars, a.child, left);
      CheckedCode(vars, a.child.sibling, right);
      CheckedBin(vars, a, op, left, right);
    case Not(e1) =>
      CheckedCode(vars, a.child, e1);
      CheckedNot(vars, a, e1);
    case Set(v, e1) =>
      CheckedCode(vars, a.child.sibling, e1);
      CheckedSet(vars, a, v, e1);
    case Step(v, before, up) =>
      CheckedStep(vars, a, v, before, up);
  }

  lemma {:induction false} CheckedProgram(vars: Variables, a: Ast, es: seq<Expr>)
    requires DwordVariables(vars) && AllInScope(es, |vars.address|) && ParsesAll(a, es)
    ensures Program(vars, Checked(vars.types, a, false)) == GenAll(vars.address, es)
    decreases es
  {
    if es != [] {
      CheckedCode(vars, a, es[0]);
      CheckedProgram(vars, a.sibling, es[1..]);
    }
  }

  // ----- executing Gen -----

  /** `code` stands in the text at `pc`. */
  predicate At(text: seq<byte>, pc: nat, code: seq<byte>) {
    pc + |code| <= |text| && text[pc..pc + |code|] == code
  }

  lemma AtSplit(text: seq<byte>, pc: nat, a: seq<byte>, b: seq<byte>)
    requires At(text, pc, a + b)
    ensures At(text, pc, a) && At(text, pc + |a|, b)
  {
    assert text[pc..pc + |a|] == text[pc..pc + |a + b|][..|a|];
    assert text[pc + |a|..pc + |a| + |b|] == text[pc..pc + |a + b|][|a|..];
  }

  lemma AtHead(text: seq<byte>, pc: nat, op: byte, rest: seq<byte>)
    requires At(text, pc, [op] + rest)
    ensures pc < |text| && text[pc] == op && At(text, pc + 1, rest)
  {
    AtSplit(text, pc, [op], rest);
    assert text[pc] == text[pc..pc + 1][0];
  }

  /** One turn of the fetch loop at a known opcode. */
  lemma Fetch(text: seq<byte>, s: Vm, op: byte)
    requires s.pc < |text| && text[s.pc] == op
    ensures RunFrom(text, s) ==
            match Operate(op, text, s.(pc := s.pc + 1)) case None => None case Some(t) => RunFrom(text, t)
  {
    hide Operate;
  }

  lemma RunConst(text: seq<byte>, s: Vm, v: word)
    requires At(text, s.pc, LoadConst(v)) && Room(s)
    ensures RunFrom(text, s) == RunFrom(text, Vm(s.pc + 5, s.stack + [v], s.mem))
  {
    hide RunFrom, SetDword, GetDword;
    AtHead(text, s.pc, OP_LD_DWORD, SetDword(v));
    GetSetDword(text, s.pc + 1, v);
    Fetch(text, s, OP_LD_DWORD);
  }

  lemma RunCell(text: seq<byte>, s: Vm, address: word)
    requires At(text, s.pc, LoadCell(address)) && Room(s) && address as nat in s.mem
    ensures RunFrom(text, s) == RunFrom(text, Vm(s.pc + 5, s.stack + [s.mem[address as nat]], s.mem))
  {
    hide RunFrom, SetDword, GetDword;
    AtHead(text, s.pc, OP_LD_VALUE_DWORD, SetDword(address));
    GetSetDword(text, s.pc + 1, address);
    Fetch(text, s, OP_LD_VALUE_DWORD);
  }

  lemma OperateBin(op: BinOp, text: seq<byte>, s: Vm)
    ensures Operate(OpCode(op), text, s) == BinStep(op, s)
  {
    hide BinStep, LoadStep, BitwiseStep, DerefStep, StoreStep, PopStep;
    assert DecodeBin(OpCode(op)) == Some(op);
    assert OpCode(op) != OP_NOOP;
  }

  lemma RunBin(text: seq<byte>, pc: nat, base: seq<word>, x: word, y: word, mem: Memory, op: BinOp)
    requires At(text, pc, [OpCode(op)])
    ensures RunFrom(text, Vm(pc, base + [x] + [y], mem)) ==
            match Arith(op, x, y) case None => None case Some(z) => RunFrom(text, Vm(pc + 1, base + [z], mem))
  {
    hide RunFrom, Arith, OpCode, Operate;
    AtHead(text, pc, OpCode(op), []);
    var s := Vm(pc + 1, base + [x] + [y], mem);
    Fetch(text, Vm(pc, base + [x] + [y], mem), OpCode(op));
    OperateBin(op, text, s);
    assert s.stack[..|s.stack| - 2] == base;
  }

  lemma RunNot(text: seq<byte>, pc: nat, base: seq<word>, x: word, mem: Memory)
    requires At(text, pc, [OP_BITWISE_DWORD])
    ensures RunFrom(text, Vm(pc, base + [x], mem)) == RunFrom(text, Vm(pc + 1, base + [Complement(x)], mem))
  {
    hide RunFrom;
    AtHead(text, pc, OP_BITWISE_DWORD, []);
    Fetch(text, Vm(pc, base + [x], mem), OP_BITWISE_DWORD);
    assert (base + [x])[..|base|] == base;
  }

  lemma RunPop(text: seq<byte>, pc: nat, base: seq<word>, x: word, mem: Memory)
    requires At(text, pc, [OP_POP])
    ensures RunFrom(text, Vm(pc, base + [x], mem)) == RunFrom(text, Vm(pc + 1, base, mem))
  {
    hide RunFrom;
    AtHead(text, pc, OP_POP, []);
    Fetch(text, Vm(pc, base + [x], mem), OP_POP);
    assert (base + [x])[..|base|] == base;
  }

  lemma RunStore(text: seq<byte>, pc: nat, base: seq<word>, address: word, x: word, mem: Memory)
    requires At(text, pc, [OP_ST_DWORD]) && address as nat in mem
    ensures RunFrom(text, Vm(pc, base + [address] + [x], mem)) ==
        RunFrom(text, Vm(pc + 1, base + [address], mem[address as nat := x]))
  {
    hide RunFrom;
    AtHead(text, pc, OP_ST_DWORD, []);
    Fetch(text, Vm(pc, base + [address] + [x], mem), OP_ST_DWORD);
    assert (base + [address] + [x])[..|base| + 1] == base + [address];
  }

  lemma RunDeref(text: seq<byte>, pc: nat, base: seq<word>, address: word, mem: Memory)
    requires At(text, pc, [OP_LD_VALUE_DWORD_STACK]) && address as nat in mem
    ensures RunFrom(text, Vm(pc, base + [address], mem)) == RunFrom(text, Vm(pc + 1, base + [mem[address as nat]], mem))
  {
    hide RunFrom;
    AtHead(text, pc, OP_LD_VALUE_DWORD_STACK, []);
    Fetch(text, Vm(pc, base + [address], mem), OP_LD_VALUE_DWORD_STACK);
    assert (base + [address])[..|base|] == base;
  }

  /** Store and load again: the value of an assignment. */
  lemma RunStoreLoad(text: seq<byte>, pc: nat, base: seq<word>, address: word, x: word, mem: Memory)
    requires At(text, pc, [OP_ST_DWORD, OP_LD_VALUE_DWORD_STACK]) && address as nat in mem
    ensures RunFrom(text, Vm(pc, base + [address] + [x], mem)) == RunFrom(text, Vm(pc + 2, base + [x], mem[address as nat := x]))
  {
    hide RunFrom;
    AtSplit(text, pc, [OP_ST_DWORD], [OP_LD_VALUE_DWORD_STACK]);
    RunStore(text, pc, base, address, x, mem);
    RunDeref(text, pc + 1, base, address, mem[address as nat := x]);
    assert mem[address as nat := x][address as nat] == x;
  }

  /** Memory holds the variables. */
  ghost predicate Holds(mem: Memory, address: seq<word>, store: Store) {
    |address| == |store| && forall i :: 0 <= i < |address| ==> address[i] as nat in mem && mem[address[i] as nat] == store[i]
  }

  /** The machine and the evaluator agree after `code`: same value, same variables, other memory untouched. */
  ghost predicate Agrees(text: seq<byte>, s: Vm, length: nat, address: seq<word>, r: Option<(word, Store)>, mem: Memory) {
    match r
    case None => RunFrom(text, s) == None
    case Some((v, store)) =>
      && RunFrom(text, s) == RunFrom(text, Vm(s.pc + length, s.stack + [v], mem))
      && Holds(mem, address, store) && Elsewhere(s.mem, mem, address)
  }

  ghost predicate Elsewhere(mem: Memory, mem': Memory, address: seq<word>) {
    mem.Keys == mem'.Keys && forall x :: x in mem && !Owns(address, x) ==> mem'[x] == mem[x]
  }

  lemma ElsewhereTransitive(mem0: Memory, mem1: Memory, mem2: Memory, address: seq<word>)
    requires Elsewhere(mem0, mem1, address) && Elsewhere(mem1, mem2, address)
    ensures Elsewhere(mem0, mem2, address)
  {
  }

  lemma ElsewhereReflexive(mem: Memory, address: seq<word>)
    ensures Elsewhere(mem, mem, address)
  {
  }

  ghost predicate Owns(address: seq<word>, x: nat) {
    exists i :: 0 <= i < |address| && address[i] as nat == x
  }

  /** Stack cells needed by an expression. */
  function Depth(e: Expr): nat {
    match e
    case Const(_) => 1
    case Var(_) => 1
    case Bin(_, left, right) => if Depth(left) > 1 + Depth(right) then Depth(left) else 1 + Depth(right)
    case Not(e1) => Depth(e1)
    case Set(_, e1) => 1 + Depth(e1)
    case Step(_, before, _) => if before then 3 else 4
  }

  lemma {:induction false} DepthPositive(e: Expr)
    ensures Depth(e) >= 1
  {
    match e
    case Not(e1) => DepthPositive(e1);
    case _ =>
  }

  lemma {:induction false} DepthWithinTree(a: Ast, e: Expr)
    requires Parses(a, e)
    ensures Depth(e) <= Size(a.(sibling := Nil)) + 2
    decreases e
  {
    match e
    case Const(_) =>
    case Var(_) =>
    case Bin(_, left, right) =>
      DepthWithinTree(a.child, left);
      DepthWithinTree(a.child.sibling, right);
      assert a.child.sibling == a.child.sibling.(sibling := Nil);
    case Not(e1) =>
      DepthWithinTree(a.child, e1);
      assert a.child == a.child.(sibling := Nil);
    case Set(_, e1) =>
      DepthWithinTree(a.child.sibling, e1);
      assert a.child.sibling == a.child.sibling.(sibling := Nil);
    case Step(_, _, _) =>
      assert Size(a.child) == 1 + Size(a.child.child) + Size(a.child.sibling);
  }

  lemma HoldsAddress(mem: Memory, address: seq<word>, store: Store, v: nat)
    requires Holds(mem, address, store) && v < |store|
    ensures address[v] as nat in mem
  {
  }

  lemma HoldsUpdate(mem: Memory, vars: Variables, store: Store, v: nat, x: word)
    requires DwordVariables(vars) && Holds(mem, vars.address, store) && v < |store|
    ensures Holds(mem[vars.address[v] as nat := x], vars.address, store[v := x])
    ensures Elsewhere(mem, mem[vars.address[v] as nat := x], vars.address)
  {
    var m, st := mem[vars.address[v] as nat := x], store[v := x];
    assert Owns(vars.address, vars.address[v] as nat);
    assert m.Keys == mem.Keys;
  }

  /** The step of `++`/`--` from the point where an address lies on the stack. */
  lemma RunStep(text: seq<byte>, s: Vm, address: word, op: BinOp)
    requires At(text, s.pc, LoadCell(address) + LoadConst(1) + [OpCode(op), OP_ST_DWORD]) && op in {Add, Sub}
    requires |s.stack| >= 1 && s.stack[|s.stack| - 1] == address && address as nat in s.mem
    requires |s.stack| + 2 <= FINSH_STACK_MAX
    ensures RunFrom(text, s) ==
            RunFrom(text, Vm(s.pc + 12, s.stack, s.mem[address as nat := Arith(op, s.mem[address as nat], 1).value]))
  {
    hide RunFrom;
    var x := s.mem[address as nat];
    AtSplit(text, s.pc, LoadCell(address) + LoadConst(1), [OpCode(op), OP_ST_DWORD]);
    AtSplit(text, s.pc, LoadCell(address), LoadConst(1));
    AtSplit(text, s.pc + 10, [OpCode(op)], [OP_ST_DWORD]);
    RunCell(text, s, address);
    RunConst(text, Vm(s.pc + 5, s.stack + [x], s.mem), 1);
    RunBin(text, s.pc + 10, s.stack, x, 1, s.mem, op);
    var base := s.stack[..|s.stack| - 1];
    assert s.stack == base + [address];
    RunStore(text, s.pc + 11, base, address, Arith(op, x, 1).value, s.mem);
  }

  lemma ExecPreStep(vars: Variables, text: seq<byte>, s: Vm, v: nat, op: BinOp)
    requires v < |vars.address| && vars.address[v] as nat in s.mem && op in {Add, Sub}
    requires At(text, s.pc, LoadConst(vars.address[v]) + PreStep(vars.address[v], op))
    requires |s.stack| + 3 <= FINSH_STACK_MAX
    ensures var a := vars.address[v]; var x := Arith(op, s.mem[a as nat], 1).value;
            RunFrom(text, s) == RunFrom(text, Vm(s.pc + 18, s.stack + [x], s.mem[a as nat := x]))
  {
    hide RunFrom;
    var a := vars.address[v];
    var x := Arith(op, s.mem[a as nat], 1).value;
    var body := LoadCell(a) + LoadConst(1) + [OpCode(op), OP_ST_DWORD];
    assert PreStep(a, op) == body + [OP_LD_VALUE_DWORD_STACK];
    AtSplit(text, s.pc, LoadConst(a), body + [OP_LD_VALUE_DWORD_STACK]);
    AtSplit(text, s.pc + 5, body, [OP_LD_VALUE_DWORD_STACK]);
    RunConst(text, s, a);
    RunStep(text, Vm(s.pc + 5, s.stack + [a], s.mem), a, op);
    RunDeref(text, s.pc + 17, s.stack, a, s.mem[a as nat := x]);
    assert s.mem[a as nat := x][a as nat] == x;
  }

  lemma ExecPostStep(vars: Variables, text: seq<byte>, s: Vm, v: nat, op: BinOp)
    requires v < |vars.address| && vars.address[v] as nat in s.mem && op in {Add, Sub}
    requires At(text, s.pc, LoadCell(vars.address[v]) + PostStep(vars.address[v], op))
    requires |s.stack| + 4 <= FINSH_STACK_MAX
    ensures var a := vars.address[v]; var x := Arith(op, s.mem[a as nat], 1).value;
            RunFrom(text, s) == RunFrom(text, Vm(s.pc + 23, s.stack + [s.mem[a as nat]], s.mem[a as nat := x]))
  {
    hide RunFrom;
    var a := vars.address[v];
    var was := s.mem[a as nat];
    var x := Arith(op, was, 1).value;
    var body := LoadCell(a) + LoadConst(1) + [OpCode(op), OP_ST_DWORD];
    assert PostStep(a, op) == LoadConst(a) + (body + [OP_POP]);
    AtSplit(text, s.pc, LoadCell(a), LoadConst(a) + (body + [OP_POP]));
    AtSplit(text, s.pc + 5, LoadConst(a), body + [OP_POP]);
    AtSplit(text, s.pc + 10, body, [OP_POP]);
    RunCell(text, s, a);
    RunConst(text, Vm(s.pc + 5, s.stack + [was], s.mem), a);
    RunStep(text, Vm(s.pc + 10, s.stack + [was] + [a], s.mem), a, op);
    RunPop(text, s.pc + 22, s.stack + [was], a, s.mem[a as nat := x]);
  }

  lemma ExecStep(vars: Variables, text: seq<byte>, s: Vm, v: nat, before: bool, up: bool, store: Store)
    returns (mem: Memory)
    requires DwordVariables(vars) && v < |store| && Holds(s.mem, vars.address, store)
    requires At(text, s.pc, Gen(vars.address, Step(v, before, up)))
    requires |s.stack| + Depth(Step(v, before, up)) <= FINSH_STACK_MAX
    ensures Agrees(text, s, |Gen(vars.address, Step(v, before, up))|, vars.address, Eval(Step(v, before, up), store), mem)
  {
    hide RunFrom, At, Elsewhere;
    var op := if up then Add else Sub;
    var x := Arith(op, store[v], 1).value;
    mem := s.mem[vars.address[v] as nat := x];
    HoldsUpdate(s.mem, vars, store, v, x);
    if before {
      ExecPreStep(vars, text, s, v, op);
    } else {
      ExecPostStep(vars, text, s, v, op);
    }
  }

  /** The code of an expression pushes its value and leaves the variables as the evaluator does. */
  lemma {:induction false} ExecExpr(vars: Variables, text: seq<byte>, s: Vm, e: Expr, store: Store)
    returns (mem: Memory)
    requires |store| == |vars.address|
    requires DwordVariables(vars) && InScope(e, |store|) && Holds(s.mem, vars.address, store)
    requires At(text, s.pc, Gen(vars.address, e))
    requires |s.stack| + Depth(e) <= FINSH_STACK_MAX
    ensures Agrees(text, s, |Gen(vars.address, e)|, vars.address, Eval(e, store), mem)
    decreases e, 1
  {
    DepthPositive(e);
    assert e.Not? ==> Depth(e) == Depth(e.e);
    hide RunFrom, Elsewhere, Holds, At, Agrees, Gen, Eval, Depth, DwordVariables;
    match e
    case Const(_) =>
      mem := s.mem;
      ExecLeaf(vars, text, s, e, store);
    case Var(_) =>
      mem := s.mem;
      ExecLeaf(vars, text, s, e, store);
    case Bin(op, left, right) =>
      mem := ExecBin(vars, text, s, op, left, right, store);
    case Not(e1) =>
      mem := ExecNot(vars, text, s, e1, store);
    case Set(v, e1) =>
      mem := ExecSet(vars, text, s, v, e1, store);
    case Step(v, before, up) =>
      mem := ExecStep(vars, text, s, v, before, up, store);
  }

  lemma ExecLeaf(vars: Variables, text: seq<byte>, s: Vm, e: Expr, store: Store)
    requires |store| == |vars.address|
    requires (e.Const? || e.Var?) && InScope(e, |store|) && Holds(s.mem, vars.address, store)
    requires At(text, s.pc, Gen(vars.address, e)) && Room(s)
    ensures Agrees(text, s, |Gen(vars.address, e)|, vars.address, Eval(e, store), s.mem)
  {
    hide RunFrom, Elsewhere, At;
    ElsewhereReflexive(s.mem, vars.address);
    match e
    case Const(w) => RunConst(text, s, w);
    case Var(v) => RunCell(text, s, vars.address[v]);
  }

  lemma {:induction false} ExecNot(vars: Variables, text: seq<byte>, s: Vm, e: Expr, store: Store)
    returns (mem: Memory)
    requires |store| == |vars.address|
    requires DwordVariables(vars) && InScope(e, |store|) && Holds(s.mem, vars.address, store)
    requires At(text, s.pc, Gen(vars.address, Not(e)))
    requires |s.stack| + Depth(e) <= FINSH_STACK_MAX
    ensures Agrees(text, s, |Gen(vars.address, Not(e))|, vars.address, Eval(Not(e), store), mem)
    decreases Not(e), 0
  {
    hide RunFrom, Elsewhere, Holds, At, Depth, DwordVariables;
    AtSplit(text, s.pc, Gen(vars.address, e), [OP_BITWISE_DWORD]);
    mem := ExecExpr(vars, text, s, e, store);
    if Eval(e, store).Some? {
      RunNot(text, s.pc + |Gen(vars.address, e)|, s.stack, Eval(e, store).value.0, mem);
    }
  }

  /** One unfolding of the evaluator. */
  lemma EvalBin(op: BinOp, left: Expr, right: Expr, store: Store)
    requires InScope(Bin(op, left, right), |store|)
    ensures Eval(left, store).None? ==> Eval(Bin(op, left, right), store) == None
    ensures Eval(left, store).Some? ==>
      var (x, store1) := Eval(left, store).value;
      && (Eval(right, store1).None? ==> Eval(Bin(op, left, right), store) == None)
      && (Eval(right, store1).Some? ==>
            var (y, store2) := Eval(right, store1).value;
            Eval(Bin(op, left, right), store) == match Arith(op, x, y) case None => None case Some(z) => Some((z, store2)))
  {
  }

  lemma {:induction false} ExecBin(vars: Variables, text: seq<byte>, s: Vm, op: BinOp, left: Expr, right: Expr, store: Store)
    returns (mem: Memory)
    requires |store| == |vars.address|
    requires DwordVariables(vars) && InScope(Bin(op, left, right), |store|) && Holds(s.mem, vars.address, store)
    requires At(text, s.pc, Gen(vars.address, Bin(op, left, right)))
    requires |s.stack| + Depth(Bin(op, left, right)) <= FINSH_STACK_MAX
    ensures Agrees(text, s, |Gen(vars.address, Bin(op, left, right))|, vars.address, Eval(Bin(op, left, right), store), mem)
    decreases Bin(op, left, right), 0
  {
    hide RunFrom, Arith, OpCode, Holds, Elsewhere, At, Agrees, DwordVariables, Eval;
    var g1, g2 := Gen(vars.address, left), Gen(vars.address, right);
    assert Gen(vars.address, Bin(op, left, right)) == g1 + g2 + [OpCode(op)];
    AtSplit(text, s.pc, g1 + g2, [OpCode(op)]);
    AtSplit(text, s.pc, g1, g2);
    EvalBin(op, left, right, store);
    mem := ExecExpr(vars, text, s, left, store);
    if Eval(left, store).None? {
      AgreesNone(text, s, |g1|, |g1 + g2| + 1, vars.address, mem);
    } else {
      var (x, store1) := Eval(left, store).value;
      AgreesHolds(text, s, |g1|, vars.address, x, store1, mem);
      mem := ExecRight(vars, text, s, op, |g1|, x, store1, mem, right);
    }
  }

  /** The right operand and the operator, once the left operand is on the stack. */
  lemma {:induction false} ExecRight(vars: Variables, text: seq<byte>, s: Vm, op: BinOp, n1: nat, x: word,
      store1: Store, mem1: Memory, right: Expr)
    returns (mem: Memory)
    requires |store1| == |vars.address| && DwordVariables(vars) && InScope(right, |store1|) && Holds(mem1, vars.address, store1)
    requires Agrees(text, s, n1, vars.address, Some((x, store1)), mem1)
    requires At(text, s.pc + n1, Gen(vars.address, right)) && At(text, s.pc + n1 + |Gen(vars.address, right)|, [OpCode(op)])
    requires |s.stack| + 1 + Depth(right) <= FINSH_STACK_MAX
    ensures Agrees(text, s, n1 + |Gen(vars.address, right)| + 1, vars.address,
                   match Eval(right, store1)
                   case None => None
                   case Some((y, store2)) => match Arith(op, x, y) case None => None case Some(z) => Some((z, store2)), mem)
    decreases right, 2
  {
    hide RunFrom, Arith, OpCode, Holds, Elsewhere, At, Agrees, DwordVariables, Gen, Depth;
    var n2 := |Gen(vars.address, right)|;
    mem := ExecExpr(vars, text, Vm(s.pc + n1, s.stack + [x], mem1), right, store1);
    if Eval(right, store1).None? {
      AgreesPrefix(text, s, n1, n2, n1 + n2 + 1, vars.address, x, store1, mem1, mem);
    } else {
      var (y, store2) := Eval(right, store1).value;
      ComposeBin(text, s, vars.address, op, n1, n2, x, store1, mem1, y, store2, mem);
    }
  }

  lemma AgreesNone(text: seq<byte>, s: Vm, n: nat, n': nat, address: seq<word>, mem: Memory)
    requires Agrees(text, s, n, address, None, mem)
    ensures Agrees(text, s, n', address, None, mem)
  {
  }

  lemma AgreesHolds(text: seq<byte>, s: Vm, n: nat, address: seq<word>, x: word, store: Store, mem: Memory)
    requires Agrees(text, s, n, address, Some((x, store)), mem)
    ensures Holds(mem, address, store)
  {
  }

  lemma AgreesPrefix(text: seq<byte>, s: Vm, n1: nat, n2: nat, n: nat, address: seq<word>, x: word, store: Store,
      mem1: Memory, mem: Memory)
    requires Agrees(text, s, n1, address, Some((x, store)), mem1)
    requires Agrees(text, Vm(s.pc + n1, s.stack + [x], mem1), n2, address, None, mem)
    ensures Agrees(text, s, n, address, None, mem)
  {
  }

  /** Two operands and the operator after them. */
  lemma ComposeBin(text: seq<byte>, s: Vm, address: seq<word>, op: BinOp, n1: nat, n2: nat,
                   x: word, store1: Store, mem1: Memory, y: word, store2: Store, mem2: Memory)
    requires Agrees(text, s, n1, address, Some((x, store1)), mem1)
    requires Agrees(text, Vm(s.pc + n1, s.stack + [x], mem1), n2, address, Some((y, store2)), mem2)
    requires At(text, s.pc + n1 + n2, [OpCode(op)])
    ensures Agrees(text, s, n1 + n2 + 1, address,
                   match Arith(op, x, y) case None => None case Some(z) => Some((z, store2)), mem2)
  {
    hide RunFrom, Arith, OpCode, Holds, Elsewhere, At;
    RunBin(text, s.pc + n1 + n2, s.stack, x, y, mem2, op);
    ElsewhereTransitive(s.mem, mem1, mem2, address);
  }

  lemma {:induction false} ExecSet(vars: Variables, text: seq<byte>, s: Vm, v: nat, e: Expr, store: Store)
    returns (mem: Memory)
    requires |store| == |vars.address|
    requires DwordVariables(vars) && InScope(Set(v, e), |store|) && Holds(s.mem, vars.address, store)
    requires At(text, s.pc, Gen(vars.address, Set(v, e)))
    requires |s.stack| + Depth(Set(v, e)) <= FINSH_STACK_MAX
    ensures Agrees(text, s, |Gen(vars.address, Set(v, e))|, vars.address, Eval(Set(v, e), store), mem)
    decreases Set(v, e), 0
  {
    hide RunFrom, Holds, Elsewhere, At;
    var a, g := vars.address[v], Gen(vars.address, e);
    var tail := [OP_ST_DWORD, OP_LD_VALUE_DWORD_STACK];
    AtSplit(text, s.pc, LoadConst(a) + g, tail);
    AtSplit(text, s.pc, LoadConst(a), g);
    DepthPositive(e);
    RunConst(text, s, a);
    var s1 := Vm(s.pc + 5, s.stack + [a], s.mem);
    mem := ExecExpr(vars, text, s1, e, store);
    if Eval(e, store).Some? {
      var (x, store1) := Eval(e, store).value;
      HoldsAddress(mem, vars.address, store1, v);
      RunStoreLoad(text, s.pc + 5 + |g|, s.stack, a, x, mem);
      HoldsUpdate(mem, vars, store1, v, x);
      ElsewhereTransitive(s.mem, mem, mem[a as nat := x], vars.address);
      mem := mem[a as nat := x];
    }
  }

  // ----- statement lists -----

  predicate NoopsFrom(text: seq<byte>, pc: nat) {
    pc <= |text| && forall i :: pc <= i < |text| ==> text[i] == OP_NOOP
  }

  /** Zero bytes behind the program are no-ops: the run ends with the machine as it was. */
  lemma {:induction false} RunZeros(text: seq<byte>, s: Vm)
    requires NoopsFrom(text, s.pc)
    ensures RunFrom(text, s) == Some(s.(pc := |text|))
    decreases |text| - s.pc
  {
    if s.pc < |text| {
      RunZeros(text, s.(pc := s.pc + 1));
    }
  }

  /** How a finished run relates to the evaluator. */
  ghost predicate Finishes(text: seq<byte>, s: Vm, address: seq<word>, r: Option<(seq<word>, Store)>, mem: Memory) {
    match r
    case None => RunFrom(text, s) == None
    case Some((values, store)) =>
      && RunFrom(text, s) == Some(Vm(|text|, values, mem))
      && Holds(mem, address, store) && Elsewhere(s.mem, mem, address)
  }

  predicate ShallowAll(es: seq<Expr>) { forall i :: 0 <= i < |es| ==> Depth(es[i]) <= FINSH_STACK_MAX }

  lemma {:induction false} ExecAll(vars: Variables, text: seq<byte>, pc: nat, mem0: Memory, es: seq<Expr>, store: Store)
    returns (mem: Memory)
    requires |store| == |vars.address|
    requires DwordVariables(vars) && AllInScope(es, |store|) && Holds(mem0, vars.address, store) && ShallowAll(es)
    requires At(text, pc, GenAll(vars.address, es))
    requires NoopsFrom(text, pc + |GenAll(vars.address, es)|)
    ensures Finishes(text, Vm(pc, [], mem0), vars.address, EvalAll(es, store), mem)
    decreases es
  {
    hide RunFrom, Holds, Elsewhere, At, NoopsFrom, Gen, Eval;
    mem := mem0;
    if es == [] {
      RunZeros(text, Vm(pc, [], mem0));
      ElsewhereReflexive(mem, vars.address);
    } else if |es| == 1 {
      mem := ExecLast(vars, text, pc, mem0, es[0], store);
    } else {
      var g, rest := Gen(vars.address, es[0]), GenAll(vars.address, es[1..]);
      AtSplit(text, pc, g + [OP_POP], rest);
      AtSplit(text, pc, g, [OP_POP]);
      mem := ExecExpr(vars, text, Vm(pc, [], mem0), es[0], store);
      if Eval(es[0], store).Some? {
        var (x, store1) := Eval(es[0], store).value;
        RunPop(text, pc + |g|, [], x, mem);
        var mem1 := mem;
        mem := ExecAll(vars, text, pc + |g| + 1, mem1, es[1..], store1);
        if EvalAll(es[1..], store1).Some? {
          ElsewhereTransitive(mem0, mem1, mem, vars.address);
        }
      }
    }
  }

  lemma ExecLast(vars: Variables, text: seq<byte>, pc: nat, mem0: Memory, e: Expr, store: Store)
    returns (mem: Memory)
    requires |store| == |vars.address|
    requires DwordVariables(vars) && InScope(e, |store|) && Holds(mem0, vars.address, store) && Depth(e) <= FINSH_STACK_MAX
    requires At(text, pc, GenAll(vars.address, [e])) && NoopsFrom(text, pc + |GenAll(vars.address, [e])|)
    ensures Finishes(text, Vm(pc, [], mem0), vars.address, EvalAll([e], store), mem)
  {
    hide RunFrom, Holds, Elsewhere, NoopsFrom, Gen, Eval;
    var g := Gen(vars.address, e);
    assert GenAll(vars.address, [e]) == g + [] + GenAll(vars.address, [e][1..]);
    assert GenAll(vars.address, [e]) == g;
    mem := ExecExpr(vars, text, Vm(pc, [], mem0), e, store);
    if Eval(e, store).Some? {
      var x := Eval(e, store).value.0;
      assert [] + [x] == [x];
      RunZeros(text, Vm(pc + |g|, [x], mem));
    }
  }

  lemma {:induction false} ShallowInTable(a: Ast, es: seq<Expr>)
    requires ParsesAll(a, es) && Size(a) <= FINSH_NODE_MAX
    ensures ShallowAll(es)
    decreases es
  {
    if es != [] {
      DepthWithinTree(a, es[0]);
      ShallowInTable(a.sibling, es[1..]);
    }
  }

  // ----- the size of the code -----

  /** The bytes that an expression takes, counted on the source. */
  function Bytes(e: Expr): nat {
    match e
    case Const(_) => 5
    case Var(_) => 5
    case Bin(_, left, right) => Bytes(left) + Bytes(right) + 1
    case Not(e1) => Bytes(e1) + 1
    case Set(_, e1) => Bytes(e1) + 7
    case Step(_, before, _) => if before then 18 else 23
  }

  /** Those of a statement list, with one for the pop between two statements. */
  function BytesAll(es: seq<Expr>): nat {
    if es == [] then 0 else Bytes(es[0]) + (if |es| == 1 then 0 else 1) + BytesAll(es[1..])
  }

  lemma {:induction false} GenBytes(address: seq<word>, e: Expr)
    requires InScope(e, |address|)
    ensures |Gen(address, e)| == Bytes(e)
  {
    match e
    case Bin(_, left, right) =>
      GenBytes(address, left);
      GenBytes(address, right);
    case Not(e1) => GenBytes(address, e1);
    case Set(_, e1) => GenBytes(address, e1);
    case _ =>
  }

  lemma {:induction false} GenAllBytes(address: seq<word>, es: seq<Expr>)
    requires AllInScope(es, |address|)
    ensures |GenAll(address, es)| == BytesAll(es)
  {
    if es != [] {
      GenBytes(address, es[0]);
      GenAllBytes(address, es[1..]);
    }
  }

  /** What the compiler emits for a checked tree has exactly the size counted on the source. */
  lemma ProgramBytes(vars: Variables, a: Ast, es: seq<Expr>)
    requires DwordVariables(vars) && AllInScope(es, |vars.address|) && ParsesAll(a, es)
    ensures |Program(vars, Checked(vars.types, a, false))| == BytesAll(es)
  {
    CheckedProgram(vars, a, es);
    GenAllBytes(vars.address, es);
  }

  /** The code fits the text segment exactly when the count does, which can be read off before compiling. */
  lemma FitsTextIff(vars: Variables, a: Ast, es: seq<Expr>)
    requires DwordVariables(vars) && AllInScope(es, |vars.address|) && ParsesAll(a, es)
    ensures |Program(vars, Checked(vars.types, a, false))| <= FINSH_TEXT_MAX <==> BytesAll(es) <= FINSH_TEXT_MAX
  {
    ProgramBytes(vars, a, es);
  }

  /**
   * Compiler preservation. For every statement list that fits the text segment, running the
   * emitted bytes ends with the variables of the evaluator, the value of the last statement as the
   * only stack cell, and all other memory untouched; it is undefined exactly when the evaluator is.
   * The stack cannot overflow because a tree has at most FINSH_NODE_MAX nodes.
   */
  lemma CompilerPreservesMeaning(vars: Variables, a: Ast, es: seq<Expr>, store: Store, mem0: Memory)
    returns (mem: Memory)
    requires DwordVariables(vars) && AllInScope(es, |vars.address|) && ParsesAll(a, es)
    requires Size(a) <= FINSH_NODE_MAX && Holds(mem0, vars.address, store)
    requires BytesAll(es) <= FINSH_TEXT_MAX
    ensures var code := Program(vars, Checked(vars.types, a, false));
            |code| == BytesAll(es)
            && Finishes(code + Zeros(FINSH_TEXT_MAX - |code|), Vm(0, [], mem0), vars.address, EvalAll(es, store), mem)
  {
    hide RunFrom, Elsewhere, Program, Checked, GenAll, EvalAll, ParsesAll;
    ProgramBytes(vars, a, es);
    var code := Program(vars, Checked(vars.types, a, false));
    var text := code + Zeros(FINSH_TEXT_MAX - |code|);
    CheckedProgram(vars, a, es);
    ShallowInTable(a, es);
    assert text[..|code|] == code;
    mem := ExecAll(vars, text, 0, mem0, es, store);
  }

  /** The shell's compile-and-run on its global tables. */
  method CompileAndRun(cells: array<Cell>, m: Machine, vars: Variables, root: Link, ghost a: Ast, ghost es: seq<Expr>,
      ghost store: Store)
    returns (ok: bool)
    requires m.Valid() && cells.Length == FINSH_NODE_MAX && m.text.Length == FINSH_TEXT_MAX
        && cells as object != m.text && cells as object != m.stack
    requires Represents(cells[..], root, a) && Distinct(a)
    requires DwordVariables(vars) && AllInScope(es, |vars.address|) && ParsesAll(a, es) && Holds(m.mem, vars.address, store)
    requires BytesAll(es) <= FINSH_TEXT_MAX
    modifies cells, m, m.text, m.stack
    ensures ok <==> EvalAll(es, store).Some?
    ensures ok ==> m.Valid() && m.stack[..m.sp] == EvalAll(es, store).value.0
    ensures ok ==> Holds(m.mem, vars.address, EvalAll(es, store).value.1) && Elsewhere(old(m.mem), m.mem, vars.address)
  {
    hide RunFrom, Program, Checked, ParsesAll, EvalAll, Elsewhere;
    TreeFitsTable(cells[..], root, a);
    ghost var mem := CompilerPreservesMeaning(vars, a, es, store, m.mem);
    var c := new Compiler(cells, m.text, vars);
    c.Run(root, a);
    ok := m.Run();
  }

  // ----- where the source does not meet the property -----

  /** The statement `x++;` n times, two table entries each. */
  function Increments(n: nat, ix: nat, v: nat): Ast {
    if n == 0 then Nil
    else Node(ix, Inc, 0, 0, Void, false, Node(ix + 1, Id, 0, v, Void, false, Nil, Nil), Increments(n - 1, ix + 2, v))
  }

  function IncrementList(n: nat, v: nat): seq<Expr> {
    if n == 0 then [] else [Step(v, false, true)] + IncrementList(n - 1, v)
  }

  lemma {:induction false} IncrementsCode(n: nat, ix: nat, v: nat, address: seq<word>)
    requires v < |address|
    ensures ParsesAll(Increments(n, ix, v), IncrementList(n, v)) && Size(Increments(n, ix, v)) == 2 * n
    ensures |IncrementList(n, v)| == n && AllInScope(IncrementList(n, v), |address|)
    ensures n > 0 ==> BytesAll(IncrementList(n, v)) == 24 * n - 1
  {
    if n > 0 {
      IncrementsCode(n - 1, ix + 2, v, address);
      var es := IncrementList(n, v);
      assert es[1..] == IncrementList(n - 1, v);
      var a := Increments(n, ix, v);
      assert Size(Nil) == 0;
      assert Size(a.child) == 1 + Size(a.child.child) + Size(a.child.sibling);
      assert Parses(a, es[0]);
    }
  }

  /** Nothing bounds the code by the text segment: a tree that fits the node table may need more bytes than there are. */
  lemma TextMayOverflow(vars: Variables, v: nat)
    requires DwordVariables(vars) && v < |vars.address|
    ensures exists a, es :: ParsesAll(a, es) && AllInScope(es, |vars.address|) && Size(a) <= FINSH_NODE_MAX
                            && BytesAll(es) > FINSH_TEXT_MAX
                            && |Program(vars, Checked(vars.types, a, false))| == BytesAll(es)
  {
    var a, es := Increments(8, 0, v), IncrementList(8, v);
    IncrementsCode(8, 0, v, vars.address);
    ProgramBytes(vars, a, es);
  }

  /**
   * The type check calls an identifier DWORD although no load is emitted for it exactly when its
   * variable is a void pointer; this is why DwordVariables excludes that type.
   */
  lemma UnloadedDword(vars: Variables, a: Ast, v: nat)
    requires vars.Valid() && v < |vars.types| && IsId(a, v) && a.dataType == Void
    ensures var c := Checked(vars.types, a, false);
            c.dataType == Dword && Own(vars, c) == [] <==> vars.types[v] == VoidP
  {
    var t := vars.types[v];
    var c := Checked(vars.types, a, false);
    CheckedNil(vars.types, false);
    assert c.dataType == if WidthOf(t).Some? then WidthOf(t).value else Void;
    assert LoadsDword(t) ==> |Own(vars, c)| == 5;
    match t
    case VoidP => assert !LoadsDword(t);
    case _ =>
  }
}
