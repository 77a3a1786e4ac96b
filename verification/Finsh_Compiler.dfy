/** Syntax tree nodes of the shell and the in-place type check. */
module FinshNode {
  import opened Wrappers
  import opened FinshWord
  import opened FinshArith
  import opened FinshVm

  const FINSH_NODE_MAX: nat := 16

  datatype Kind = Id | ValueInt | ValueLong | Binary(op: BinOp) | Bitwise | Assign | PreInc | PreDec | Inc | Dec

  datatype DataType = Void | Byte | Word | Dword

  datatype FinshType =
    | Unknown | VoidT | VoidP | Char | UChar | CharP | Short | UShort | ShortP | Int | UInt | IntP | Long | ULong | LongP

  type Link = Option<nat>

  /** One entry of the node table; links are indices into the table. */
  datatype Cell = Cell(kind: Kind, value: word, variable: nat, dataType: DataType, address: bool, child: Link, sibling: Link)

  /** A table entry with everything reachable from it. */
  datatype Ast =
    | Nil
    | Node(ix: nat, kind: Kind, value: word, variable: nat, dataType: DataType, address: bool, child: Ast, sibling: Ast)

  ghost predicate Represents(cells: seq<Cell>, p: Link, a: Ast)
    decreases a
  {
    match a
    case Nil => p == None
    case Node(ix, kind, value, variable, dataType, address, child, sibling) =>
      && p == Some(ix) && ix < |cells|
      && cells[ix] == Cell(kind, value, variable, dataType, address, cells[ix].child, cells[ix].sibling)
      && Represents(cells, cells[ix].child, child)
      && Represents(cells, cells[ix].sibling, sibling)
  }

  ghost function Indices(a: Ast): set<nat> {
    if a.Nil? then {} else {a.ix} + Indices(a.child) + Indices(a.sibling)
  }

  /** No entry is reachable along two paths. */
  ghost predicate Distinct(a: Ast) {
    a.Node? ==>
      && a.ix !in Indices(a.child) + Indices(a.sibling)
      && Indices(a.child) !! Indices(a.sibling)
      && Distinct(a.child) && Distinct(a.sibling)
  }

  ghost function Size(a: Ast): nat {
    if a.Nil? then 0 else 1 + Size(a.child) + Size(a.sibling)
  }

  lemma {:induction false} FrameRepresents(cells: seq<Cell>, cells': seq<Cell>, p: Link, a: Ast)
    requires |cells| == |cells'| && Represents(cells, p, a)
    requires forall i :: i in Indices(a) && i < |cells| ==> cells'[i] == cells[i]
    ensures Represents(cells', p, a)
    decreases a
  {
    if a.Node? {
      FrameRepresents(cells, cells', cells[a.ix].child, a.child);
      FrameRepresents(cells, cells', cells[a.ix].sibling, a.sibling);
    }
  }

  ghost predicate Below(s: set<nat>, n: nat) { forall i :: i in s ==> i < n }

  lemma {:induction false} SizeOfSetBelow(s: set<nat>, n: nat)
    requires Below(s, n)
    ensures |s| <= n
  {
    if n == 0 {
      assert s == {};
    } else {
      SizeOfSetBelow(s - {n - 1}, n - 1);
    }
  }

  lemma {:induction false} SizeIsIndexCount(a: Ast)
    requires Distinct(a)
    ensures Size(a) == |Indices(a)|
  {
    if a.Node? {
      SizeIsIndexCount(a.child);
      SizeIsIndexCount(a.sibling);
      assert |Indices(a.child) + Indices(a.sibling)| == |Indices(a.child)| + |Indices(a.sibling)|;
      assert Indices(a) == {a.ix} + (Indices(a.child) + Indices(a.sibling));
    }
  }

  lemma {:induction false} IndicesInTable(cells: seq<Cell>, p: Link, a: Ast)
    requires Represents(cells, p, a)
    ensures Below(Indices(a), |cells|)
    decreases a
  {
    if a.Node? {
      IndicesInTable(cells, cells[a.ix].child, a.child);
      IndicesInTable(cells, cells[a.ix].sibling, a.sibling);
    }
  }

  /** A tree never has more nodes than the table has entries. */
  lemma TreeFitsTable(cells: seq<Cell>, p: Link, a: Ast)
    requires Represents(cells, p, a) && Distinct(a)
    ensures Size(a) <= |cells|
  {
    SizeIsIndexCount(a);
    IndicesInTable(cells, p, a);
    SizeOfSetBelow(Indices(a), |cells|);
  }

  /** The data type given to an identifier of a variable type, None for an unknown type. */
  function WidthOf(t: FinshType): Option<DataType> {
    match t
    case Unknown => None
    case VoidT => Some(Void)
    case Char => Some(Byte)
    case UChar => Some(Byte)
    case Short => Some(Word)
    case UShort => Some(Word)
    case _ => Some(Dword)
  }

  /** The nodes whose first child is checked as an address. */
  predicate TakesAddress(k: Kind) { k in {Assign, PreInc, PreDec} }

  /** The node that the type check leaves in the place of `a`, its children done. */
  function Marked(types: seq<FinshType>, a: Ast, isAddress: bool): Ast
    requires a.Node?
  {
    var t := if a.child.Node? then a.child.dataType
             else if a.kind == Id then
               if a.variable < |types| && WidthOf(types[a.variable]).Some? then WidthOf(types[a.variable]).value else a.dataType
             else if a.kind in {ValueInt, ValueLong} then Dword
             else a.dataType;
    a.(address := a.address || isAddress, dataType := t)
  }

  /** finsh_type_check on a tree value. */
  function Checked(types: seq<FinshType>, a: Ast, isAddress: bool): Ast {
    if a.Nil? then Nil
    else
      var child := Checked(types, a.child, TakesAddress(a.kind) || isAddress);
      var sibling := Checked(types, a.sibling, false);
      Marked(types, a.(child := child, sibling := sibling), isAddress)
  }

  lemma {:induction false} CheckedShape(types: seq<FinshType>, a: Ast, isAddress: bool)
    ensures Indices(Checked(types, a, isAddress)) == Indices(a)
    ensures Distinct(a) ==> Distinct(Checked(types, a, isAddress))
    ensures Size(Checked(types, a, isAddress)) == Size(a)
  {
    if a.Node? {
      CheckedShape(types, a.child, TakesAddress(a.kind) || isAddress);
      CheckedShape(types, a.sibling, false);
    }
  }

  /** The attributes finsh_type_check writes to one entry once its children are done. */
  function MarkedCell(types: seq<FinshType>, cells: seq<Cell>, ix: nat, isAddress: bool): Cell
    requires ix < |cells|
  {
    var c := cells[ix];
    var t := if c.child != None then
               if c.child.value < |cells| then cells[c.child.value].dataType else c.dataType
             else if c.kind == Id then
               if c.variable < |types| && WidthOf(types[c.variable]).Some? then WidthOf(types[c.variable]).value else c.dataType
             else if c.kind in {ValueInt, ValueLong} then Dword
             else c.dataType;
    c.(address := c.address || isAddress, dataType := t)
  }

  lemma MarkedRepresents(types: seq<FinshType>, cells: seq<Cell>, a: Ast, isAddress: bool)
    requires a.Node? && Represents(cells, Some(a.ix), a)
    requires a.ix !in Indices(a.child) + Indices(a.sibling)
    ensures Represents(cells[a.ix := MarkedCell(types, cells, a.ix, isAddress)], Some(a.ix), Marked(types, a, isAddress))
  {
    var cells' := cells[a.ix := MarkedCell(types, cells, a.ix, isAddress)];
    FrameRepresents(cells, cells', cells[a.ix].child, a.child);
    FrameRepresents(cells, cells', cells[a.ix].sibling, a.sibling);
  }

  lemma ChildChecked(cells: seq<Cell>, cells': seq<Cell>, a: Ast, child: Ast)
    requires |cells'| == |cells| && a.Node? && Represents(cells, Some(a.ix), a) && Distinct(a)
    requires Represents(cells', cells[a.ix].child, child)
    requires forall i :: 0 <= i < |cells| && i !in Indices(a.child) ==> cells'[i] == cells[i]
    ensures Represents(cells', Some(a.ix), a.(child := child))
  {
    FrameRepresents(cells, cells', cells[a.ix].sibling, a.sibling);
  }

  lemma SiblingChecked(cells: seq<Cell>, cells': seq<Cell>, a: Ast, sibling: Ast)
    requires |cells'| == |cells| && a.Node? && Represents(cells, Some(a.ix), a) && Distinct(a)
    requires Represents(cells', cells[a.ix].sibling, sibling)
    requires forall i :: 0 <= i < |cells| && i !in Indices(a.sibling) ==> cells'[i] == cells[i]
    ensures Represents(cells', Some(a.ix), a.(sibling := sibling))
  {
    FrameRepresents(cells, cells', cells[a.ix].child, a.child);
  }

  /** finsh_type_check: writes the data type and the address mark of every reachable entry. */
  method TypeCheck(cells: array<Cell>, types: seq<FinshType>, p: Link, isAddress: bool, ghost a: Ast)
    requires Represents(cells[..], p, a) && Distinct(a)
    modifies cells
    ensures Represents(cells[..], p, Checked(types, a, isAddress))
    ensures forall i :: 0 <= i < cells.Length && i !in Indices(a) ==> cells[i] == old(cells[i])
    decreases a
  {
    if p == None {
      return;
    }
    var node := p.value;
    ghost var was := cells[..];
    TypeCheckChild(cells, types, node, isAddress, a);
    ghost var a1 := a.(child := Checked(types, a.child, TakesAddress(a.kind) || isAddress));
    CheckedShape(types, a.child, TakesAddress(a.kind) || isAddress);
    assert Distinct(a1);

    ghost var mid := cells[..];
    TypeCheck(cells, types, cells[node].sibling, false, a1.sibling);
    ghost var a2 := a1.(sibling := Checked(types, a.sibling, false));
    CheckedShape(types, a.sibling, false);
    SiblingChecked(mid, cells[..], a1, a2.sibling);

    mid := cells[..];
    cells[node] := MarkedCell(types, cells[..], node, isAddress);
    assert cells[..] == mid[node := MarkedCell(types, mid, node, isAddress)];
    MarkedRepresents(types, mid, a2, isAddress);
  }

  /** The first half of finsh_type_check: the child list, as an address or as a value. */
  method TypeCheckChild(cells: array<Cell>, types: seq<FinshType>, node: nat, isAddress: bool, ghost a: Ast)
    requires Represents(cells[..], Some(node), a) && Distinct(a)
    modifies cells
    ensures Represents(cells[..], Some(node), a.(child := Checked(types, a.child, TakesAddress(a.kind) || isAddress)))
    ensures forall i :: 0 <= i < cells.Length && i !in Indices(a.child) ==> cells[i] == old(cells[i])
    decreases a, 0
  {
    ghost var was := cells[..];
    if TakesAddress(cells[node].kind) {
      TypeCheck(cells, types, cells[node].child, true, a.child);
    } else {
      TypeCheck(cells, types, cells[node].child, isAddress, a.child);
    }
    ChildChecked(was, cells[..], a, Checked(types, a.child, TakesAddress(a.kind) || isAddress));
  }
}

/** Code generation into the text segment. */
module FinshCompiler {
  import opened Wrappers
  import opened FinshWord
  import opened FinshArith
  import opened FinshVm
  import opened FinshNode

  /** The variable table as the compiler sees it: a type and the address of the value of each variable. */
  datatype Variables = Variables(types: seq<FinshType>, address: seq<word>) {
    predicate Valid() { |types| == |address| }
  }

  /** The types for which finsh_compile emits a DWORD load. */
  predicate LoadsDword(t: FinshType) {
    t in {Int, UInt, Long, ULong, CharP, ShortP, IntP, LongP}
  }

  predicate Known(vars: Variables, v: nat) { v < |vars.address| && v < |vars.types| }

  function LoadConst(v: word): seq<byte> { [OP_LD_DWORD] + SetDword(v) }

  function LoadCell(address: word): seq<byte> { [OP_LD_VALUE_DWORD] + SetDword(address) }

  predicate IdChild(vars: Variables, a: Ast)
  {
    a.Node? && a.child.Node? && a.child.kind == Id && Known(vars, a.child.variable)
  }

  /** `++x` and `--x` once the address of x is on the stack. */
  function PreStep(address: word, op: BinOp): seq<byte> {
    LoadCell(address) + LoadConst(1) + [OpCode(op), OP_ST_DWORD, OP_LD_VALUE_DWORD_STACK]
  }

  /** `x++` and `x--` once the value of x is on the stack. */
  function PostStep(address: word, op: BinOp): seq<byte> {
    LoadConst(address) + LoadCell(address) + LoadConst(1) + [OpCode(op), OP_ST_DWORD, OP_POP]
  }

  /** The bytes emitted for a node itself, after those of its children. */
  function Own(vars: Variables, a: Ast): seq<byte>
    requires a.Node?
  {
    match a.kind
    case Id =>
      if Known(vars, a.variable) && LoadsDword(vars.types[a.variable]) then
        if a.address then LoadConst(vars.address[a.variable]) else LoadCell(vars.address[a.variable])
      else []
    case ValueInt => LoadConst(a.value)
    case ValueLong => LoadConst(a.value)
    case Binary(op) => if a.dataType == Dword then [OpCode(op)] else []
    case Bitwise => if a.dataType == Dword then [OP_BITWISE_DWORD] else []
    case Assign =>
      if IdChild(vars, a) && a.child.dataType == Dword then [OP_ST_DWORD, OP_LD_VALUE_DWORD_STACK] else []
    case PreInc => if IdChild(vars, a) && a.dataType == Dword then PreStep(vars.address[a.child.variable], Add) else []
    case PreDec => if IdChild(vars, a) && a.dataType == Dword then PreStep(vars.address[a.child.variable], Sub) else []
    case Inc => if IdChild(vars, a) && a.dataType == Dword then PostStep(vars.address[a.child.variable], Add) else []
    case Dec => if IdChild(vars, a) && a.dataType == Dword then PostStep(vars.address[a.child.variable], Sub) else []
  }

  /** finsh_compile on a tree value: child, node, sibling. */
  function Code(vars: Variables, a: Ast): seq<byte> {
    if a.Nil? then [] else Code(vars, a.child) + Own(vars, a) + Code(vars, a.sibling)
  }

  /** A statement is compiled with its sibling link cut; a pop follows unless it is the last one. */
  function StatementCode(vars: Variables, a: Ast): seq<byte>
    requires a.Node?
  {
    Code(vars, a.(sibling := Nil)) + if a.sibling.Nil? then [] else [OP_POP]
  }

  /** The text of a statement list. */
  function Program(vars: Variables, a: Ast): seq<byte> {
    if a.Nil? then [] else StatementCode(vars, a) + Program(vars, a.sibling)
  }

  class Compiler {
    const cells: array<Cell>
    const text: array<byte>
    const vars: Variables
    var pc: nat

    constructor (cells: array<Cell>, text: array<byte>, vars: Variables)
      ensures this.cells == cells && this.text == text && this.vars == vars && pc == 0
    {
      this.cells, this.text, this.vars, pc := cells, text, vars, 0;
    }

    /** `code` stands right before the program counter, what was before it and behind it is as in `was`. */
    ghost predicate Emitted(was: seq<byte>, start: nat, code: seq<byte>)
      reads this, text
    {
      && |was| == text.Length && pc == start + |code| <= text.Length
      && text[..] == was[..start] + code + was[pc..]
    }

    lemma EmittedMore(was: seq<byte>, start: nat, code: seq<byte>, mid: seq<byte>, midPc: nat, more: seq<byte>)
      requires midPc == start + |code| <= |was| && |mid| == |was|
      requires mid == was[..start] + code + was[midPc..]
      requires Emitted(mid, midPc, more)
      ensures Emitted(was, start, code + more)
    {
      assert mid[..midPc] == was[..start] + code;
      assert mid[pc..] == was[pc..];
      assert was[..start] + code + more + was[pc..] == was[..start] + (code + more) + was[pc..];
    }

    /** finsh_code_byte, for each byte of `code` in turn. */
    method Emit(code: seq<byte>)
      requires pc + |code| <= text.Length
      modifies text, `pc
      ensures Emitted(old(text[..]), old(pc), code)
    {
      var i := 0;
      while i < |code|
        invariant 0 <= i <= |code| && pc == old(pc) + i
        invariant text[..] == old(text[..])[..old(pc)] + code[..i] + old(text[..])[pc..]
      {
        text[pc] := code[i];
        pc := pc + 1;
        i := i + 1;
        assert code[..i] == code[..i - 1] + [code[i - 1]];
      }
      assert code[..i] == code;
    }

    /** finsh_compile. */
    method Compile(p: Link, ghost a: Ast)
      requires cells as object != text
      requires Represents(cells[..], p, a)
      requires pc + |Code(vars, a)| <= text.Length
      modifies text, `pc
      ensures Emitted(old(text[..]), old(pc), Code(vars, a))
      decreases a
    {
      if p == None {
        return;
      }
      ghost var t0, p0 := text[..], pc;
      var node := cells[p.value];
      Compile(node.child, a.child);
      ghost var t1, p1 := text[..], pc;
      var own := CompileNode(node, a);
      Emit(own);
      EmittedMore(t0, p0, Code(vars, a.child), t1, p1, own);
      ghost var t2, p2 := text[..], pc;
      Compile(node.sibling, a.sibling);
      EmittedMore(t0, p0, Code(vars, a.child) + own, t2, p2, Code(vars, a.sibling));
    }

    /** The switch of finsh_compile over the node type. */
    method CompileNode(node: Cell, ghost a: Ast) returns (code: seq<byte>)
      requires a.Node? && Represents(cells[..], Some(a.ix), a) && node == cells[a.ix]
      ensures code == Own(vars, a)
    {
      code := [];
      match node.kind
      case Id =>
        if node.variable < |vars.types| && node.variable < |vars.address| && LoadsDword(vars.types[node.variable]) {
          code := [if node.address then OP_LD_DWORD else OP_LD_VALUE_DWORD];
          code := code + SetDword(vars.address[node.variable]);
        }
      case ValueInt | ValueLong =>
        code := [OP_LD_DWORD] + SetDword(node.value);
      case Binary(op) =>
        if node.dataType == Dword { code := [OpCode(op)]; }
      case Bitwise =>
        if node.dataType == Dword { code := [OP_BITWISE_DWORD]; }
      case Assign =>
        if node.child != None && cells[node.child.value].kind == Id {
          var c := cells[node.child.value];
          if c.dataType == Dword && Known(vars, c.variable) {
            code := [OP_ST_DWORD, OP_LD_VALUE_DWORD_STACK];
          }
        }
      case PreInc | PreDec =>
        if node.child != None && cells[node.child.value].kind == Id {
          var v := cells[node.child.value].variable;
          if node.dataType == Dword && Known(vars, v) {
            code := LoadCell(vars.address[v]) + LoadConst(1);
            code := code + [OpCode(if node.kind == PreInc then Add else Sub), OP_ST_DWORD, OP_LD_VALUE_DWORD_STACK];
          }
        }
      case Inc | Dec =>
        if node.child != None && cells[node.child.value].kind == Id {
          var v := cells[node.child.value].variable;
          if node.dataType == Dword && Known(vars, v) {
            code := LoadConst(vars.address[v]) + LoadCell(vars.address[v]) + LoadConst(1);
            code := code + [OpCode(if node.kind == Inc then Add else Sub), OP_ST_DWORD, OP_POP];
          }
        }
    }

    /** One turn of the loop of finsh_compiler_run. */
    method CompileStatement(current: nat, ghost a: Ast) returns (next: Link)
      requires cells as object != text
      requires Represents(cells[..], Some(current), a) && Distinct(a)
      requires pc + |StatementCode(vars, a)| <= text.Length
      modifies cells, text, `pc
      ensures Emitted(old(text[..]), old(pc), StatementCode(vars, a))
      ensures Represents(cells[..], next, a.sibling)
    {
      ghost var before, was, start := cells[..], text[..], pc;
      next := cells[current].sibling;
      cells[current] := cells[current].(sibling := None);
      FrameRepresents(before, cells[..], cells[current].child, a.child);
      FrameRepresents(before, cells[..], next, a.sibling);
      ghost var alone := a.(sibling := Nil);
      Compile(Some(current), alone);
      if next != None {
        ghost var mid, midPc := text[..], pc;
        Emit([OP_POP]);
        EmittedMore(was, start, Code(vars, alone), mid, midPc, [OP_POP]);
      } else {
        assert Code(vars, alone) + [] == Code(vars, alone);
      }
    }

    lemma ProgramStep(done: seq<byte>, a: Ast)
      requires a.Node?
      ensures done + Program(vars, a) == (done + StatementCode(vars, a)) + Program(vars, a.sibling)
    {
    }

    /** The statement loop of finsh_compiler_run, on a cleared text segment. */
    method CompileAll(root: Link, ghost a: Ast)
      requires cells as object != text
      requires Represents(cells[..], root, a) && Distinct(a)
      requires pc == 0 && |Program(vars, a)| <= text.Length
      modifies cells, text, `pc
      ensures Emitted(old(text[..]), 0, Program(vars, a))
    {
      var sibling := root;
      ghost var zeros, done, rest := text[..], [], a;
      while sibling != None
        invariant Represents(cells[..], sibling, rest) && Distinct(rest)
        invariant done + Program(vars, rest) == Program(vars, a)
        invariant Emitted(zeros, 0, done)
        decreases rest
      {
        ghost var mid, midPc, code := text[..], pc, StatementCode(vars, rest);
        ProgramStep(done, rest);
        sibling := CompileStatement(sibling.value, rest);
        EmittedMore(zeros, 0, done, mid, midPc, code);
        done, rest := done + code, rest.sibling;
      }
      assert done + [] == done;
    }

    /** finsh_compiler_run: type check, clear the text, compile the statements one after another. */
    method Run(root: Link, ghost a: Ast)
      requires cells as object != text
      requires Represents(cells[..], root, a) && Distinct(a)
      requires |Program(vars, Checked(vars.types, a, false))| <= text.Length
      modifies cells, text, `pc
      ensures pc == |Program(vars, Checked(vars.types, a, false))| <= text.Length
      ensures text[..] == Program(vars, Checked(vars.types, a, false)) + Zeros(text.Length - pc)
    {
      TypeCheck(cells, vars.types, root, false, a);
      CheckedShape(vars.types, a, false);
      Clear();
      CompileAll(root, Checked(vars.types, a, false));
    }

    method Clear()
      modifies text, `pc
      ensures text[..] == Zeros(text.Length) && pc == 0
    {
      forall i | 0 <= i < text.Length {
        text[i] := OP_NOOP;
      }
      pc := 0;
    }
  }

  function Zeros(n: nat): seq<byte> { seq(n, _ => OP_NOOP) }
}
