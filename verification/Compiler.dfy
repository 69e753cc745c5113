/** The compiler as it works: expression nodes appended to a text buffer with a running invoke
    depth, source lines driven by a block stack, and an assembler that appends units. */
module Compiler {
  import opened Bytecode
  import opened Syntax
  import opened CodeGen
  import opened Streaming
  import opened Bytes
  import opened ConstPool
  import opened Image

  function SizeExpr(e: Expr): nat {
    match e
    case Node(_, _, args) => 1 + SizeExprs(args)
    case ListOf(items) => 1 + SizeExprs(items)
    case Kw(_, value) => 1 + SizeExpr(value)
  }

  function SizeExprs(es: Exprs): nat {
    match es
    case ENil => 0
    case ECons(head, tail) => 1 + SizeExpr(head) + SizeExprs(tail)
  }

  /** Text of one source line under construction. */
  class Emitter {
    var deepth: int
    var text: seq<Asm>

    constructor ()
      ensures deepth == 0 && text == []
    {
      deepth, text := 0, [];
    }

    method Put(a: Asm)
      modifies this`text
      ensures text == old(text) + [a]
    {
      text := text + [a];
    }

    /** Appends the code of `e` at the current invoke depth; the depth is one less afterwards. */
    method GenAsm(e: Expr)
      requires deepth >= 0
      modifies this
      ensures text == old(text) + ExprAsm(e, old(deepth)) && deepth == old(deepth) - 1
      decreases SizeExpr(e), 1
    {
      var d := deepth;
      match e {
        case Node(ins, data, args) =>
          GenAll(args, d);
          Put(I(d, ins, data));
        case ListOf(items) =>
          Put(I(d, LST, ""));
          GenAll(items, d);
          Put(I(d, NLS, ""));
        case Kw(name, value) =>
          GenAsm(value);
          Put(I(d, OUT, name));
      }
      deepth := d - 1;
    }

    /** Appends the code of the sub-statements of a node at invoke depth `d`, one level deeper. */
    method GenAll(es: Exprs, d: nat)
      modifies this
      ensures text == old(text) + ExprsAsm(es, d + 1)
      decreases SizeExprs(es), 0
    {
      var rest := es;
      while rest.ECons?
        invariant text + ExprsAsm(rest, d + 1) == old(text) + ExprsAsm(es, d + 1)
        invariant SizeExprs(rest) <= SizeExprs(es)
        decreases rest
      {
        deepth := d + 1;
        ghost var before := text;
        GenAsm(rest.head);
        Assoc(before, ExprAsm(rest.head, d + 1), ExprsAsm(rest.tail, d + 1));
        rest := rest.tail;
      }
      assert text + [] == text;
    }
  }

  /** Compiler of a source file, fed line by line. */
  class LineCompiler {
    var stack: seq<Kind>
    var origin: Option<nat>

    constructor ()
      ensures stack == [] && origin == None
    {
      stack, origin := [], None;
    }

    /** Moves `n` block kinds from the block stack to a queue, innermost first. */
    method PopExits(n: int) returns (exit: seq<Kind>)
      requires n <= |stack|
      modifies this`stack
      ensures |exit| == (if n < 0 then 0 else n) && stack == old(stack)[..|old(stack)| - |exit|]
      ensures forall i :: 0 <= i < |exit| ==> exit[i] == old(stack)[|old(stack)| - 1 - i]
    {
      exit := [];
      while |exit| < n
        invariant |exit| <= (if n < 0 then 0 else n) && stack == old(stack)[..|old(stack)| - |exit|]
        invariant forall i :: 0 <= i < |exit| ==> exit[i] == old(stack)[|old(stack)| - 1 - i]
      {
        exit := exit + [stack[|stack| - 1]];
        stack := stack[..|stack| - 1];
      }
    }

    /** Closes the blocks the line leaves, returns the text of the line and opens its block. The line must not
        be indented less than the first line of the file. */
    method CompileLine(l: SrcLine) returns (text: seq<Asm>)
      requires OkLine(l) && (origin.Some? ==> origin.value <= l.depth) && (origin.None? ==> stack == [])
      modifies this
      ensures origin == Some(if old(origin).Some? then old(origin).value else l.depth)
      ensures stack == EmitLine(old(stack), origin.value, l).0
      ensures text == EmitLine(old(stack), origin.value, l).1
    {
      hide HeadAsm, Flush, ExitAsm, OkLine;
      if origin.None? {
        origin := Some(l.depth);
      }
      ghost var was, low := stack, l.depth - origin.value;
      // blocks to leave go from the block stack to the exit queue
      var exit: seq<Kind> := [];
      if stack != [] {
        exit := PopExits(|stack| + origin.value - l.depth);
      }
      assert stack == Cut(was, low);
      text := ExitText(exit, l.depth, was, origin.value);
      FlushNone(was, origin.value, low);
      FlushNone(was, origin.value, |was|);
      assert text == Flush(was, origin.value, low);
      var head := HeadText(l);
      text := text + head;
      stack := stack + Opens(l.head);
    }
  }

  lemma FlushNone(stack: seq<Kind>, base: nat, low: nat)
    ensures |stack| <= low ==> Flush(stack, base, low) == []
  {
  }

  /** Exit code of the queued blocks: each is at the depth of the new line plus the number of
      blocks still queued behind it. */
  method ExitText(exit: seq<Kind>, now: nat, ghost was: seq<Kind>, ghost base: nat) returns (text: seq<Asm>)
    requires |exit| <= |was| && (exit != [] ==> now == base + |was| - |exit|)
    requires forall i :: 0 <= i < |exit| ==> exit[i] == was[|was| - 1 - i]
    ensures text == Flush(was, base, |was| - |exit|)
  {
    hide ExitAsm;
    text := [];
    ghost var low := |was| - |exit|;
    assert was[..|was|] == was;
    for bottom := 0 to |exit|
      invariant text + Flush(was[..|was| - bottom], base, low) == Flush(was, base, low)
    {
      var offset := |exit| - bottom - 1;
      ghost var k := |was| - bottom - 1;
      assert was[..k + 1][..k] == was[..k] && was[..k + 1][k] == exit[bottom];
      Assoc(text, ExitAsm(exit[bottom], now + offset), Flush(was[..k], base, low));
      text := text + ExitAsm(exit[bottom], now + offset);
    }
    assert Flush(was[..low], base, low) == [];
    assert text + [] == text;
  }

  /** Text of the line itself: `B<depth>`, then its instructions. */
  method HeadText(l: SrcLine) returns (r: seq<Asm>)
    requires OkLine(l)
    ensures r == HeadAsm(l)
  {
    hide ExprAsm, SimpleAsm, LReg;
    var out := new Emitter();
    var d := l.depth;
    out.Put(B(d));
    match l.head {
      case IfHead(c) => out.GenAsm(c); out.Put(I(0, JEZ, "1"));
      case ElifHead(c) => out.Put(I(0, NEL, "1")); out.GenAsm(c); out.Put(I(0, JEZ, "1"));
      case ElseHead => out.Put(I(0, NEL, "1"));
      case WhileHead(c) => out.GenAsm(c); out.Put(I(0, JEZ, "2"));
      case ForHead(x, e) => ForText(out, x, e, d);
      case Plain(st) => PlainText(out, st);
    }
    r := out.text;
  }

  method ForText(out: Emitter, x: string, e: Expr, d: nat)
    requires out.deepth == 0
    modifies out
    ensures out.text == old(out.text) + ForInitAsm(e, d) + ([B(d)] + ForNextAsm(x, d))
  {
    hide ExprAsm, LReg, ForNextAsm;
    out.GenAsm(IterOf(e));
    out.Put(I(0, OUT, LReg(d)));
    out.Put(B(d));
    out.text := out.text + ForNextAsm(x, d);
  }

  method PlainText(out: Emitter, st: Stmt)
    requires Simple(st) && out.deepth == 0
    modifies out
    ensures out.text == old(out.text) + SimpleAsm(st)
  {
    match st {
      case Do(e) => out.GenAsm(e);
      case Assign(x, e) => out.GenAsm(Kw(x, e));
      case Return(e) => out.GenAsm(e); out.Put(I(0, RET, ""));
      case ReturnNone => out.Put(I(0, RET, ""));
      case Del(x) => out.Put(I(0, DEL, x));
      case Break => out.Put(I(0, BRK, ""));
      case Continue => out.Put(I(0, CTN, ""));
      case _ =>
    }
  }

  lemma FirstLine(b: Block, d: nat)
    ensures var ls := BlockLines(b, d) + [SrcLine(d, Plain(Pass))]; ls[0].depth == d
  {
    if b.BCons? {
      FirstLine(b.tail, d);
      assert StmtLines(b.head, d)[0].depth == d;
    }
  }

  /** The text of the lines from `i` on is that of line `i` and of the lines after it, and each line
      can be assembled on its own. */
  lemma RestOfText(stack: seq<Kind>, ls: seq<SrcLine>, i: nat)
    requires i < |ls| && From(ls, 0)
    ensures From(ls[i..], 0) && From(ls[i + 1..], 0) && OkLine(ls[i])
    ensures var (s, text) := EmitLine(stack, 0, ls[i]);
            Assemble(Emit(stack, 0, ls[i..]).1) == Assemble(text) + Assemble(Emit(s, 0, ls[i + 1..]).1)
  {
    hide EmitLine, OkLine, Assemble;
    assert ls[i] in ls && ls[i..][1..] == ls[i + 1..];
    var (s, text) := EmitLine(stack, 0, ls[i]);
    EmitStarts(s, ls[i + 1..]);
    AssembleConcat(text, Emit(s, 0, ls[i + 1..]).1, 0, false);
  }

  lemma {:induction false} FlushStarts(stack: seq<Kind>, base: nat, low: nat)
    ensures StartsLine(Flush(stack, base, low))
    decreases |stack|
  {
    if |stack| > low {
      FlushStarts(stack[..|stack| - 1], base, low);
    }
  }

  lemma EmitStarts(stack: seq<Kind>, ls: seq<SrcLine>)
    requires From(ls, 0)
    ensures StartsLine(Emit(stack, 0, ls).1)
  {
    if ls != [] {
      assert ls[0] in ls;
      FlushStarts(stack, 0, ls[0].depth);
      assert HeadAsm(ls[0])[0] == B(ls[0].depth);
    }
  }

  /** Compiling the source text of a program, closed by the empty line the compiler adds, gives the
      units of the recursive compilation. */
  method CompileProgram(b: Block) returns (texts: seq<seq<Asm>>)
    ensures UnitsOf(texts) == BlockCode(b, 0)
  {
    hide EmitLine, BlockCode, BlockLines;
    var ls := BlockLines(b, 0) + [SrcLine(0, Plain(Pass))];
    StreamingIsRecursive(b, 0);
    StreamedUnits(b);
    FirstLine(b, 0);
    assert ls[0..] == ls;
    var c := new LineCompiler();
    texts := [];
    var i := 0;
    while i < |ls|
      invariant 0 <= i <= |ls| && From(ls, 0) && From(ls[i..], 0) && ls[0].depth == 0
      invariant c.origin == if i == 0 then None else Some(0)
      invariant i == 0 ==> c.stack == []
      invariant UnitsOf(texts) + Assemble(Emit(c.stack, 0, ls[i..]).1) == BlockCode(b, 0)
      decreases |ls| - i
    {
      RestOfText(c.stack, ls, i);
      var text := c.CompileLine(ls[i]);
      Assoc(UnitsOf(texts), Assemble(text), Assemble(Emit(c.stack, 0, ls[i + 1..]).1));
      UnitsSnoc(texts, text);
      texts := texts + [text];
      i := i + 1;
    }
    assert ls[|ls|..] == [];
    assert UnitsOf(texts) + [] == UnitsOf(texts);
  }

  lemma UnitsSnoc(texts: seq<seq<Asm>>, text: seq<Asm>)
    ensures UnitsOf(texts + [text]) == UnitsOf(texts) + Assemble(text)
  {
    assert (texts + [text])[..|texts|] == texts;
  }

  /** Operands of a text are operands of its units. */
  lemma {:induction false} TextOperand(text: seq<Asm>, block: nat, newLine: bool, i: nat)
    requires i < |text| && text[i].I?
    ensures exists u <- Assemble(text, block, newLine) :: u.data == text[i].data
    decreases |text|
  {
    match text[0]
    case B(d) => TextOperand(text[1..], d, true, i - 1);
    case I(_, _, data) =>
      if i == 0 {
        assert Pack(block, newLine, text[0]) in Assemble(text, block, newLine);
      } else {
        TextOperand(text[1..], block, false, i - 1);
      }
  }

  lemma {:induction false} UnitsIn(texts: seq<seq<Asm>>, k: nat, u: Unit)
    requires k < |texts| && u in Assemble(texts[k])
    ensures u in UnitsOf(texts)
  {
    if k < |texts| - 1 {
      UnitsIn(texts[..|texts| - 1], k, u);
    }
  }

  lemma TextsWritable(texts: seq<seq<Asm>>)
    requires forall u <- UnitsOf(texts) :: Operand(u.data)
    ensures Writable(texts)
  {
    hide Operand, UnitsOf;
    forall k, i | 0 <= k < |texts| && 0 <= i < |texts[k]| && texts[k][i].I?
      ensures Operand(texts[k][i].data)
    {
      TextOperand(texts[k], 0, false, i);
      var u :| u in Assemble(texts[k]) && u.data == texts[k][i].data;
      UnitsIn(texts, k, u);
    }
  }

  /** From source text to `.pyo` file. */
  method CompileFile(b: Block) returns (file: seq<Byte>)
    requires forall u <- BlockCode(b, 0) :: Operand(u.data)
    ensures file == File(BlockCode(b, 0))
  {
    var texts := CompileProgram(b);
    TextsWritable(texts);
    file := Compile(texts);
  }

  lemma {:induction false} AssemblePacked(text: seq<Asm>, block: nat, newLine: bool, u: Unit)
    requires u in Assemble(text, block, newLine)
    ensures u.block < 16 && u.invoke < 16
    decreases |text|
  {
    match text[0]
    case B(d) => AssemblePacked(text[1..], d, true, u);
    case I(_, _, _) =>
      if u != Pack(block, newLine, text[0]) {
        AssemblePacked(text[1..], block, false, u);
      }
  }

  /** A program compiled to a file and loaded again presents to the VM exactly the units of the compiled program. */
  lemma LoadedProgram(b: Block)
    requires forall u <- BlockCode(b, 0) :: Operand(u.data)
    requires InReach(PoolOf(BlockCode(b, 0))) && |File(BlockCode(b, 0))| < U32
    ensures var l := Load(File(BlockCode(b, 0)));
      && l.Some? && |l.value.code| == 4 * |BlockCode(b, 0)|
      && forall i :: 0 <= i < |BlockCode(b, 0)| ==> ReadUnit(l.value.code, 4 * i, l.value.pool) == Some(BlockCode(b, 0)[i])
  {
    hide BlockCode, Operand, InReach, PoolOf, File, Load, ReadUnit, Emit, BlockLines, Assemble;
    StreamedUnits(b);
    var units := BlockCode(b, 0);
    forall i | 0 <= i < |units|
      ensures Storable(units[i])
    {
      assert units[i] in units;
      StreamingIsRecursive(b, 0);
      AssemblePacked(Emit([], 0, BlockLines(b, 0) + [SrcLine(0, Plain(Pass))]).1, 0, false, units[i]);
    }
    ImageRoundTrip(units);
  }
}
