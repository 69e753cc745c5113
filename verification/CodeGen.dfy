/** The compiler back end as a recursive function from syntax to assembler and to units. */
module CodeGen {
  import opened Bytecode
  import opened Syntax

  /** Name of the loop register of a `for` block at depth `d`: `$l0` to `$l9`. */
  function LReg(d: nat): string {
    "$l" + [((48 + d) % 256) as char]
  }

  predicate IsLReg(name: string) {
    |name| >= 3 && name[0] == '$' && name[1] == 'l' && '0' <= name[2] <= '9'
  }

  /** Postfix code of an expression at invoke depth `k`. */
  function ExprAsm(e: Expr, k: nat): (r: seq<Asm>)
    ensures AllI(r) && |r| > 0
  {
    match e
    case Node(ins, data, args) => ExprsAsm(args, k + 1) + [I(k, ins, data)]
    case ListOf(items) => [I(k, LST, "")] + ExprsAsm(items, k + 1) + [I(k, NLS, "")]
    case Kw(name, value) => ExprAsm(value, k) + [I(k, OUT, name)]
  }

  function ExprsAsm(es: Exprs, k: nat): (r: seq<Asm>)
    ensures AllI(r)
  {
    match es
    case ENil => []
    case ECons(head, tail) => ExprAsm(head, k) + ExprsAsm(tail, k)
  }

  // The instruction lines of each kind of source line.

  function SimpleAsm(st: Stmt): (r: seq<Asm>)
    requires !st.If? && !st.While? && !st.For?
    ensures AllI(r)
  {
    match st
    case Pass => []
    case Do(e) => ExprAsm(e, 0)
    case Assign(x, e) => ExprAsm(Kw(x, e), 0)
    case Del(x) => [I(0, DEL, x)]
    case Return(e) => ExprAsm(e, 0) + [I(0, RET, "")]
    case ReturnNone => [I(0, RET, "")]
    case Break => [I(0, BRK, "")]
    case Continue => [I(0, CTN, "")]
  }

  function IfAsm(c: Expr): (r: seq<Asm>) ensures AllI(r) {
    ExprAsm(c, 0) + [I(0, JEZ, "1")]
  }

  const ELSE_ASM: seq<Asm> := [I(0, NEL, "1")]

  function ElifAsm(c: Expr): (r: seq<Asm>) ensures AllI(r) {
    ELSE_ASM + IfAsm(c)
  }

  function WhileAsm(c: Expr): (r: seq<Asm>) ensures AllI(r) {
    ExprAsm(c, 0) + [I(0, JEZ, "2")]
  }

  /** `iter(e)`, the text the parser puts in the place of the iterated expression. */
  function IterOf(e: Expr): Expr {
    Node(RUN, "iter", ECons(e, ENil))
  }

  function ForInitAsm(e: Expr, d: nat): (r: seq<Asm>) ensures AllI(r) {
    ExprAsm(IterOf(e), 0) + [I(0, OUT, LReg(d))]
  }

  function ForNextAsm(x: string, d: nat): seq<Asm> {
    [I(0, RUN, LReg(d) + ".__next__"), I(0, OUT, x), I(0, EST, x), I(0, JEZ, "2")]
  }

  const BACK_ASM: seq<Asm> := [I(0, JMP, "-1")]

  function DelAsm(d: nat): seq<Asm> {
    [I(0, DEL, LReg(d))]
  }

  // Assembler text of whole statements at block depth `d`.

  function StmtAsm(st: Stmt, d: nat): seq<Asm> {
    match st
    case If(c, body, rest) =>
      [B(d)] + IfAsm(c) + BlockAsm(body, d + 1) + RestAsm(rest, d)
    case While(c, body, rest) =>
      [B(d)] + WhileAsm(c) + BlockAsm(body, d + 1) + ([B(d)] + BACK_ASM) + RestAsm(rest, d)
    case For(x, e, body, rest) =>
      [B(d)] + ForInitAsm(e, d) + ([B(d)] + ForNextAsm(x, d)) + BlockAsm(body, d + 1)
      + (([B(d)] + BACK_ASM) + ([B(d)] + DelAsm(d))) + RestAsm(rest, d)
    case _ => [B(d)] + SimpleAsm(st)
  }

  function BlockAsm(b: Block, d: nat): seq<Asm> {
    match b
    case BNil => []
    case BCons(head, tail) => StmtAsm(head, d) + BlockAsm(tail, d)
  }

  function RestAsm(r: Else, d: nat): seq<Asm> {
    match r
    case NoElse => []
    case Else(body) => [B(d)] + ELSE_ASM + BlockAsm(body, d + 1)
    case Elif(c, body, rest) => [B(d)] + ElifAsm(c) + BlockAsm(body, d + 1) + RestAsm(rest, d)
  }

  // Units of whole statements at block depth `d`.

  function StmtCode(st: Stmt, d: nat): seq<Unit> {
    match st
    case If(c, body, rest) =>
      Line(d, IfAsm(c)) + BlockCode(body, d + 1) + RestCode(rest, d)
    case While(c, body, rest) =>
      Line(d, WhileAsm(c)) + BlockCode(body, d + 1) + Line(d, BACK_ASM) + RestCode(rest, d)
    case For(x, e, body, rest) =>
      Line(d, ForInitAsm(e, d)) + Line(d, ForNextAsm(x, d)) + BlockCode(body, d + 1)
      + Line(d, BACK_ASM) + Line(d, DelAsm(d)) + RestCode(rest, d)
    case _ => Line(d, SimpleAsm(st))
  }

  function BlockCode(b: Block, d: nat): seq<Unit> {
    match b
    case BNil => []
    case BCons(head, tail) => StmtCode(head, d) + BlockCode(tail, d)
  }

  function RestCode(r: Else, d: nat): seq<Unit> {
    match r
    case NoElse => []
    case Else(body) => Line(d, ELSE_ASM) + BlockCode(body, d + 1)
    case Elif(c, body, rest) => Line(d, ElifAsm(c)) + BlockCode(body, d + 1) + RestCode(rest, d)
  }

  /** The two lines of a `for` head, unit by unit: the iterated expression one invoke depth down, the call of `iter` and
      its result in register `$l<depth>`; then the next item of that register, its test, and the jump over the body. */
  lemma ForHeadUnits(x: string, e: Expr, d: nat)
    requires d < 10
    ensures var reg := "$l" + [('0' as int + d) as char];
      && Line(d, ForInitAsm(e, d)) == Units(d, true, ExprAsm(e, 1))
           + [Unit(d, 0, false, RUN, "iter"), Unit(d, 0, false, OUT, reg)]
      && Line(d, ForNextAsm(x, d)) == [
           Unit(d, 0, true, RUN, reg + ".__next__"), Unit(d, 0, false, OUT, x), Unit(d, 0, false, EST, x), Unit(d, 0, false, JEZ, "2")]
  {
    hide *;
    InitText(e, d);
    UnitsTwo(d, ExprAsm(e, 1), I(0, RUN, "iter"), I(0, OUT, LReg(d)));
    LineIs(d, ForInitAsm(e, d));
    Packed(d, I(0, RUN, "iter"));
    Packed(d, I(0, OUT, LReg(d)));
    RegisterName(d);
    NextUnits(x, d);
  }

  lemma Packed(d: nat, a: Asm)
    requires d < 10 && a.I? && a.invoke == 0
    ensures Pack(d, false, a) == Unit(d, 0, false, a.ins, a.data)
  {
  }

  lemma RegisterName(d: nat)
    requires d < 10
    ensures LReg(d) == "$l" + [('0' as int + d) as char]
  {
  }

  lemma NextUnits(x: string, d: nat)
    requires d < 10
    ensures Line(d, ForNextAsm(x, d)) == [
      Unit(d, 0, true, RUN, LReg(d) + ".__next__"), Unit(d, 0, false, OUT, x), Unit(d, 0, false, EST, x), Unit(d, 0, false, JEZ, "2")]
  {
    hide LReg;
  }

  lemma InitText(e: Expr, d: nat)
    ensures ForInitAsm(e, d) == ExprAsm(e, 1) + [I(0, RUN, "iter"), I(0, OUT, LReg(d))]
  {
    assert ExprsAsm(ECons(e, ENil), 1) == ExprAsm(e, 1) + [] == ExprAsm(e, 1);
  }

  lemma LineIs(d: nat, code: seq<Asm>)
    requires AllI(code)
    ensures Line(d, code) == Units(d, true, code)
  {
  }

  lemma UnitsTwo(d: nat, code: seq<Asm>, a: Asm, b: Asm)
    requires AllI(code) && code != [] && a.I? && b.I?
    ensures AllI(code + [a, b]) && Units(d, true, code + [a, b]) == Units(d, true, code) + [Pack(d, false, a), Pack(d, false, b)]
  {
    var all := code + [a, b];
    assert AllI(all);
    assert Units(d, true, all) == Units(d, true, code) + [Pack(d, false, a), Pack(d, false, b)];
  }
}
