/** Line-by-line compilation with a block stack equals recursive compilation of the block tree. */
module Streaming {
  import opened Bytecode
  import opened Syntax
  import opened CodeGen

  /** What the parser sees of one source line after its indentation. */
  datatype Head =
    | IfHead(c: Expr) | ElifHead(c: Expr) | ElseHead | WhileHead(c: Expr) | ForHead(x: string, e: Expr)
    | Plain(st: Stmt)

  datatype SrcLine = SrcLine(depth: nat, head: Head)

  /** Entries of the block stack. */
  datatype Kind = KIf | KElif | KElse | KWhile | KFor

  predicate Simple(st: Stmt) {
    !st.If? && !st.While? && !st.For?
  }

  predicate OkLine(l: SrcLine) {
    l.head.Plain? ==> Simple(l.head.st)
  }

  predicate OkLines(ls: seq<SrcLine>) {
    forall l :: l in ls ==> OkLine(l)
  }

  // ---- source text of a program ----

  function StmtLines(st: Stmt, d: nat): (r: seq<SrcLine>)
    ensures OkLines(r)
  {
    match st
    case If(c, body, rest) => [SrcLine(d, IfHead(c))] + BlockLines(body, d + 1) + RestLines(rest, d)
    case While(c, body, rest) => [SrcLine(d, WhileHead(c))] + BlockLines(body, d + 1) + RestLines(rest, d)
    case For(x, e, body, rest) => [SrcLine(d, ForHead(x, e))] + BlockLines(body, d + 1) + RestLines(rest, d)
    case _ => [SrcLine(d, Plain(st))]
  }

  function BlockLines(b: Block, d: nat): (r: seq<SrcLine>)
    ensures OkLines(r)
  {
    match b
    case BNil => []
    case BCons(head, tail) => StmtLines(head, d) + BlockLines(tail, d)
  }

  function RestLines(r: Else, d: nat): (ls: seq<SrcLine>)
    ensures OkLines(ls)
  {
    match r
    case NoElse => []
    case Else(body) => [SrcLine(d, ElseHead)] + BlockLines(body, d + 1)
    case Elif(c, body, rest) => [SrcLine(d, ElifHead(c))] + BlockLines(body, d + 1) + RestLines(rest, d)
  }

  // ---- emission of one line ----

  function HeadAsm(l: SrcLine): seq<Asm>
    requires OkLine(l)
  {
    var d := l.depth;
    match l.head
    case IfHead(c) => [B(d)] + IfAsm(c)
    case ElifHead(c) => [B(d)] + ElifAsm(c)
    case ElseHead => [B(d)] + ELSE_ASM
    case WhileHead(c) => [B(d)] + WhileAsm(c)
    case ForHead(x, e) => [B(d)] + ForInitAsm(e, d) + ([B(d)] + ForNextAsm(x, d))
    case Plain(st) => [B(d)] + SimpleAsm(st)
  }

  /** Code emitted when a block of kind `k` at depth `d` is left. */
  function ExitAsm(k: Kind, d: nat): seq<Asm> {
    match k
    case KWhile => [B(d)] + BACK_ASM
    case KFor => ([B(d)] + BACK_ASM) + ([B(d)] + DelAsm(d))
    case _ => []
  }

  function Opens(h: Head): seq<Kind> {
    match h
    case IfHead(_) => [KIf]
    case ElifHead(_) => [KElif]
    case ElseHead => [KElse]
    case WhileHead(_) => [KWhile]
    case ForHead(_, _) => [KFor]
    case Plain(_) => []
  }

  /** Leaving the blocks of `stack` above height `low`, innermost first; `base` is the depth of
      the outermost block. */
  function Flush(stack: seq<Kind>, base: nat, low: nat): seq<Asm> {
    if |stack| <= low then []
    else
      var n := |stack| - 1;
      ExitAsm(stack[n], base + n) + Flush(stack[..n], base, low)
  }

  function Cut(stack: seq<Kind>, low: nat): seq<Kind> {
    if |stack| <= low then stack else stack[..low]
  }

  /** Block stack and assembler text after one line. */
  function EmitLine(stack: seq<Kind>, base: nat, l: SrcLine): (seq<Kind>, seq<Asm>)
    requires base <= l.depth && OkLine(l)
  {
    (Cut(stack, l.depth - base) + Opens(l.head), Flush(stack, base, l.depth - base) + HeadAsm(l))
  }

  predicate From(ls: seq<SrcLine>, base: nat) {
    forall l :: l in ls ==> base <= l.depth && OkLine(l)
  }

  function Emit(stack: seq<Kind>, base: nat, ls: seq<SrcLine>): (seq<Kind>, seq<Asm>)
    requires From(ls, base)
    decreases |ls|
  {
    if ls == [] then (stack, [])
    else
      assert ls[0] in ls;
      var (s1, a1) := EmitLine(stack, base, ls[0]);
      var (s2, a2) := Emit(s1, base, ls[1..]);
      (s2, a1 + a2)
  }

  lemma Assoc<T>(a: seq<T>, b: seq<T>, c: seq<T>)
    ensures a + b + c == a + (b + c)
  {
  }

  lemma {:induction false} EmitConcat(stack: seq<Kind>, base: nat, x: seq<SrcLine>, y: seq<SrcLine>)
    requires From(x, base) && From(y, base)
    ensures From(x + y, base)
    ensures var (s1, a1) := Emit(stack, base, x); var (s2, a2) := Emit(s1, base, y);
            Emit(stack, base, x + y) == (s2, a1 + a2)
    decreases |x|
  {
    if x == [] {
      assert x + y == y;
      assert [] + Emit(stack, base, y).1 == Emit(stack, base, y).1;
    } else {
      hide EmitLine, OkLine;
      assert x[0] in x && (x + y)[0] == x[0] && (x + y)[1..] == x[1..] + y;
      var s1 := EmitLine(stack, base, x[0]).0;
      EmitConcat(s1, base, x[1..], y);
      Assoc(EmitLine(stack, base, x[0]).1, Emit(s1, base, x[1..]).1, Emit(Emit(s1, base, x[1..]).0, base, y).1);
    }
  }

  // ---- streaming equals recursive ----

  /** Emitting `ls` from `stack` and then leaving all blocks down to depth `d` produces `code` after
      whatever was still open above depth `d`. */
  ghost predicate Streams(stack: seq<Kind>, base: nat, d: nat, ls: seq<SrcLine>, code: seq<Asm>) {
    && base <= d && d - base <= |stack| && From(ls, base)
    && var (s, a) := Emit(stack, base, ls);
       && d - base <= |s| && s[..d - base] == stack[..d - base]
       && a + Flush(s, base, d - base) == Flush(stack, base, d - base) + code
  }

  lemma StreamsJoin(stack: seq<Kind>, base: nat, d: nat, x: seq<SrcLine>, y: seq<SrcLine>, cx: seq<Asm>, cy: seq<Asm>)
    requires Streams(stack, base, d, x, cx) && Streams(Emit(stack, base, x).0, base, d, y, cy)
    ensures Streams(stack, base, d, x + y, cx + cy)
  {
    hide Emit, Flush, From;
    EmitConcat(stack, base, x, y);
    var n := d - base;
    var (s1, a1) := Emit(stack, base, x);
    var (s2, a2) := Emit(s1, base, y);
    JoinText(a1, a2, Flush(stack, base, n), Flush(s1, base, n), Flush(s2, base, n), cx, cy);
  }

  lemma JoinText<T>(a1: seq<T>, a2: seq<T>, f: seq<T>, f1: seq<T>, f2: seq<T>, cx: seq<T>, cy: seq<T>)
    requires a1 + f1 == f + cx && a2 + f2 == f1 + cy
    ensures (a1 + a2) + f2 == f + (cx + cy)
  {
    Assoc(a1, a2, f2);
    Assoc(a1, f1, cy);
    Assoc(f, cx, cy);
  }

  lemma OpenText<T>(f: seq<T>, h: seq<T>, a: seq<T>, g: seq<T>, cb: seq<T>, e: seq<T>)
    requires a + g == cb
    ensures (f + h + a) + (g + e) == f + (h + cb + e)
  {
    assert (f + h + a) + (g + e) == f + h + (a + g) + e;
  }

  /** Leaving blocks in two stages. */
  lemma {:induction false} FlushTo(s: seq<Kind>, base: nat, low: nat)
    requires |s| >= low + 1
    ensures Flush(s, base, low) == Flush(s, base, low + 1) + ExitAsm(s[low], base + low)
    decreases |s|
  {
    hide ExitAsm;
    var n := |s| - 1;
    if n > low {
      FlushTo(s[..n], base, low);
    } else {
      assert Flush(s[..n], base, low) == [];
      assert Flush(s, base, low + 1) == [];
    }
  }

  /** A line that opens a block, with the block's own lines. */
  lemma StreamsOpen(stack: seq<Kind>, base: nat, d: nat, l: SrcLine, k: Kind, body: seq<SrcLine>, cb: seq<Asm>)
    requires base <= d <= base + |stack| && l.depth == d && OkLine(l) && Opens(l.head) == [k]
    requires Streams(stack[..d - base] + [k], base, d + 1, body, cb)
    ensures Streams(stack, base, d, [l] + body, HeadAsm(l) + cb + ExitAsm(k, d))
  {
    hide HeadAsm, ExitAsm, OkLine, Flush, From, Emit;
    var n := d - base;
    var s0 := stack[..n] + [k];
    assert Cut(stack, n) == stack[..n];
    OpenPrefix(stack, base, n, k, d, body, cb);
    var (s, a) := Emit(s0, base, body);
    FlushTo(s, base, n);
    OpenText(Flush(stack, base, n), HeadAsm(l), a, Flush(s, base, n + 1), cb, ExitAsm(k, d));
    EmitCons(stack, base, l, body);
  }

  lemma OpenPrefix(stack: seq<Kind>, base: nat, n: nat, k: Kind, d: nat, body: seq<SrcLine>, cb: seq<Asm>)
    requires n <= |stack| && d == base + n && Streams(stack[..n] + [k], base, d + 1, body, cb)
    ensures var (s, a) := Emit(stack[..n] + [k], base, body);
            |s| > n && s[n] == k && s[..n] == stack[..n] && a + Flush(s, base, n + 1) == cb
  {
    hide Emit, From;
    var s0 := stack[..n] + [k];
    var (s, a) := Emit(s0, base, body);
    assert s[..n + 1] == s0;
    assert s[..n + 1][n] == k && s[..n] == s[..n + 1][..n] && s0[..n] == stack[..n];
    assert Flush(s0, base, n + 1) == [];
    assert [] + cb == cb;
  }

  lemma EmitCons(stack: seq<Kind>, base: nat, l: SrcLine, ls: seq<SrcLine>)
    requires base <= l.depth && OkLine(l) && From(ls, base)
    ensures From([l] + ls, base)
    ensures var (s1, a1) := EmitLine(stack, base, l); var (s2, a2) := Emit(s1, base, ls);
            Emit(stack, base, [l] + ls) == (s2, a1 + a2)
  {
    hide EmitLine, OkLine;
    assert ([l] + ls)[1..] == ls;
  }

  lemma {:induction false} StreamBlock(stack: seq<Kind>, base: nat, b: Block, d: nat)
    requires base <= d <= base + |stack|
    ensures Streams(stack, base, d, BlockLines(b, d), BlockAsm(b, d))
    decreases SizeBlock(b), 0
  {
    hide Streams, StmtAsm, StmtLines;
    match b
    case BNil =>
      StreamNothing(stack, base, d);
    case BCons(head, tail) =>
      StreamStmt(stack, base, head, d);
      StreamsKeep(stack, base, d, StmtLines(head, d), StmtAsm(head, d));
      StreamBlock(Emit(stack, base, StmtLines(head, d)).0, base, tail, d);
      StreamsJoin(stack, base, d, StmtLines(head, d), BlockLines(tail, d), StmtAsm(head, d), BlockAsm(tail, d));
  }

  lemma StreamNothing(stack: seq<Kind>, base: nat, d: nat)
    requires base <= d <= base + |stack|
    ensures Streams(stack, base, d, [], [])
  {
    var f := Flush(stack, base, d - base);
    assert [] + f == f + [];
  }

  lemma StreamsKeep(stack: seq<Kind>, base: nat, d: nat, ls: seq<SrcLine>, code: seq<Asm>)
    requires Streams(stack, base, d, ls, code)
    ensures From(ls, base) && base <= d <= base + |Emit(stack, base, ls).0|
  {
    hide Emit, Flush;
  }

  /** A line without a block. */
  lemma EmitPlain(stack: seq<Kind>, base: nat, l: SrcLine)
    requires base <= l.depth <= base + |stack| && OkLine(l) && l.head.Plain?
    ensures From([l], base)
    ensures Emit(stack, base, [l]) == (stack[..l.depth - base], Flush(stack, base, l.depth - base) + HeadAsm(l))
  {
    hide HeadAsm, Flush, OkLine;
    var n := l.depth - base;
    EmitCons(stack, base, l, []);
    assert [l] + [] == [l] && Cut(stack, n) + [] == stack[..n];
    var a := Flush(stack, base, n) + HeadAsm(l);
    assert a + [] == a;
  }

  lemma StreamPlain(stack: seq<Kind>, base: nat, d: nat, st: Stmt)
    requires base <= d <= base + |stack| && Simple(st)
    ensures Streams(stack, base, d, StmtLines(st, d), StmtAsm(st, d))
  {
    hide SimpleAsm, Emit;
    var l, n := SrcLine(d, Plain(st)), d - base;
    EmitPlain(stack, base, l);
    assert Flush(stack[..n], base, n) == [];
    var a := Flush(stack, base, n) + HeadAsm(l);
    assert a + [] == a;
  }

  /** A line that opens a block, the block, and the else part after it. */
  lemma {:induction false} StreamHead(stack: seq<Kind>, base: nat, d: nat, l: SrcLine, k: Kind, body: Block, rest: Else)
    requires base <= d <= base + |stack| && l.depth == d && OkLine(l) && Opens(l.head) == [k]
    ensures Streams(stack, base, d, [l] + BlockLines(body, d + 1) + RestLines(rest, d),
                    HeadAsm(l) + BlockAsm(body, d + 1) + ExitAsm(k, d) + RestAsm(rest, d))
    decreases SizeBlock(body) + SizeRest(rest), 1
  {
    hide Streams, HeadAsm, ExitAsm, Opens, OkLine, Emit, Flush;
    var n := d - base;
    StreamBlock(stack[..n] + [k], base, body, d + 1);
    StreamsOpen(stack, base, d, l, k, BlockLines(body, d + 1), BlockAsm(body, d + 1));
    var ls, code := [l] + BlockLines(body, d + 1), HeadAsm(l) + BlockAsm(body, d + 1) + ExitAsm(k, d);
    StreamsKeep(stack, base, d, ls, code);
    StreamRest(Emit(stack, base, ls).0, base, rest, d);
    StreamsJoin(stack, base, d, ls, RestLines(rest, d), code, RestAsm(rest, d));
  }

  lemma {:induction false} StreamStmt(stack: seq<Kind>, base: nat, st: Stmt, d: nat)
    requires base <= d <= base + |stack|
    ensures Streams(stack, base, d, StmtLines(st, d), StmtAsm(st, d))
    decreases SizeStmt(st), 1
  {
    hide Streams, IfAsm, WhileAsm, ForInitAsm, ForNextAsm, DelAsm;
    match st
    case If(c, body, rest) =>
      StreamHead(stack, base, d, SrcLine(d, IfHead(c)), KIf, body, rest);
      assert [B(d)] + IfAsm(c) + BlockAsm(body, d + 1) + [] == [B(d)] + IfAsm(c) + BlockAsm(body, d + 1);
    case While(c, body, rest) =>
      StreamHead(stack, base, d, SrcLine(d, WhileHead(c)), KWhile, body, rest);
    case For(x, e, body, rest) =>
      StreamHead(stack, base, d, SrcLine(d, ForHead(x, e)), KFor, body, rest);
    case _ => StreamPlain(stack, base, d, st);
  }

  lemma {:induction false} StreamRest(stack: seq<Kind>, base: nat, rest: Else, d: nat)
    requires base <= d <= base + |stack|
    ensures Streams(stack, base, d, RestLines(rest, d), RestAsm(rest, d))
    decreases SizeRest(rest), 0
  {
    hide Streams, ElifAsm;
    match rest
    case NoElse =>
      StreamNothing(stack, base, d);
    case Else(body) =>
      StreamHead(stack, base, d, SrcLine(d, ElseHead), KElse, body, NoElse);
      var ls, code := [SrcLine(d, ElseHead)] + BlockLines(body, d + 1), [B(d)] + ELSE_ASM + BlockAsm(body, d + 1);
      assert ls + [] == ls && code + [] + [] == code;
    case Elif(c, body, after) =>
      StreamHead(stack, base, d, SrcLine(d, ElifHead(c)), KElif, body, after);
      var code := [B(d)] + ElifAsm(c) + BlockAsm(body, d + 1);
      assert code + [] == code;
  }

  /** Streaming equals recursive: for a program whose first line is at depth `base`, emitting it
      line by line, and then a line at the same depth that closes whatever is open, gives the
      code of the recursive compilation and leaves the block stack empty. */
  lemma StreamingIsRecursive(b: Block, base: nat)
    ensures From(BlockLines(b, base) + [SrcLine(base, Plain(Pass))], base)
    ensures Emit([], base, BlockLines(b, base) + [SrcLine(base, Plain(Pass))]) == ([], BlockAsm(b, base) + [B(base)])
  {
    hide BlockAsm, BlockLines, Emit;
    var close := SrcLine(base, Plain(Pass));
    StreamBlock([], base, b, base);
    var (s, a) := Emit([], base, BlockLines(b, base));
    EmitPlain(s, base, close);
    EmitConcat([], base, BlockLines(b, base), [close]);
    assert HeadAsm(close) == [B(base)] && Flush([], base, 0) == [] && s[..0] == [];
    hide Flush, HeadAsm, From;
    Assoc(a, Flush(s, base, 0), [B(base)]);
    assert [] + BlockAsm(b, base) == BlockAsm(b, base);
  }

  // ---- assembled text ----

  predicate Assembles(code: seq<Asm>, units: seq<Unit>) {
    StartsLine(code) && Assemble(code) == units
  }

  lemma AssemblesJoin(x: seq<Asm>, ux: seq<Unit>, y: seq<Asm>, uy: seq<Unit>)
    requires Assembles(x, ux) && Assembles(y, uy)
    ensures Assembles(x + y, ux + uy)
  {
    AssembleConcat(x, y, 0, false);
  }

  lemma AssemblesLine(d: nat, code: seq<Asm>)
    requires AllI(code)
    ensures Assembles([B(d)] + code, Line(d, code))
  {
    AssembleLine(d, code);
  }

  lemma {:induction false} AssembleStmt(st: Stmt, d: nat)
    ensures Assembles(StmtAsm(st, d), StmtCode(st, d))
    decreases SizeStmt(st), 1
  {
    hide Assembles, Line, IfAsm, WhileAsm, ForInitAsm, ForNextAsm, DelAsm, SimpleAsm;
    match st
    case If(c, body, rest) =>
      AssemblesLine(d, IfAsm(c));
      AssembleClause([B(d)] + IfAsm(c), Line(d, IfAsm(c)), body, rest, d);
    case While(c, body, rest) =>
      AssembleBlock(body, d + 1);
      AssembleRest(rest, d);
      AssemblesLine(d, WhileAsm(c));
      AssemblesLine(d, BACK_ASM);
      var x, ux := [B(d)] + WhileAsm(c), Line(d, WhileAsm(c));
      AssemblesJoin(x, ux, BlockAsm(body, d + 1), BlockCode(body, d + 1));
      x, ux := x + BlockAsm(body, d + 1), ux + BlockCode(body, d + 1);
      AssemblesJoin(x, ux, [B(d)] + BACK_ASM, Line(d, BACK_ASM));
      AssemblesJoin(x + ([B(d)] + BACK_ASM), ux + Line(d, BACK_ASM), RestAsm(rest, d), RestCode(rest, d));
    case For(x, e, body, rest) => AssembleFor(st, d);
    case _ => AssemblesLine(d, SimpleAsm(st));
  }

  lemma {:induction false} AssembleFor(st: Stmt, d: nat)
    requires st.For?
    ensures Assembles(StmtAsm(st, d), StmtCode(st, d))
    decreases SizeStmt(st), 0
  {
    hide Assembles, Line, ForInitAsm, BlockAsm, RestAsm, BlockCode, RestCode;
    AssembleBlock(st.body, d + 1);
    AssembleRest(st.rest, d);
    assert AllI(ForNextAsm(st.x, d)) && AllI(DelAsm(d));
    var init, next, back, del := ForInitAsm(st.e, d), ForNextAsm(st.x, d), BACK_ASM, DelAsm(d);
    AssemblesLine(d, init);
    AssemblesLine(d, next);
    AssemblesLine(d, back);
    AssemblesLine(d, del);
    AssemblesJoin([B(d)] + back, Line(d, back), [B(d)] + del, Line(d, del));
    var x, ux := [B(d)] + init, Line(d, init);
    AssemblesJoin(x, ux, [B(d)] + next, Line(d, next));
    x, ux := x + ([B(d)] + next), ux + Line(d, next);
    AssemblesJoin(x, ux, BlockAsm(st.body, d + 1), BlockCode(st.body, d + 1));
    x, ux := x + BlockAsm(st.body, d + 1), ux + BlockCode(st.body, d + 1);
    AssemblesJoin(x, ux, ([B(d)] + back) + ([B(d)] + del), Line(d, back) + Line(d, del));
    Assoc(ux, Line(d, back), Line(d, del));
    x, ux := x + (([B(d)] + back) + ([B(d)] + del)), ux + Line(d, back) + Line(d, del);
    AssemblesJoin(x, ux, RestAsm(st.rest, d), RestCode(st.rest, d));
  }

  lemma {:induction false} AssembleClause(head: seq<Asm>, units: seq<Unit>, body: Block, rest: Else, d: nat)
    requires Assembles(head, units)
    ensures Assembles(head + BlockAsm(body, d + 1) + RestAsm(rest, d),
                      units + BlockCode(body, d + 1) + RestCode(rest, d))
    decreases SizeBlock(body) + SizeRest(rest), 1
  {
    hide Assembles;
    AssembleBlock(body, d + 1);
    AssembleRest(rest, d);
    AssemblesJoin(head, units, BlockAsm(body, d + 1), BlockCode(body, d + 1));
    AssemblesJoin(head + BlockAsm(body, d + 1), units + BlockCode(body, d + 1), RestAsm(rest, d), RestCode(rest, d));
  }

  /** The assembled text of the recursive compilation is the unit sequence the VM runs. */
  lemma {:induction false} AssembleBlock(b: Block, d: nat)
    ensures Assembles(BlockAsm(b, d), BlockCode(b, d))
    decreases SizeBlock(b), 0
  {
    match b
    case BNil =>
    case BCons(head, tail) =>
      AssembleStmt(head, d);
      AssembleBlock(tail, d);
      AssemblesJoin(StmtAsm(head, d), StmtCode(head, d), BlockAsm(tail, d), BlockCode(tail, d));
  }

  lemma {:induction false} AssembleRest(rest: Else, d: nat)
    ensures Assembles(RestAsm(rest, d), RestCode(rest, d))
    decreases SizeRest(rest), 0
  {
    hide Line, ElifAsm;
    match rest
    case NoElse =>
    case Else(body) =>
      AssemblesLine(d, ELSE_ASM);
      AssembleBlock(body, d + 1);
      AssemblesJoin([B(d)] + ELSE_ASM, Line(d, ELSE_ASM), BlockAsm(body, d + 1), BlockCode(body, d + 1));
    case Elif(c, body, after) =>
      AssemblesLine(d, ElifAsm(c));
      AssembleClause([B(d)] + ElifAsm(c), Line(d, ElifAsm(c)), body, after, d);
  }

  /** The units produced from the source text of `b`, line by line, are the compiled block. */
  lemma StreamedUnits(b: Block)
    ensures Assemble(Emit([], 0, BlockLines(b, 0) + [SrcLine(0, Plain(Pass))]).1) == BlockCode(b, 0)
  {
    hide Emit, BlockLines, BlockAsm, BlockCode;
    StreamingIsRecursive(b, 0);
    AssembleBlock(b, 0);
    AssembleConcat(BlockAsm(b, 0), [B(0)], 0, false);
    assert Assemble([B(0)]) == [];
  }
}
