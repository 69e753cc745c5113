/** Simulation of `if`, `while` and `for`, and the compiler correctness theorem. */
module Blocks {
  import opened Bytecode
  import opened Syntax
  import opened Semantics
  import opened CodeGen
  import opened Machine
  import opened ExprProof
  import opened Scans
  import opened Stepping
  import opened Simulation

  // ---- tests and jumps over parts ----

  ghost predicate Tested<V, S>(w: World<V, S>, prog: seq<Unit>, c: Cfg<V, S>, d: nat, r: Res<V, S>, q: nat, k: nat,
                               c': Cfg<V, S>)
    requires d < |c.ireg| && q <= |prog| && k >= 1
  {
    match r
    case Ok(v, s) =>
      c' == c.(state := s, ireg := c.ireg[d := !w.truth(v)],
               pc := Norm(prog, if w.truth(v) then q else SeekLine(prog, q, d, k)))
    case Err(s) => Failed(c', s)
  }

  lemma RunTest<V, S>(w: World<V, S>, prog: seq<Unit>, pc: nat, d: nat, nl: bool, e: Expr, data: string, c: Cfg<V, S>)
    returns (n: nat)
    requires d < REGIST_SIZE == |c.ireg| && FitsExpr(e, 0) && Atoi(data) >= 1
    requires AtLine(prog, pc, d, nl, ExprAsm(e, 0) + [I(0, JEZ, data)])
    requires pc == 0 || prog[pc - 1].invoke == 0
    requires c.pc == pc && !c.error && Clear(c, 0)
    ensures n > 0
    ensures Tested(w, prog, Fresh(c, nl), d, Eval(w, e, c.state), pc + |ExprAsm(e, 0)| + 1, Atoi(data),
                   Steps(w, prog, c, n))
  {
    hide Step, Steps;
    n := RunHead(w, prog, pc, d, nl, e, I(0, JEZ, data), c);
    if Eval(w, e, c.state).Ok? {
      StepJez(w, prog, d, data, Fresh(c, nl).stack, Eval(w, e, c.state).v, Steps(w, prog, c, n));
      StepsSnoc(w, prog, c, n);
      n := n + 1;
    }
  }

  lemma BoundaryStart(prog: seq<Unit>, pc: nat, code: seq<Unit>, d: nat, m: nat)
    requires At(prog, pc, code) && Good(code, d, m) && Boundary(prog, pc + |code|, d)
    ensures Boundary(prog, pc, d)
  {
    AtGood(prog, pc, code, d, m);
  }

  /** From inside a line, a jump over one line start skips the line's block. */
  lemma SkipClause(prog: seq<Unit>, pc: nat, d: nat, nl: bool, head: seq<Asm>, body: seq<Unit>, m: nat, i: nat, n: nat)
    requires AtLine(prog, pc, d, nl, head) && At(prog, pc + |head|, body) && Good(body, d + 1, m)
    requires pc < i <= pc + |head| && n >= 1
    ensures SeekLine(prog, i, d, n) == SeekLine(prog, pc + |head| + |body|, d, n)
    ensures n == 1 && Boundary(prog, pc + |head| + |body|, d) ==> SeekLine(prog, i, d, n) == pc + |head| + |body|
  {
    AtGood(prog, pc + |head|, body, d + 1, m);
    forall x | i <= x < pc + |head| + |body| ensures !prog[x].newLine || prog[x].block > d {
      if x < pc + |head| {
        assert prog[pc + (x - pc)] == Pack(d, nl && x == pc, head[x - pc]);
      }
    }
    SkipDeeper(prog, i, pc + |head| + |body|, d, n);
  }

  /** First line of an else part, and what follows the block under it. */
  function HeadOf(rest: Else): (r: seq<Asm>)
    requires !rest.NoElse?
    ensures AllI(r) && |r| > 0 && r[0] == I(0, NEL, "1")
  {
    if rest.Else? then ELSE_ASM else ElifAsm(rest.c)
  }

  function AfterOf(rest: Else): Else
    requires !rest.NoElse?
  {
    if rest.Else? then NoElse else rest.rest
  }

  lemma RestShape(rest: Else, d: nat)
    requires !rest.NoElse? && FitsRest(rest, d)
    ensures RestCode(rest, d) == Line(d, HeadOf(rest)) + BlockCode(rest.body, d + 1) + RestCode(AfterOf(rest), d)
    ensures FitsRest(AfterOf(rest), d) && FitsBlock(rest.body, d + 1) && SizeRest(AfterOf(rest)) < SizeRest(rest)
  {
  }

  lemma ClauseAt(prog: seq<Unit>, pc: nat, rest: Else, d: nat)
    requires !rest.NoElse? && FitsRest(rest, d)
    requires At(prog, pc, RestCode(rest, d)) && Boundary(prog, pc + |RestCode(rest, d)|, d)
    ensures AtLine(prog, pc, d, true, HeadOf(rest)) && At(prog, pc + |HeadOf(rest)|, BlockCode(rest.body, d + 1))
    ensures var r := pc + |HeadOf(rest)| + |BlockCode(rest.body, d + 1)|;
            && At(prog, r, RestCode(AfterOf(rest), d)) && Boundary(prog, r, d)
            && r + |RestCode(AfterOf(rest), d)| == pc + |RestCode(rest, d)|
  {
    hide *;
    RestShape(rest, d);
    var head, body, after := HeadOf(rest), BlockCode(rest.body, d + 1), RestCode(AfterOf(rest), d);
    LineLength(d, head);
    AtSplit(prog, pc, Line(d, head) + body, after);
    AtSplit(prog, pc, Line(d, head), body);
    LineAt(prog, pc, d, head);
    GoodRest(AfterOf(rest), d);
    BoundaryStart(prog, pc + |head| + |body|, after, d, MinRest(AfterOf(rest), d));
  }

  lemma ReadyMove<V, S>(prog: seq<Unit>, c: Cfg<V, S>, pc: nat, pc': nat, d: nat, st: seq<V>)
    requires Ready(prog, c, pc, d)
    ensures Ready(prog, c.(stack := st, pc := Norm(prog, pc')), pc', d)
  {
  }

  /** `NEL` enters its clause or goes to the next one. */
  lemma RunNel<V, S>(w: World<V, S>, prog: seq<Unit>, pc: nat, rest: Else, d: nat, c: Cfg<V, S>)
    requires !rest.NoElse? && FitsRest(rest, d) && d < REGIST_SIZE
    requires At(prog, pc, RestCode(rest, d)) && Boundary(prog, pc + |RestCode(rest, d)|, d)
    requires Ready(prog, c, pc, d)
    ensures var r := pc + |HeadOf(rest)| + |BlockCode(rest.body, d + 1)|;
            Step(w, prog, c) == c.(stack := [], pc := Norm(prog, if c.ireg[d] then pc + 1 else r))
  {
    hide Step, Good, At, Boundary, FitsRest, FitsBlock, RestCode, BlockCode, MinBlock, SizeRest;
    var head, body := HeadOf(rest), BlockCode(rest.body, d + 1);
    RestShape(rest, d);
    ClauseAt(prog, pc, rest, d);
    GoodBlock(rest.body, d + 1);
    SkipClause(prog, pc, d, true, head, body, MinBlock(rest.body, d + 1), pc + 1, 1);
    assert On(prog, c, d, true, head[0]) by { assert prog[pc + 0] == Pack(d, true, head[0]); }
    hide HeadOf, AtLine, SeekLine;
    StepNel(w, prog, d, c);
  }

  lemma NoSkip<V, S>(w: World<V, S>, prog: seq<Unit>, pc: nat, d: nat, c: Cfg<V, S>)
    requires Ready(prog, c, pc, d)
    ensures Steps(w, prog, c, 0) == c && c.pc == Norm(prog, pc + |RestCode(NoElse, d)|)
  {
    hide Step;
  }

  /** The else part of a statement whose branch was taken is jumped over, clause by clause. */
  lemma {:induction false} SimSkip<V, S>(w: World<V, S>, prog: seq<Unit>, pc: nat, rest: Else, d: nat, c: Cfg<V, S>)
    returns (n: nat, c': Cfg<V, S>)
    requires FitsRest(rest, d) && d < REGIST_SIZE && At(prog, pc, RestCode(rest, d))
    requires Boundary(prog, pc + |RestCode(rest, d)|, d)
    requires Ready(prog, c, pc, d) && !c.ireg[d]
    ensures c' == Steps(w, prog, c, n)
    ensures c' == c.(stack := c'.stack, pc := Norm(prog, pc + |RestCode(rest, d)|))
    decreases SizeRest(rest)
  {
    hide *;
    if rest.NoElse? {
      n, c' := 0, c;
      NoSkip(w, prog, pc, d, c);
    } else {
      RestShape(rest, d);
      ClauseAt(prog, pc, rest, d);
      RunNel(w, prog, pc, rest, d, c);
      var r := pc + |HeadOf(rest)| + |BlockCode(rest.body, d + 1)|;
      ReadyMove(prog, c, pc, r, d, []);
      n, c' := SimSkip(w, prog, r, AfterOf(rest), d, Step(w, prog, c));
      StepsCons(w, prog, c, n);
      n := 1 + n;
    }
  }

  // ---- placed and admissible pieces of a program ----

  predicate StmtOk(prog: seq<Unit>, pc: nat, st: Stmt, d: nat, ctx: Loop, m: nat) {
    m <= 16 && FitsStmt(st, d) && OkStmt(st, d, ctx.InLoop?, m) && Layout(prog, pc, StmtCode(st, d), d, ctx, m)
  }

  predicate BlockOk(prog: seq<Unit>, pc: nat, b: Block, d: nat, ctx: Loop, m: nat) {
    m <= 16 && FitsBlock(b, d) && OkBlock(b, d, ctx.InLoop?, m) && Layout(prog, pc, BlockCode(b, d), d, ctx, m)
  }

  predicate RestOk(prog: seq<Unit>, pc: nat, rest: Else, d: nat, ctx: Loop, m: nat) {
    m <= 16 && d < REGIST_SIZE && FitsRest(rest, d) && OkRest(rest, d, ctx.InLoop?, m)
    && Layout(prog, pc, RestCode(rest, d), d, ctx, m)
  }

  lemma BlockSplit(prog: seq<Unit>, pc: nat, b: Block, d: nat, ctx: Loop, m: nat)
    requires BlockOk(prog, pc, b, d, ctx, m) && b.BCons?
    ensures var q := pc + |StmtCode(b.head, d)|;
            && StmtOk(prog, pc, b.head, d, ctx, m) && BlockOk(prog, q, b.tail, d, ctx, Min(m, MinStmt(b.head, d)))
            && pc + |BlockCode(b, d)| == q + |BlockCode(b.tail, d)|
            && SizeStmt(b.head) < SizeBlock(b) && SizeBlock(b.tail) < SizeBlock(b)
  {
    hide Layout, Good, StmtCode;
    GoodStmt(b.head, d);
    GoodBlock(b.tail, d);
    LayoutJoin(prog, pc, StmtCode(b.head, d), BlockCode(b.tail, d), d, ctx, m,
               MinStmt(b.head, d), MinBlock(b.tail, d));
  }

  /** A head line, the block under it at `q`, and the else part after that block. */
  predicate BranchOk(prog: seq<Unit>, q: nat, body: Block, rest: Else, d: nat, ctx: Loop, m: nat) {
    && BlockOk(prog, q, body, d + 1, ctx, m)
    && RestOk(prog, q + |BlockCode(body, d + 1)|, rest, d, ctx, Min(m, MinBlock(body, d + 1)))
  }

  lemma BranchSplit(prog: seq<Unit>, pc: nat, head: seq<Asm>, body: Block, rest: Else, d: nat, ctx: Loop, m: nat)
    requires m <= 16 && d < REGIST_SIZE && AllI(head) && head != [] && head[|head| - 1].invoke == 0
    requires forall a :: a in head && a.ins == JEZ ==> a.data == "1"
    requires FitsBlock(body, d + 1) && FitsRest(rest, d)
    requires OkBlock(body, d + 1, ctx.InLoop?, m) && OkRest(rest, d, ctx.InLoop?, Min(m, MinBlock(body, d + 1)))
    requires Layout(prog, pc, Line(d, head) + BlockCode(body, d + 1) + RestCode(rest, d), d, ctx, m)
    ensures AtLine(prog, pc, d, true, head) && LineStart(prog, pc)
    ensures BranchOk(prog, pc + |head|, body, rest, d, ctx, m)
    ensures Boundary(prog, pc + |head| + |BlockCode(body, d + 1)|, d)
  {
    hide *;
    DepthFits(d);
    var l, b, r := Line(d, head), BlockCode(body, d + 1), RestCode(rest, d);
    var mb, mr := MinBlock(body, d + 1), MinRest(rest, d);
    LineLength(d, head);
    GoodBlock(body, d + 1);
    GoodRest(rest, d);
    GoodHead(d, head, body, mb);
    LayoutJoin(prog, pc, l + b, r, d, ctx, m, mb, mr);
    GoodIfLine(d, head);
    LayoutBody(prog, pc, l, b, d, ctx, m, mb);
    LineAt(prog, pc, d, head);
    LayoutParts(prog, pc, l + b, d, ctx, m);
    LayoutParts(prog, pc + |l + b|, r, d, ctx, Min(m, mb));
    BoundaryStart(prog, pc + |l + b|, r, d, mr);
    BranchIntro(prog, pc + |head|, body, rest, d, ctx, m);
  }

  lemma DepthFits(d: nat)
    requires d < REGIST_SIZE
    ensures d < 16
  {
  }

  lemma LayoutParts(prog: seq<Unit>, pc: nat, code: seq<Unit>, d: nat, ctx: Loop, m: nat)
    requires Layout(prog, pc, code, d, ctx, m)
    ensures At(prog, pc, code) && Boundary(prog, pc + |code|, d) && LineStart(prog, pc)
  {
  }

  lemma BranchIntro(prog: seq<Unit>, q: nat, body: Block, rest: Else, d: nat, ctx: Loop, m: nat)
    requires m <= 16 && d < REGIST_SIZE && FitsBlock(body, d + 1) && FitsRest(rest, d)
    requires OkBlock(body, d + 1, ctx.InLoop?, m) && OkRest(rest, d, ctx.InLoop?, Min(m, MinBlock(body, d + 1)))
    requires Layout(prog, q, BlockCode(body, d + 1), d + 1, ctx, m)
    requires Layout(prog, q + |BlockCode(body, d + 1)|, RestCode(rest, d), d, ctx, Min(m, MinBlock(body, d + 1)))
    ensures BranchOk(prog, q, body, rest, d, ctx, m)
  {
    hide Layout;
  }

  lemma GoodIfLine(d: nat, head: seq<Asm>)
    requires d < 16 && AllI(head) && head != [] && head[|head| - 1].invoke == 0
    requires forall a :: a in head && a.ins == JEZ ==> a.data == "1"
    ensures Good(Line(d, head), d, 16)
  {
    GoodHead(d, head, BNil, 16);
    assert Line(d, head) + [] == Line(d, head);
  }

  lemma IfShape(prog: seq<Unit>, pc: nat, st: Stmt, d: nat, ctx: Loop, m: nat)
    requires st.If? && StmtOk(prog, pc, st, d, ctx, m)
    ensures m <= 16 && d < REGIST_SIZE && FitsExpr(st.c, 0) && FitsBlock(st.body, d + 1) && FitsRest(st.rest, d)
    ensures OkBlock(st.body, d + 1, ctx.InLoop?, m)
    ensures OkRest(st.rest, d, ctx.InLoop?, Min(m, MinBlock(st.body, d + 1)))
    ensures StmtCode(st, d) == Line(d, IfAsm(st.c)) + BlockCode(st.body, d + 1) + RestCode(st.rest, d)
    ensures Layout(prog, pc, StmtCode(st, d), d, ctx, m)
    ensures SizeBlock(st.body) + SizeRest(st.rest) < SizeStmt(st)
  {
    hide Layout;
  }

  /** The line of an `if` contains no loop test and ends at invoke depth 0. */
  lemma IfLine(c: Expr)
    requires FitsExpr(c, 0)
    ensures var head := IfAsm(c);
            head != [] && head[|head| - 1].invoke == 0 && forall a :: a in head && a.ins == JEZ ==> a.data == "1"
  {
    PlainExpr(c, 0, false);
  }

  lemma IfSplit(prog: seq<Unit>, pc: nat, st: Stmt, d: nat, ctx: Loop, m: nat)
    requires st.If? && StmtOk(prog, pc, st, d, ctx, m)
    ensures AtLine(prog, pc, d, true, IfAsm(st.c)) && LineStart(prog, pc) && FitsExpr(st.c, 0) && d < REGIST_SIZE
    ensures BranchOk(prog, pc + |IfAsm(st.c)|, st.body, st.rest, d, ctx, m)
    ensures var r := pc + |IfAsm(st.c)| + |BlockCode(st.body, d + 1)|;
            SeekLine(prog, pc + |IfAsm(st.c)|, d, 1) == r
            && pc + |StmtCode(st, d)| == r + |RestCode(st.rest, d)|
    ensures SizeBlock(st.body) + SizeRest(st.rest) < SizeStmt(st)
  {
    hide *;
    IfShape(prog, pc, st, d, ctx, m);
    IfLine(st.c);
    LineLength(d, IfAsm(st.c));
    BranchSplit(prog, pc, IfAsm(st.c), st.body, st.rest, d, ctx, m);
    BranchJump(prog, pc, IfAsm(st.c), st.body, st.rest, d, ctx, m);
  }

  /** A test that fails jumps from its line to the else part. */
  lemma BranchJump(prog: seq<Unit>, pc: nat, head: seq<Asm>, body: Block, rest: Else, d: nat, ctx: Loop, m: nat)
    requires AtLine(prog, pc, d, true, head) && head != [] && BranchOk(prog, pc + |head|, body, rest, d, ctx, m)
    requires Boundary(prog, pc + |head| + |BlockCode(body, d + 1)|, d)
    ensures pc + |head| <= |prog| && SeekLine(prog, pc + |head|, d, 1) == pc + |head| + |BlockCode(body, d + 1)|
  {
    hide *;
    BranchBody(prog, pc + |head|, body, rest, d, ctx, m);
    GoodBlock(body, d + 1);
    AtLineLength(prog, pc, d, true, head);
    SkipClause(prog, pc, d, true, head, BlockCode(body, d + 1), MinBlock(body, d + 1), pc + |head|, 1);
  }

  lemma BranchBody(prog: seq<Unit>, q: nat, body: Block, rest: Else, d: nat, ctx: Loop, m: nat)
    requires BranchOk(prog, q, body, rest, d, ctx, m)
    ensures FitsBlock(body, d + 1) && At(prog, q, BlockCode(body, d + 1))
  {
    hide InCtx, At, Boundary, RestOk, OkBlock;
  }

  lemma AtLineLength(prog: seq<Unit>, pc: nat, d: nat, nl: bool, head: seq<Asm>)
    requires AtLine(prog, pc, d, nl, head)
    ensures pc + |head| <= |prog|
  {
  }

  lemma RestFacts(prog: seq<Unit>, pc: nat, rest: Else, d: nat, ctx: Loop, m: nat)
    requires !rest.NoElse? && RestOk(prog, pc, rest, d, ctx, m)
    ensures m <= 16 && d < REGIST_SIZE && FitsRest(rest, d) && Layout(prog, pc, RestCode(rest, d), d, ctx, m)
    ensures OkBlock(rest.body, d + 1, ctx.InLoop?, m)
    ensures OkRest(AfterOf(rest), d, ctx.InLoop?, Min(m, MinBlock(rest.body, d + 1)))
    ensures rest.Elif? ==> FitsExpr(rest.c, 0) && HeadOf(rest) == [I(0, NEL, "1")] + IfAsm(rest.c)
    ensures rest.Else? ==> |HeadOf(rest)| == 1
    ensures SizeBlock(rest.body) + SizeRest(AfterOf(rest)) < SizeRest(rest)
  {
    hide Layout;
  }

  lemma ClauseLine(prog: seq<Unit>, pc: nat, rest: Else, d: nat, ctx: Loop, m: nat)
    requires !rest.NoElse? && RestOk(prog, pc, rest, d, ctx, m)
    ensures var head := HeadOf(rest);
            head[|head| - 1].invoke == 0 && forall a :: a in head && a.ins == JEZ ==> a.data == "1"
  {
    hide Layout;
    if rest.Elif? {
      IfLine(rest.c);
    }
  }

  lemma RestSplit(prog: seq<Unit>, pc: nat, rest: Else, d: nat, ctx: Loop, m: nat)
    requires !rest.NoElse? && RestOk(prog, pc, rest, d, ctx, m)
    ensures AtLine(prog, pc, d, true, HeadOf(rest)) && LineStart(prog, pc) && d < REGIST_SIZE && FitsRest(rest, d)
    ensures At(prog, pc, RestCode(rest, d)) && Boundary(prog, pc + |RestCode(rest, d)|, d)
    ensures BranchOk(prog, pc + |HeadOf(rest)|, rest.body, AfterOf(rest), d, ctx, m)
    ensures var r := pc + |HeadOf(rest)| + |BlockCode(rest.body, d + 1)|;
            && SeekLine(prog, pc + |HeadOf(rest)|, d, 1) == r
            && pc + |RestCode(rest, d)| == r + |RestCode(AfterOf(rest), d)|
  {
    hide *;
    var head := HeadOf(rest);
    RestFacts(prog, pc, rest, d, ctx, m);
    ClauseLine(prog, pc, rest, d, ctx, m);
    RestShape(rest, d);
    LineLength(d, head);
    LayoutParts(prog, pc, RestCode(rest, d), d, ctx, m);
    BranchSplit(prog, pc, head, rest.body, AfterOf(rest), d, ctx, m);
    BranchJump(prog, pc, head, rest.body, AfterOf(rest), d, ctx, m);
  }

  // ---- simulation ----

  lemma EndedNormal<V, S>(prog: seq<Unit>, c: Cfg<V, S>, c': Cfg<V, S>, d: nat, out: Out<S>, end: nat, ctx: Loop,
                          n: nat, fuel: nat, pc: nat, e: nat)
    requires Ready(prog, c, pc, e) && e <= d && Ended(prog, c, c', d, out, end, ctx, n, fuel) && out.Normal?
    ensures Ready(prog, c', end, e) && Kept(c, c', d) && c'.state == out.s
    ensures forall k :: 0 <= k < d && k < REGIST_SIZE ==> c'.ireg[k] == c.ireg[k]
  {
  }

  lemma EndedElse<V, S>(prog: seq<Unit>, c: Cfg<V, S>, c': Cfg<V, S>, d: nat, e: nat, out: Out<S>, end: nat,
                        end': nat, ctx: Loop, n: nat, fuel: nat)
    requires Ended(prog, c, c', d, out, end, ctx, n, fuel) && !out.Normal? && e <= d
    ensures Ended(prog, c, c', e, out, end', ctx, n, fuel)
  {
  }

  lemma ReadyIn<V, S>(prog: seq<Unit>, c: Cfg<V, S>, pc: nat, d: nat)
    requires Ready(prog, c, pc, d)
    ensures Ready(prog, c, pc, d + 1)
    ensures !c.error && |c.ireg| == REGIST_SIZE && |c.lreg| == REGIST_SIZE && Clear(c, 0) && c.pc == Norm(prog, pc)
  {
  }

  lemma ExecCons<V, S>(w: World<V, S>, b: Block, s: S, fuel: nat)
    requires b.BCons?
    ensures var o := Exec(w, b.head, s, fuel);
            ExecBlock(w, b, s, fuel) == if o.Normal? then ExecBlock(w, b.tail, o.s, fuel) else o
  {
    hide Exec;
  }

  lemma NothingLeft<V, S>(w: World<V, S>, prog: seq<Unit>, pc: nat, d: nat, ctx: Loop, fuel: nat, c: Cfg<V, S>)
    requires Ready(prog, c, pc, d)
    ensures Steps(w, prog, c, 0) == c
    ensures Ended(prog, c, c, d, ExecBlock(w, BNil, c.state, fuel), pc + |BlockCode(BNil, d)|, ctx, 0, fuel)
    ensures Ended(prog, c, c, d, ExecElse(w, NoElse, c.state, fuel), pc + |RestCode(NoElse, d)|, ctx, 0, fuel)
  {
    hide Step;
  }

  /** A block of statements. */
  lemma {:induction false} SimBlock<V, S>(w: World<V, S>, prog: seq<Unit>, pc: nat, b: Block, d: nat, ctx: Loop, m: nat,
                                          fuel: nat, c: Cfg<V, S>) returns (n: nat, c': Cfg<V, S>)
    requires Lawful(w) && BlockOk(prog, pc, b, d, ctx, m) && Ready(prog, c, pc, d)
    ensures c' == Steps(w, prog, c, n)
    ensures Ended(prog, c, c', d, ExecBlock(w, b, c.state, fuel), pc + |BlockCode(b, d)|, ctx, n, fuel)
    decreases fuel, SizeBlock(b), 0
  {
    hide *;
    if b.BNil? {
      n, c' := 0, c;
      NothingLeft(w, prog, pc, d, ctx, fuel, c);
    } else {
      var q := pc + |StmtCode(b.head, d)|;
      BlockSplit(prog, pc, b, d, ctx, m);
      ExecCons(w, b, c.state, fuel);
      n, c' := SimStmt(w, prog, pc, b.head, d, ctx, m, fuel, c);
      var out := Exec(w, b.head, c.state, fuel);
      if out.Normal? {
        EndedNormal(prog, c, c', d, out, q, ctx, n, fuel, pc, d);
        var k, c2 := SimBlock(w, prog, q, b.tail, d, ctx, Min(m, MinStmt(b.head, d)), fuel, c');
        StepsAdd(w, prog, c, n, k);
        EndedAfter(prog, c, c', c2, d, d, ExecBlock(w, b.tail, c'.state, fuel), pc + |BlockCode(b, d)|, ctx, n, k, fuel, fuel);
        n, c' := n + k, c2;
      } else {
        EndedElse(prog, c, c', d, d, out, q, pc + |BlockCode(b, d)|, ctx, n, fuel);
      }
    }
  }

  /** After a test: the block when it succeeded, the else part when it failed. */
  lemma {:induction false} SimBranch<V, S>(w: World<V, S>, prog: seq<Unit>, q: nat, body: Block, rest: Else, d: nat,
                                           ctx: Loop, m: nat, fuel: nat, taken: bool, c: Cfg<V, S>)
    returns (n: nat, c': Cfg<V, S>)
    requires Lawful(w) && d < REGIST_SIZE && BranchOk(prog, q, body, rest, d, ctx, m)
    requires Ready(prog, c, if taken then q else q + |BlockCode(body, d + 1)|, d) && c.ireg[d] == !taken
    ensures c' == Steps(w, prog, c, n)
    ensures Ended(prog, c, c', d,
                  if taken then ExecBlock(w, body, c.state, fuel) else ExecElse(w, rest, c.state, fuel),
                  q + |BlockCode(body, d + 1)| + |RestCode(rest, d)|, ctx, n, fuel)
    decreases fuel, SizeBlock(body) + SizeRest(rest), 1
  {
    hide *;
    var r := q + |BlockCode(body, d + 1)|;
    BranchParts(prog, q, body, rest, d, ctx, m);
    if !taken {
      n, c' := SimRest(w, prog, r, rest, d, ctx, Min(m, MinBlock(body, d + 1)), fuel, c);
    } else {
      ReadyIn(prog, c, q, d);
      n, c' := SimBlock(w, prog, q, body, d + 1, ctx, m, fuel, c);
      var out := ExecBlock(w, body, c.state, fuel);
      if out.Normal? {
        EndedNormal(prog, c, c', d + 1, out, r, ctx, n, fuel, q, d);
        var k, c2 := SimSkip(w, prog, r, rest, d, c');
        StepsAdd(w, prog, c, n, k);
        Skipped(prog, c, c', c2, d, out, r + |RestCode(rest, d)|, ctx, n + k, fuel);
        n, c' := n + k, c2;
      } else {
        EndedElse(prog, c, c', d + 1, d, out, r, r + |RestCode(rest, d)|, ctx, n, fuel);
      }
    }
  }

  lemma BranchParts(prog: seq<Unit>, q: nat, body: Block, rest: Else, d: nat, ctx: Loop, m: nat)
    requires BranchOk(prog, q, body, rest, d, ctx, m)
    ensures BlockOk(prog, q, body, d + 1, ctx, m)
    ensures var r := q + |BlockCode(body, d + 1)|;
            RestOk(prog, r, rest, d, ctx, Min(m, MinBlock(body, d + 1))) && FitsRest(rest, d)
            && At(prog, r, RestCode(rest, d)) && Boundary(prog, r + |RestCode(rest, d)|, d)
  {
    hide InCtx, At, Boundary;
  }

  lemma Skipped<V, S>(prog: seq<Unit>, c: Cfg<V, S>, c1: Cfg<V, S>, c2: Cfg<V, S>, d: nat, out: Out<S>, end: nat,
                      ctx: Loop, n: nat, fuel: nat)
    requires Kept(c, c1, d + 1) && out.Normal? && c1.state == out.s && c2 == c1.(stack := c2.stack, pc := Norm(prog, end))
    ensures Ended(prog, c, c2, d, out, end, ctx, n, fuel)
  {
  }

  lemma AfterTest<V, S>(w: World<V, S>, prog: seq<Unit>, c: Cfg<V, S>, nl: bool, pc: nat, d: nat, r: Res<V, S>,
                        q: nat, k: nat, to: nat, c': Cfg<V, S>)
    requires Ready(prog, c, pc, d) && d < REGIST_SIZE && q <= |prog| && k >= 1 && r.Ok?
    requires Tested(w, prog, Fresh(c, nl), d, r, q, k, c')
    requires to == if w.truth(r.v) then q else SeekLine(prog, q, d, k)
    ensures Ready(prog, c', to, d) && Kept(c, c', d) && c'.state == r.s && c'.ireg[d] == !w.truth(r.v)
  {
  }

  lemma TestFailed<V, S>(w: World<V, S>, prog: seq<Unit>, c0: Cfg<V, S>, c: Cfg<V, S>, d: nat, r: Res<V, S>, q: nat,
                         k: nat, c': Cfg<V, S>, end: nat, ctx: Loop, n: nat, fuel: nat)
    requires d < |c.ireg| && q <= |prog| && k >= 1 && r.Err? && Tested(w, prog, c, d, r, q, k, c')
    ensures Ended(prog, c0, c', d, Halted(r.s, true), end, ctx, n, fuel)
  {
  }

  /** A test line and what it selects. */
  lemma {:induction false} SimCond<V, S>(w: World<V, S>, prog: seq<Unit>, pc: nat, nl: bool, e: Expr, body: Block,
                                         rest: Else, d: nat, ctx: Loop, m: nat, fuel: nat, c: Cfg<V, S>)
    returns (n: nat, c': Cfg<V, S>)
    requires Lawful(w) && d < REGIST_SIZE && FitsExpr(e, 0) && AtLine(prog, pc, d, nl, IfAsm(e)) && LineStart(prog, pc)
    requires BranchOk(prog, pc + |IfAsm(e)|, body, rest, d, ctx, m)
    requires SeekLine(prog, pc + |IfAsm(e)|, d, 1) == pc + |IfAsm(e)| + |BlockCode(body, d + 1)|
    requires Ready(prog, c, pc, d)
    ensures c' == Steps(w, prog, c, n)
    ensures Ended(prog, c, c', d, Exec(w, If(e, body, rest), c.state, fuel),
                  pc + |IfAsm(e)| + |BlockCode(body, d + 1)| + |RestCode(rest, d)|, ctx, n, fuel)
    decreases fuel, SizeBlock(body) + SizeRest(rest), 2
  {
    hide *;
    var q := pc + |IfAsm(e)|;
    var r := q + |BlockCode(body, d + 1)|;
    var end := r + |RestCode(rest, d)|;
    IfRun(prog, pc, nl, e, d, c);
    n := RunTest(w, prog, pc, d, nl, e, "1", c);
    c' := Steps(w, prog, c, n);
    ExecIf(w, e, body, rest, c.state, fuel);
    var v := Eval(w, e, c.state);
    if v.Err? {
      FreshRegs(c, nl);
      TestFailed(w, prog, c, Fresh(c, nl), d, v, q, 1, c', end, ctx, n, fuel);
    } else {
      var taken := w.truth(v.v);
      AfterTest(w, prog, c, nl, pc, d, v, q, 1, if taken then q else r, c');
      var k, c2 := SimBranch(w, prog, q, body, rest, d, ctx, m, fuel, taken, c');
      StepsAdd(w, prog, c, n, k);
      EndedAfter(prog, c, c', c2, d, d, Exec(w, If(e, body, rest), c.state, fuel), end, ctx, n, k, fuel, fuel);
      n, c' := n + k, c2;
    }
  }

  lemma FreshRegs<V, S>(c: Cfg<V, S>, nl: bool)
    ensures Fresh(c, nl).ireg == c.ireg
  {
  }

  lemma IfRun<V, S>(prog: seq<Unit>, pc: nat, nl: bool, e: Expr, d: nat, c: Cfg<V, S>)
    requires AtLine(prog, pc, d, nl, IfAsm(e)) && LineStart(prog, pc) && Ready(prog, c, pc, d)
    ensures pc < |prog| && c.pc == pc && (pc == 0 || prog[pc - 1].invoke == 0)
    ensures !c.error && Clear(c, 0) && |c.ireg| == REGIST_SIZE && Atoi("1") == 1
    ensures IfAsm(e) == ExprAsm(e, 0) + [I(0, JEZ, "1")] && |IfAsm(e)| == |ExprAsm(e, 0)| + 1
  {
    AtoiJumps();
  }

  lemma ExecIf<V, S>(w: World<V, S>, e: Expr, body: Block, rest: Else, s: S, fuel: nat)
    ensures var v := Eval(w, e, s);
            && (v.Err? ==> Exec(w, If(e, body, rest), s, fuel) == Halted(v.s, true))
            && (v.Ok? ==>
                  Exec(w, If(e, body, rest), s, fuel)
                  == if w.truth(v.v) then ExecBlock(w, body, v.s, fuel) else ExecElse(w, rest, v.s, fuel))
    ensures ExecElse(w, Elif(e, body, rest), s, fuel) == Exec(w, If(e, body, rest), s, fuel)
  {
    hide Eval, ExecBlock;
  }

  lemma EndedOut<V, S>(prog: seq<Unit>, c: Cfg<V, S>, c': Cfg<V, S>, d: nat, out: Out<S>, end: nat, ctx: Loop,
                       n: nat, fuel: nat)
    requires Ended(prog, c, c', d + 1, out, end, ctx, n, fuel)
    ensures Ended(prog, c, c', d, out, end, ctx, n, fuel)
  {
  }

  lemma MovedKept<V, S>(c: Cfg<V, S>, d: nat, st: seq<V>, pc: int)
    requires !c.error
    ensures Kept(c, c.(stack := st, pc := pc), d)
  {
  }

  lemma EvalElse<V, S>(w: World<V, S>, body: Block, d: nat, s: S, fuel: nat)
    ensures ExecElse(w, Else(body), s, fuel) == ExecBlock(w, body, s, fuel)
    ensures RestCode(NoElse, d) == []
  {
    hide ExecBlock;
  }

  /** The else part of a statement whose test failed. */
  lemma {:induction false} SimRest<V, S>(w: World<V, S>, prog: seq<Unit>, pc: nat, rest: Else, d: nat, ctx: Loop, m: nat,
                                         fuel: nat, c: Cfg<V, S>) returns (n: nat, c': Cfg<V, S>)
    requires Lawful(w) && d < REGIST_SIZE && RestOk(prog, pc, rest, d, ctx, m)
    requires Ready(prog, c, pc, d) && c.ireg[d]
    ensures c' == Steps(w, prog, c, n)
    ensures Ended(prog, c, c', d, ExecElse(w, rest, c.state, fuel), pc + |RestCode(rest, d)|, ctx, n, fuel)
    decreases fuel, SizeRest(rest), 0
  {
    hide *;
    if rest.NoElse? {
      n, c' := 0, c;
      NothingLeft(w, prog, pc, d, ctx, fuel, c);
    } else {
      var end, out := pc + |RestCode(rest, d)|, ExecElse(w, rest, c.state, fuel);
      RestFacts(prog, pc, rest, d, ctx, m);
      RestSplit(prog, pc, rest, d, ctx, m);
      RunNel(w, prog, pc, rest, d, c);
      var c1 := Step(w, prog, c);
      ReadyIn(prog, c, pc, d);
      MovedKept(c, d, [], Norm(prog, pc + 1));
      ReadyMove(prog, c, pc, pc + 1, d, []);
      if rest.Else? {
        EvalElse(w, rest.body, d, c1.state, fuel);
        AfterElse(rest);
        BranchParts(prog, pc + 1, rest.body, AfterOf(rest), d, ctx, m);
        ReadyIn(prog, c1, pc + 1, d);
        n, c' := SimBlock(w, prog, pc + 1, rest.body, d + 1, ctx, m, fuel, c1);
        EndedOut(prog, c1, c', d, out, end, ctx, n, fuel);
      } else {
        AfterElse(rest);
        AtLineSplit(prog, pc, d, true, [I(0, NEL, "1")], IfAsm(rest.c));
        SecondUnit(prog, pc, d, IfAsm(rest.c));
        ExecIf(w, rest.c, rest.body, rest.rest, c1.state, fuel);
        n, c' := SimCond(w, prog, pc + 1, false, rest.c, rest.body, rest.rest, d, ctx, m, fuel, c1);
      }
      StepsCons(w, prog, c, n);
      EndedAfter(prog, c, c1, c', d, d, out, end, ctx, 1, n, fuel, fuel);
      n := 1 + n;
    }
  }

  lemma AfterElse(rest: Else)
    requires !rest.NoElse?
    ensures rest.Else? ==> AfterOf(rest) == NoElse
    ensures rest.Elif? ==> AfterOf(rest) == rest.rest
  {
  }

  lemma SecondUnit(prog: seq<Unit>, pc: nat, d: nat, code: seq<Asm>)
    requires AtLine(prog, pc, d, true, [I(0, NEL, "1")] + code)
    ensures LineStart(prog, pc + 1)
  {
    assert prog[pc + 0] == Pack(d, true, ([I(0, NEL, "1")] + code)[0]);
  }

  lemma {:induction false} SimStmt<V, S>(w: World<V, S>, prog: seq<Unit>, pc: nat, st: Stmt, d: nat, ctx: Loop, m: nat,
                                         fuel: nat, c: Cfg<V, S>) returns (n: nat, c': Cfg<V, S>)
    requires Lawful(w) && StmtOk(prog, pc, st, d, ctx, m) && Ready(prog, c, pc, d)
    ensures c' == Steps(w, prog, c, n)
    ensures Ended(prog, c, c', d, Exec(w, st, c.state, fuel), pc + |StmtCode(st, d)|, ctx, n, fuel)
    decreases fuel, SizeStmt(st), 2
  {
    hide *;
    if st.If? {
      IfSplit(prog, pc, st, d, ctx, m);
      n, c' := SimCond(w, prog, pc, true, st.c, st.body, st.rest, d, ctx, m, fuel, c);
    } else if st.While? {
      n, c' := SimWhile(w, prog, pc, st, d, ctx, m, fuel, c);
    } else if st.For? {
      n, c' := SimFor(w, prog, pc, st, d, ctx, m, fuel, c);
    } else {
      StmtParts(prog, pc, st, d, ctx, m);
      n := SimSimple(w, prog, pc, st, d, ctx, m, fuel, c);
      c' := Steps(w, prog, c, n);
    }
  }

  lemma StmtParts(prog: seq<Unit>, pc: nat, st: Stmt, d: nat, ctx: Loop, m: nat)
    requires StmtOk(prog, pc, st, d, ctx, m)
    ensures FitsStmt(st, d) && Layout(prog, pc, StmtCode(st, d), d, ctx, m) && OkStmt(st, d, ctx.InLoop?, m)
  {
  }

  // ---- loops ----

  /** A loop: its head line at `top` ends with the test before `q`, the body stands at `q`, and the
      back jump after the body returns to `top`. */
  predicate LoopOk(prog: seq<Unit>, top: nat, q: nat, body: Block, d: nat) {
    var j := q + |BlockCode(body, d + 1)|;
    && 0 < q && j < |prog| && d < REGIST_SIZE && prog[j] == Pack(d, true, I(0, JMP, "-1"))
    && SeekBack(prog, j, d, 1) == Some(top)
    && BlockOk(prog, q, body, d + 1, InLoop(q - 1, j), 16)
  }

  lemma LoopSplit(prog: seq<Unit>, top: nat, head: seq<Asm>, body: Block, d: nat)
    requires d < REGIST_SIZE && AllI(head) && |head| >= 2 && FitsBlock(body, d + 1) && OkBlock(body, d + 1, true, 16)
    requires head[|head| - 1] == I(0, JEZ, "2") && head[|head| - 2].ins != GER
    requires At(prog, top, Line(d, head) + BlockCode(body, d + 1) + Line(d, BACK_ASM))
    ensures AtLine(prog, top, d, true, head) && LoopOk(prog, top, top + |head|, body, d)
    ensures Boundary(prog, top + |head| + |BlockCode(body, d + 1)| + 1, d) ==>
      SeekLine(prog, top + |head|, d, 2) == top + |head| + |BlockCode(body, d + 1)| + 1
  {
    hide *;
    var l, b, back := Line(d, head), BlockCode(body, d + 1), Pack(d, true, I(0, JMP, "-1"));
    var q := top + |head|;
    LineLength(d, head);
    LoopUnits(d, head);
    GoodBlock(body, d + 1);
    LayoutLoop(prog, top, l, b, back, d, MinBlock(body, d + 1));
    AtSplit(prog, top, l + b, [back]);
    AtSplit(prog, top, l, b);
    LineAt(prog, top, d, head);
    LoopJumps(prog, top, d, head, b, MinBlock(body, d + 1));
    LoopIntro(prog, top, q, body, d);
  }

  lemma LoopUnits(d: nat, head: seq<Asm>)
    requires d < REGIST_SIZE && AllI(head) && |head| >= 2
    requires head[|head| - 1] == I(0, JEZ, "2") && head[|head| - 2].ins != GER
    ensures var l, back := Line(d, head), Pack(d, true, I(0, JMP, "-1"));
            && Line(d, BACK_ASM) == [back] && IsBack(back) && back.newLine && back.block == d
            && IsTest(l[|l| - 1]) && l[|l| - 1].block == d && l[|l| - 2].ins != GER
  {
  }

  lemma LoopIntro(prog: seq<Unit>, top: nat, q: nat, body: Block, d: nat)
    requires d < REGIST_SIZE && FitsBlock(body, d + 1) && OkBlock(body, d + 1, true, 16) && 0 < q
    requires var j := q + |BlockCode(body, d + 1)|;
             && j < |prog| && prog[j] == Pack(d, true, I(0, JMP, "-1")) && SeekBack(prog, j, d, 1) == Some(top)
             && Layout(prog, q, BlockCode(body, d + 1), d + 1, InLoop(q - 1, j), 16)
    ensures LoopOk(prog, top, q, body, d)
  {
    hide Layout;
  }

  /** The back jump of a loop finds its head line, and a failed test finds what follows the back jump. */
  lemma LoopJumps(prog: seq<Unit>, top: nat, d: nat, head: seq<Asm>, body: seq<Unit>, m: nat)
    requires d < REGIST_SIZE && AtLine(prog, top, d, true, head) && head != []
    requires At(prog, top + |head|, body) && Good(body, d + 1, m)
    requires var j := top + |head| + |body|; j < |prog| && prog[j].newLine && prog[j].block == d
    ensures var j := top + |head| + |body|;
            && SeekBack(prog, j, d, 1) == Some(top)
            && (Boundary(prog, j + 1, d) ==> SeekLine(prog, top + |head|, d, 2) == j + 1)
  {
    var j := top + |head| + |body|;
    AtGood(prog, top + |head|, body, d + 1, m);
    forall x | top < x < j ensures !prog[x].newLine || prog[x].block != d {
      if x < top + |head| {
        assert prog[top + (x - top)] == Pack(d, false, head[x - top]);
      }
    }
    assert prog[top + 0] == Pack(d, true, head[0]);
    BackTo(prog, top, j, d);
    SkipClause(prog, top, d, true, head, body, m, top + |head|, 2);
  }

  /** How one round of a loop body ended: at the head line again, after the back jump, or for good. */
  ghost predicate Rounded<V, S>(prog: seq<Unit>, c: Cfg<V, S>, c': Cfg<V, S>, d: nat, out: Out<S>, top: nat, j: nat,
                                n: nat, fuel: nat) {
    match out
    case Normal(s) => Kept(c, c', d + 1) && c'.state == s && c'.pc == Norm(prog, top)
    case Continued(s) => Kept(c, c', d + 1) && c'.state == s && c'.pc == Norm(prog, top)
    case Broke(s) => Kept(c, c', d + 1) && c'.state == s && c'.pc == Norm(prog, j + 1)
    case Halted(s, error) => c'.pc == VM_PC_EXIT && c'.state == s && c'.error == error
    case Timeout => n >= fuel && 0 <= c'.pc < |prog|
  }

  lemma {:induction false} SimRound<V, S>(w: World<V, S>, prog: seq<Unit>, top: nat, q: nat, body: Block, d: nat,
                                          fuel: nat, c: Cfg<V, S>) returns (n: nat, c': Cfg<V, S>)
    requires Lawful(w) && LoopOk(prog, top, q, body, d) && Ready(prog, c, q, d + 1)
    ensures c' == Steps(w, prog, c, n)
    ensures Rounded(prog, c, c', d, ExecBlock(w, body, c.state, fuel), top, q + |BlockCode(body, d + 1)|, n, fuel)
    decreases fuel, SizeBlock(body), 1
  {
    hide *;
    var j := q + |BlockCode(body, d + 1)|;
    var out := ExecBlock(w, body, c.state, fuel);
    LoopParts(prog, top, q, body, d);
    n, c' := SimBlock(w, prog, q, body, d + 1, InLoop(q - 1, j), 16, fuel, c);
    RoundEnd(prog, c, c', d, out, top, q, j, n, fuel);
    if out.Normal? || out.Continued? {
      StepBack(w, prog, d, top, c');
      StepsSnoc(w, prog, c, n);
      RoundBack(prog, c, c', d, out, top, j, n, fuel);
      n, c' := n + 1, Step(w, prog, c');
    }
  }

  lemma LoopParts(prog: seq<Unit>, top: nat, q: nat, body: Block, d: nat)
    requires LoopOk(prog, top, q, body, d)
    ensures var j := q + |BlockCode(body, d + 1)|;
            && 0 < q && j < |prog| && d < REGIST_SIZE && prog[j] == Pack(d, true, I(0, JMP, "-1"))
            && SeekBack(prog, j, d, 1) == Some(top)
            && BlockOk(prog, q, body, d + 1, InLoop(q - 1, j), 16)
    ensures d < 16
  {
    hide BlockOk, SeekBack, BlockCode;
  }

  lemma RoundEnd<V, S>(prog: seq<Unit>, c: Cfg<V, S>, c': Cfg<V, S>, d: nat, out: Out<S>, top: nat, q: nat, j: nat,
                       n: nat, fuel: nat)
    requires 0 < q && j < |prog| && d < 16 && Ended(prog, c, c', d + 1, out, j, InLoop(q - 1, j), n, fuel)
    requires prog[j] == Pack(d, true, I(0, JMP, "-1"))
    ensures !out.Normal? && !out.Continued? ==> Rounded(prog, c, c', d, out, top, j, n, fuel)
    ensures out.Normal? || out.Continued? ==>
      Kept(c, c', d + 1) && c'.state == out.s && c'.pc == j && On(prog, c', d, true, I(0, JMP, "-1"))
  {
  }

  lemma RoundBack<V, S>(prog: seq<Unit>, c: Cfg<V, S>, c': Cfg<V, S>, d: nat, out: Out<S>, top: nat, j: nat,
                        n: nat, fuel: nat)
    requires (out.Normal? || out.Continued?) && Kept(c, c', d + 1) && c'.state == out.s && top < |prog|
    ensures Rounded(prog, c, c'.(stack := [], pc := top), d, out, top, j, n + 1, fuel)
  {
  }

  lemma WhileShape(prog: seq<Unit>, pc: nat, st: Stmt, d: nat, ctx: Loop, m: nat)
    requires st.While? && StmtOk(prog, pc, st, d, ctx, m)
    ensures m <= 16 && d < REGIST_SIZE && FitsExpr(st.c, 0) && FitsBlock(st.body, d + 1) && FitsRest(st.rest, d)
    ensures OkBlock(st.body, d + 1, true, 16) && OkRest(st.rest, d, ctx.InLoop?, Min(m, d))
    ensures StmtCode(st, d)
         == (Line(d, WhileAsm(st.c)) + BlockCode(st.body, d + 1) + Line(d, BACK_ASM)) + RestCode(st.rest, d)
    ensures Layout(prog, pc, StmtCode(st, d), d, ctx, m)
    ensures SizeBlock(st.body) + SizeRest(st.rest) < SizeStmt(st)
    ensures Good(Line(d, WhileAsm(st.c)) + BlockCode(st.body, d + 1) + Line(d, BACK_ASM), d, d)
    ensures |Line(d, BACK_ASM)| == 1 && AllI(BACK_ASM) && Min(m, d) <= 16
  {
    hide Layout, Good;
    GoodWhile(st.c, st.body, NoElse, d);
    var l := Line(d, WhileAsm(st.c)) + BlockCode(st.body, d + 1) + Line(d, BACK_ASM);
    assert StmtCode(While(st.c, st.body, NoElse), d) == l + [];
    assert l + [] == l;
  }

  lemma WhileLine(c: Expr)
    requires FitsExpr(c, 0)
    ensures var head := WhileAsm(c);
            && |head| >= 2 && head[|head| - 1] == I(0, JEZ, "2") && head[|head| - 2].ins != GER
            && head == ExprAsm(c, 0) + [I(0, JEZ, "2")]
  {
    PlainExpr(c, 0, false);
    var asm := ExprAsm(c, 0);
    assert asm[|asm| - 1] in asm;
  }

  lemma WhileSplit(prog: seq<Unit>, pc: nat, st: Stmt, d: nat, ctx: Loop, m: nat)
    requires st.While? && StmtOk(prog, pc, st, d, ctx, m)
    ensures AtLine(prog, pc, d, true, WhileAsm(st.c)) && LineStart(prog, pc) && FitsExpr(st.c, 0) && d < REGIST_SIZE
    ensures var q := pc + |WhileAsm(st.c)|; var r := q + |BlockCode(st.body, d + 1)| + 1;
            && LoopOk(prog, pc, q, st.body, d) && RestOk(prog, r, st.rest, d, ctx, Min(m, d))
            && SeekLine(prog, q, d, 2) == r && pc + |StmtCode(st, d)| == r + |RestCode(st.rest, d)|
            && FitsRest(st.rest, d) && At(prog, r, RestCode(st.rest, d)) && Boundary(prog, r + |RestCode(st.rest, d)|, d)
    ensures SizeBlock(st.body) + SizeRest(st.rest) < SizeStmt(st)
  {
    hide *;
    var head, b, r := WhileAsm(st.c), BlockCode(st.body, d + 1), RestCode(st.rest, d);
    WhileShape(prog, pc, st, d, ctx, m);
    var loop := Line(d, head) + b + Line(d, BACK_ASM);
    WhileLine(st.c);
    LineLength(d, head);
    GoodRest(st.rest, d);
    LayoutJoin(prog, pc, loop, r, d, ctx, m, d, MinRest(st.rest, d));
    LayoutParts(prog, pc, loop, d, ctx, m);
    LayoutParts(prog, pc + |loop|, r, d, ctx, Min(m, d));
    LoopSplit(prog, pc, head, st.body, d);
    RestIntro(prog, pc + |loop|, st.rest, d, ctx, Min(m, d));
  }

  lemma RestIntro(prog: seq<Unit>, pc: nat, rest: Else, d: nat, ctx: Loop, m: nat)
    requires d < REGIST_SIZE && FitsRest(rest, d) && Layout(prog, pc, RestCode(rest, d), d, ctx, m)
    requires OkRest(rest, d, ctx.InLoop?, m) && m <= 16
    ensures RestOk(prog, pc, rest, d, ctx, m)
  {
    hide Layout;
  }

  lemma ExecLoop<V, S>(w: World<V, S>, st: Stmt, s: S, fuel: nat)
    requires st.While?
    ensures fuel == 0 ==> Exec(w, st, s, fuel) == Timeout
    ensures fuel > 0 && Eval(w, st.c, s).Err? ==> Exec(w, st, s, fuel) == Halted(Eval(w, st.c, s).s, true)
    ensures fuel > 0 && Eval(w, st.c, s).Ok? ==>
      var s1 := Eval(w, st.c, s).s;
      var o := ExecBlock(w, st.body, s1, fuel - 1);
      Exec(w, st, s, fuel) ==
        if !w.truth(Eval(w, st.c, s).v) then ExecElse(w, st.rest, s1, fuel - 1)
        else if o.Normal? || o.Continued? then Exec(w, st, o.s, fuel - 1)
        else if o.Broke? then Normal(o.s) else o
  {
    hide Eval, ExecBlock, ExecElse;
  }

  lemma TopRun<V, S>(prog: seq<Unit>, top: nat, head: seq<Asm>, d: nat, c: Cfg<V, S>)
    requires AtLine(prog, top, d, true, head) && head != [] && LineStart(prog, top) && Ready(prog, c, top, d)
    ensures top < |prog| && c.pc == top && (top == 0 || prog[top - 1].invoke == 0)
    ensures !c.error && Clear(c, 0) && |c.ireg| == REGIST_SIZE && |c.lreg| == REGIST_SIZE && Atoi("2") == 2
    ensures Kept(c, c, d)
  {
    AtoiJumps();
  }

  /** A round that ends the loop: what remains to do after it. */
  lemma RoundDone<V, S>(prog: seq<Unit>, c: Cfg<V, S>, c1: Cfg<V, S>, c2: Cfg<V, S>, d: nat, out: Out<S>, top: nat, q: nat,
                        j: nat, end: nat, ctx: Loop, n: nat, k: nat, fuel: nat)
    requires Kept(c, c1, d) && Rounded(prog, c1, c2, d, out, top, j, k, fuel) && n > 0
    requires Ready(prog, c1, q, d) && d < REGIST_SIZE
    ensures out.Normal? || out.Continued? ==> Ready(prog, c2, top, d) && Kept(c, c2, d) && c2.state == out.s
    ensures out.Broke? ==> Ready(prog, c2, j + 1, d) && Kept(c, c2, d) && c2.ireg[d] == c1.ireg[d] && c2.state == out.s
    ensures !out.Broke? && !out.Normal? && !out.Continued? ==> Ended(prog, c, c2, d, out, end, ctx, n + k, fuel + 1)
  {
  }

  lemma BrokenOut<V, S>(prog: seq<Unit>, c: Cfg<V, S>, c1: Cfg<V, S>, c2: Cfg<V, S>, d: nat, s: S, end: nat, ctx: Loop,
                        n: nat, fuel: nat)
    requires Kept(c, c1, d) && c1.state == s && c2 == c1.(stack := c2.stack, pc := Norm(prog, end))
    ensures Ended(prog, c, c2, d, Normal(s), end, ctx, n, fuel)
  {
  }

  /** `while` loops: the test line, rounds of the body, and the else part. */
  lemma {:induction false} SimWhile<V, S>(w: World<V, S>, prog: seq<Unit>, pc: nat, st: Stmt, d: nat, ctx: Loop, m: nat,
                                          fuel: nat, c: Cfg<V, S>) returns (n: nat, c': Cfg<V, S>)
    requires Lawful(w) && st.While? && StmtOk(prog, pc, st, d, ctx, m) && Ready(prog, c, pc, d)
    ensures c' == Steps(w, prog, c, n)
    ensures Ended(prog, c, c', d, Exec(w, st, c.state, fuel), pc + |StmtCode(st, d)|, ctx, n, fuel)
    decreases fuel, SizeStmt(st), 0
  {
    hide *;
    WhileSplit(prog, pc, st, d, ctx, m);
    var q, end := pc + |WhileAsm(st.c)|, pc + |StmtCode(st, d)|;
    var j := q + |BlockCode(st.body, d + 1)|;
    WhileLine(st.c);
    TopRun(prog, pc, WhileAsm(st.c), d, c);
    ExecLoop(w, st, c.state, fuel);
    if fuel == 0 {
      n, c' := 0, c;
      NoFuel(w, prog, c, c, d, end, ctx);
    } else {
      n := RunTest(w, prog, pc, d, true, st.c, "2", c);
      c' := Steps(w, prog, c, n);
      var v := Eval(w, st.c, c.state);
      if v.Err? {
        FreshRegs(c, true);
        TestFailed(w, prog, c, Fresh(c, true), d, v, q, 2, c', end, ctx, n, fuel);
      } else {
        AfterTest(w, prog, c, true, pc, d, v, q, 2, if w.truth(v.v) then q else j + 1, c');
        var k, c2;
        if w.truth(v.v) {
          k, c2 := SimAgain(w, prog, pc, st, d, ctx, m, fuel, n, c, c');
        } else {
          k, c2 := SimRest(w, prog, j + 1, st.rest, d, ctx, Min(m, d), fuel - 1, c');
          EndedAfter(prog, c, c', c2, d, d, Exec(w, st, c.state, fuel), end, ctx, n, k, fuel - 1, fuel);
        }
        StepsAdd(w, prog, c, n, k);
        n, c' := n + k, c2;
      }
    }
  }

  /** The rest of a `while` loop after a successful test, `n` steps after frame `c0`. */
  lemma {:induction false} SimAgain<V, S>(w: World<V, S>, prog: seq<Unit>, pc: nat, st: Stmt, d: nat, ctx: Loop, m: nat,
                                          fuel: nat, n: nat, c0: Cfg<V, S>, c: Cfg<V, S>) returns (k: nat, c': Cfg<V, S>)
    requires Lawful(w) && st.While? && StmtOk(prog, pc, st, d, ctx, m) && fuel > 0 && n > 0 && d < REGIST_SIZE
    requires Ready(prog, c, pc + |WhileAsm(st.c)|, d) && Kept(c0, c, d) && !c.ireg[d]
    requires var o := ExecBlock(w, st.body, c.state, fuel - 1);
             Exec(w, st, c0.state, fuel) ==
               if o.Normal? || o.Continued? then Exec(w, st, o.s, fuel - 1)
               else if o.Broke? then Normal(o.s) else o
    ensures c' == Steps(w, prog, c, k)
    ensures Ended(prog, c0, c', d, Exec(w, st, c0.state, fuel), pc + |StmtCode(st, d)|, ctx, n + k, fuel)
    decreases fuel, 0, 0
  {
    hide *;
    WhileSplit(prog, pc, st, d, ctx, m);
    var q, end := pc + |WhileAsm(st.c)|, pc + |StmtCode(st, d)|;
    var j := q + |BlockCode(st.body, d + 1)|;
    var o := ExecBlock(w, st.body, c.state, fuel - 1);
    ReadyIn(prog, c, q, d);
    k, c' := SimRound(w, prog, pc, q, st.body, d, fuel - 1, c);
    RoundDone(prog, c0, c, c', d, o, pc, q, j, end, ctx, n, k, fuel - 1);
    var i, c2 := 0, c';
    if o.Normal? || o.Continued? {
      i, c2 := SimWhile(w, prog, pc, st, d, ctx, m, fuel - 1, c');
      EndedAfter(prog, c0, c', c2, d, d, Exec(w, st, o.s, fuel - 1), end, ctx, n + k, i, fuel - 1, fuel);
      StepsAdd(w, prog, c, k, i);
    } else if o.Broke? {
      i, c2 := SimSkip(w, prog, j + 1, st.rest, d, c');
      BrokenOut(prog, c0, c', c2, d, o.s, end, ctx, n + k + i, fuel);
      StepsAdd(w, prog, c, k, i);
    }
    k, c' := k + i, c2;
  }

  // ---- `for` loops ----

  /** Start of the line of a `for` loop that fetches the next item. */
  function ForTop(pc: nat, st: Stmt, d: nat): nat
    requires st.For?
  {
    pc + |ForInitAsm(st.e, d)|
  }

  function ForBack(pc: nat, st: Stmt, d: nat): nat
    requires st.For?
  {
    ForTop(pc, st, d) + 4 + |BlockCode(st.body, d + 1)|
  }

  function ForLoop(st: Stmt, d: nat): seq<Unit>
    requires st.For?
  {
    Line(d, ForNextAsm(st.x, d)) + BlockCode(st.body, d + 1) + Line(d, BACK_ASM)
  }

  lemma ForShape(prog: seq<Unit>, pc: nat, st: Stmt, d: nat, ctx: Loop, m: nat)
    requires st.For? && StmtOk(prog, pc, st, d, ctx, m)
    ensures m <= 16 && Min(m, d) <= 16 && d < REGIST_SIZE && FitsExpr(IterOf(st.e), 0) && !IsLReg(st.x)
    ensures FitsBlock(st.body, d + 1) && FitsRest(st.rest, d)
    ensures OkBlock(st.body, d + 1, true, 16) && OkRest(st.rest, d, ctx.InLoop?, Min(m, d))
    ensures SizeBlock(st.body) + SizeRest(st.rest) < SizeStmt(st)
    ensures Layout(prog, pc, StmtCode(st, d), d, ctx, m)
  {
    hide Layout;
  }

  lemma ForCode(st: Stmt, d: nat)
    requires st.For? && FitsStmt(st, d)
    ensures var front := Line(d, ForInitAsm(st.e, d)) + ForLoop(st, d) + Line(d, DelAsm(d));
            StmtCode(st, d) == front + RestCode(st.rest, d) && Good(front, d, d)
  {
    hide Good;
    var init, del, b := Line(d, ForInitAsm(st.e, d)), Line(d, DelAsm(d)), BlockCode(st.body, d + 1);
    var next, back := Line(d, ForNextAsm(st.x, d)), Line(d, BACK_ASM);
    assert init + next + b + back + del == init + ForLoop(st, d) + del;
    GoodFor(st.x, st.e, st.body, NoElse, d);
    assert StmtCode(For(st.x, st.e, st.body, NoElse), d) == init + next + b + back + del + [];
    assert init + next + b + back + del + [] == init + next + b + back + del;
  }

  /** The instruction lines of a `for` loop. */
  lemma ForLines(st: Stmt, d: nat)
    requires st.For? && FitsExpr(IterOf(st.e), 0) && d < REGIST_SIZE
    ensures var next := ForNextAsm(st.x, d);
            && AllI(next) && |next| == 4 && next[3] == I(0, JEZ, "2") && next[2].ins != GER
    ensures var init := ForInitAsm(st.e, d); init == ExprAsm(IterOf(st.e), 0) + [I(0, OUT, LReg(d))]
    ensures |Line(d, ForInitAsm(st.e, d))| == |ForInitAsm(st.e, d)| && |ForLoop(st, d)| == 5 + |BlockCode(st.body, d + 1)|
    ensures AllI(DelAsm(d)) && Line(d, DelAsm(d)) == [Pack(d, true, I(0, DEL, LReg(d)))]
  {
    PlainExpr(IterOf(st.e), 0, false);
  }

  lemma LastOfInit(prog: seq<Unit>, pc: nat, d: nat, e: Expr)
    requires AtLine(prog, pc, d, true, ForInitAsm(e, d))
    ensures LineStart(prog, pc + |ForInitAsm(e, d)|)
  {
    var asm := ForInitAsm(e, d);
    assert prog[pc + (|asm| - 1)] == Pack(d, |asm| == 1, asm[|asm| - 1]);
  }

  lemma ForSplit(prog: seq<Unit>, pc: nat, st: Stmt, d: nat, ctx: Loop, m: nat)
    requires st.For? && StmtOk(prog, pc, st, d, ctx, m)
    ensures AtLine(prog, pc, d, true, ForInitAsm(st.e, d)) && LineStart(prog, pc)
    ensures var top, j := ForTop(pc, st, d), ForBack(pc, st, d);
            && AtLine(prog, top, d, true, ForNextAsm(st.x, d)) && LineStart(prog, top)
            && LoopOk(prog, top, top + 4, st.body, d) && top + 4 <= |prog| && SeekLine(prog, top + 4, d, 2) == j + 1
            && j + 1 < |prog| && prog[j + 1] == Pack(d, true, I(0, DEL, LReg(d)))
            && RestOk(prog, j + 2, st.rest, d, ctx, Min(m, d)) && At(prog, j + 2, RestCode(st.rest, d))
            && pc + |StmtCode(st, d)| == j + 2 + |RestCode(st.rest, d)|
            && Boundary(prog, j + 2 + |RestCode(st.rest, d)|, d)
  {
    hide *;
    StmtParts(prog, pc, st, d, ctx, m);
    ForShape(prog, pc, st, d, ctx, m);
    ForCode(st, d);
    ForLines(st, d);
    ForPlaces(pc, st, d);
    var init, del, r := Line(d, ForInitAsm(st.e, d)), Line(d, DelAsm(d)), RestCode(st.rest, d);
    var loop, j := ForLoop(st, d), ForBack(pc, st, d);
    GoodRest(st.rest, d);
    LayoutJoin(prog, pc, init + loop + del, r, d, ctx, m, d, MinRest(st.rest, d));
    LayoutParts(prog, pc, init + loop + del, d, ctx, m);
    LayoutParts(prog, j + 2, r, d, ctx, Min(m, d));
    RestIntro(prog, j + 2, st.rest, d, ctx, Min(m, d));
    AtSplit(prog, pc, init + loop, del);
    AtSplit(prog, pc, init, loop);
    LineAt(prog, pc, d, ForInitAsm(st.e, d));
    LastOfInit(prog, pc, d, st.e);
    DropAt(prog, j + 1, d, I(0, DEL, LReg(d)));
    LoopSplit(prog, ForTop(pc, st, d), ForNextAsm(st.x, d), st.body, d);
    AtLineLength(prog, ForTop(pc, st, d), d, true, ForNextAsm(st.x, d));
  }

  lemma ForPlaces(pc: nat, st: Stmt, d: nat)
    requires st.For?
    ensures ForTop(pc, st, d) == pc + |ForInitAsm(st.e, d)|
    ensures ForBack(pc, st, d) == ForTop(pc, st, d) + 4 + |BlockCode(st.body, d + 1)|
    ensures AllI(BACK_ASM)
    ensures AllI(ForNextAsm(st.x, d)) && ForLoop(st, d) == Line(d, ForNextAsm(st.x, d)) + BlockCode(st.body, d + 1) + Line(d, BACK_ASM)
  {
    hide BlockCode;
  }

  lemma DropAt(prog: seq<Unit>, i: nat, d: nat, a: Asm)
    requires a.I? && d < REGIST_SIZE && At(prog, i, [Pack(d, true, a)])
    ensures i < |prog| && prog[i] == Pack(d, true, a) && Boundary(prog, i, d)
  {
    assert prog[i + 0] == [Pack(d, true, a)][0];
  }

  /** Between rounds of a `for` loop the iterator is in the loop register of the loop's depth; all
      else is as it was at `c0`, before the loop. */
  ghost predicate Held<V, S>(c0: Cfg<V, S>, c: Cfg<V, S>, d: nat, it: V) {
    && d < |c0.lreg| && c0.lreg[d] == None && c.lreg == c0.lreg[d := Some(it)]
    && Kept(c0, c.(lreg := c0.lreg), d)
  }

  /** Result of the line that fetches the next item: an error, the body at `q`, or the exit at `out`. */
  ghost predicate Fetched<V, S>(w: World<V, S>, prog: seq<Unit>, c: Cfg<V, S>, d: nat, x: string, it: V, q: nat, out: nat,
                                c': Cfg<V, S>)
    requires d < |c.ireg|
  {
    match w.method_(it, "__next__", [], c.state)
    case Err(s) => Failed(c', s)
    case Ok(v, s) =>
      match w.assign(x, v, s)
      case Fail(s2) => Failed(c', s2)
      case Done(s2) =>
        c' == c.(stack := [], state := s2, ireg := c.ireg[d := !w.present(x, s2)],
                 pc := Norm(prog, if w.present(x, s2) then q else out))
  }

  lemma NextUnits<V, S>(prog: seq<Unit>, top: nat, x: string, d: nat, c: Cfg<V, S>)
    requires d < REGIST_SIZE && AtLine(prog, top, d, true, ForNextAsm(x, d)) && c.pc == top && !c.error
    requires top == 0 || prog[top - 1].invoke == 0
    ensures On(prog, c, d, true, I(0, RUN, LReg(d) + ".__next__")) && ArgCount(prog, top, 0) == 0
    ensures top + 4 <= |prog| && prog[top + 1] == Pack(d, false, I(0, OUT, x))
    ensures prog[top + 2] == Pack(d, false, I(0, EST, x)) && prog[top + 3] == Pack(d, false, I(0, JEZ, "2"))
  {
    var asm := ForNextAsm(x, d);
    assert asm[0].I? && prog[top + 0] == Pack(d, true, asm[0]);
    assert asm[1].I? && prog[top + 1] == Pack(d, false, asm[1]);
    assert asm[2].I? && prog[top + 2] == Pack(d, false, asm[2]);
    assert asm[3].I? && prog[top + 3] == Pack(d, false, asm[3]);
  }

  lemma RunNext<V, S>(w: World<V, S>, prog: seq<Unit>, top: nat, x: string, d: nat, it: V, out: nat, c: Cfg<V, S>)
    returns (n: nat)
    requires Lawful(w) && d < REGIST_SIZE && AtLine(prog, top, d, true, ForNextAsm(x, d)) && !IsLReg(x)
    requires top == 0 || prog[top - 1].invoke == 0
    requires c.pc == top && !c.error && |c.ireg| == REGIST_SIZE == |c.lreg| && c.lreg[d] == Some(it)
    requires top + 4 <= |prog| && SeekLine(prog, top + 4, d, 2) == out
    ensures n > 0 && Fetched(w, prog, c, d, x, it, top + 4, out, Steps(w, prog, c, n))
  {
    hide Step, Steps, SeekLine, AtLine;
    NextUnits(prog, top, x, d, c);
    AtoiJumps();
    StepNext(w, prog, d, c);
    StepsOne(w, prog, c);
    n := 1;
    var r := w.method_(it, "__next__", [], c.state);
    if r.Ok? {
      var c1 := Steps(w, prog, c, 1);
      assert c1.stack == [] + [r.v];
      StepAssign(w, prog, d, x, [], r.v, c1);
      StepsSnoc(w, prog, c, 1);
      n := 2;
      if w.assign(x, r.v, r.s).Done? {
        var c2 := Steps(w, prog, c, 2);
        StepEst(w, prog, d, x, c2);
        StepsSnoc(w, prog, c, 2);
        var c3 := Steps(w, prog, c, 3);
        StepJez(w, prog, d, "2", [], w.flag(w.present(x, c2.state)), c3);
        StepsSnoc(w, prog, c, 3);
        n := 4;
      }
    }
  }

  lemma ExecForRound<V, S>(w: World<V, S>, it: V, st: Stmt, s: S, fuel: nat)
    requires st.For?
    ensures fuel == 0 ==> ExecFor(w, it, st.x, st.body, st.rest, s, fuel) == Timeout
    ensures fuel > 0 ==>
      var out, r := ExecFor(w, it, st.x, st.body, st.rest, s, fuel), w.method_(it, "__next__", [], s);
      if r.Err? then out == Halted(r.s, true)
      else var a := w.assign(st.x, r.v, r.s);
        if a.Fail? then out == Halted(a.s, true)
        else if !w.present(st.x, a.s) then out == ExecElse(w, st.rest, a.s, fuel - 1)
        else var o := ExecBlock(w, st.body, a.s, fuel - 1);
          out == if o.Normal? || o.Continued? then ExecFor(w, it, st.x, st.body, st.rest, o.s, fuel - 1)
                 else if o.Broke? then Normal(o.s) else o
  {
    hide ExecBlock, ExecElse;
  }

  lemma HeldRun<V, S>(prog: seq<Unit>, c0: Cfg<V, S>, c: Cfg<V, S>, top: nat, d: nat, it: V, pc0: nat)
    requires Held(c0, c, d, it) && Ready(prog, c0, pc0, d) && c.pc == Norm(prog, top) && top < |prog| && d < REGIST_SIZE
    ensures c.pc == top && !c.error && |c.ireg| == REGIST_SIZE == |c.lreg| && c.lreg[d] == Some(it)
  {
  }

  /** A fetched item: the frame before the body or before the exit. */
  lemma AfterFetch<V, S>(w: World<V, S>, prog: seq<Unit>, c0: Cfg<V, S>, c: Cfg<V, S>, d: nat, x: string, it: V, q: nat,
                         out: nat, c': Cfg<V, S>, pc0: nat)
    requires Held(c0, c, d, it) && Ready(prog, c0, pc0, d) && d < REGIST_SIZE && d < |c.ireg|
    requires Fetched(w, prog, c, d, x, it, q, out, c')
    ensures var r := w.method_(it, "__next__", [], c.state);
            if r.Err? then Failed(c', r.s)
            else var a := w.assign(x, r.v, r.s);
              if a.Fail? then Failed(c', a.s)
              else
                && Held(c0, c', d, it) && c'.state == a.s && Ready(prog, c', if w.present(x, a.s) then q else out, d + 1)
                && c'.ireg[d] == !w.present(x, a.s)
  {
  }

  lemma HeldRound<V, S>(prog: seq<Unit>, c0: Cfg<V, S>, c: Cfg<V, S>, c': Cfg<V, S>, d: nat, it: V, out: Out<S>, top: nat,
                        q: nat, j: nat, end: nat, ctx: Loop, n: nat, k: nat, fuel: nat)
    requires Held(c0, c, d, it) && Ready(prog, c, q, d + 1) && d < REGIST_SIZE && n > 0
    requires Rounded(prog, c, c', d, out, top, j, k, fuel)
    ensures out.Normal? || out.Continued? ==> Held(c0, c', d, it) && c'.pc == Norm(prog, top) && c'.state == out.s
    ensures out.Broke? ==>
      Held(c0, c', d, it) && Ready(prog, c', j + 1, d + 1) && c'.ireg[d] == c.ireg[d] && c'.state == out.s
    ensures !out.Broke? && !out.Normal? && !out.Continued? ==> Ended(prog, c0, c', d, out, end, ctx, n + k, fuel + 1)
  {
  }

  /** Leaving a `for` loop empties its loop register. */
  lemma RunDrop<V, S>(w: World<V, S>, prog: seq<Unit>, c0: Cfg<V, S>, c: Cfg<V, S>, d: nat, it: V, j: nat, pc0: nat)
    requires Held(c0, c, d, it) && Ready(prog, c0, pc0, d) && d < REGIST_SIZE && Ready(prog, c, j + 1, d + 1)
    requires j + 1 < |prog| && prog[j + 1] == Pack(d, true, I(0, DEL, LReg(d)))
    ensures var c' := Step(w, prog, c);
            Kept(c0, c', d) && Ready(prog, c', j + 2, d) && c'.ireg == c.ireg && c'.state == c.state && d < |c.ireg|
  {
    hide Step;
    StepDrop(w, prog, d, c);
    assert c0.lreg[d := Some(it)][d := None] == c0.lreg;
  }

  /** The exit of a `for` loop: drop the register, then the else part when no `break` happened. */
  lemma {:induction false} SimForExit<V, S>(w: World<V, S>, prog: seq<Unit>, pc: nat, st: Stmt, d: nat, ctx: Loop, m: nat,
                                            fuel: nat, it: V, c0: Cfg<V, S>, c: Cfg<V, S>) returns (n: nat, c': Cfg<V, S>)
    requires Lawful(w) && st.For? && StmtOk(prog, pc, st, d, ctx, m) && d < REGIST_SIZE
    requires Ready(prog, c0, pc, d) && Held(c0, c, d, it) && Ready(prog, c, ForBack(pc, st, d) + 1, d + 1)
    ensures c' == Steps(w, prog, c, n)
    ensures Ended(prog, c0, c', d, if c.ireg[d] then ExecElse(w, st.rest, c.state, fuel) else Normal(c.state),
                  pc + |StmtCode(st, d)|, ctx, n, fuel)
    decreases fuel, SizeRest(st.rest), 1
  {
    hide *;
    var j, end := ForBack(pc, st, d), pc + |StmtCode(st, d)|;
    ForSplit(prog, pc, st, d, ctx, m);
    ForShape(prog, pc, st, d, ctx, m);
    RunDrop(w, prog, c0, c, d, it, j, pc);
    var c1 := Step(w, prog, c);
    if c.ireg[d] {
      n, c' := SimRest(w, prog, j + 2, st.rest, d, ctx, Min(m, d), fuel, c1);
      EndedAfter(prog, c0, c1, c', d, d, ExecElse(w, st.rest, c.state, fuel), end, ctx, 1, n, fuel, fuel);
    } else {
      n, c' := SimSkip(w, prog, j + 2, st.rest, d, c1);
      BrokenOut(prog, c0, c1, c', d, c.state, end, ctx, 1 + n, fuel);
    }
    StepsCons(w, prog, c, n);
    n := 1 + n;
  }

  lemma EndedMore<V, S>(prog: seq<Unit>, c: Cfg<V, S>, c': Cfg<V, S>, d: nat, out: Out<S>, end: nat, ctx: Loop,
                        n: nat, n': nat, left: nat, fuel: nat)
    requires Ended(prog, c, c', d, out, end, ctx, n, left) && n' + left >= n + fuel
    ensures Ended(prog, c, c', d, out, end, ctx, n', fuel)
  {
  }

  lemma EndedFailed<V, S>(prog: seq<Unit>, c: Cfg<V, S>, c': Cfg<V, S>, d: nat, s: S, end: nat, ctx: Loop, n: nat, fuel: nat)
    requires Failed(c', s)
    ensures Ended(prog, c, c', d, Halted(s, true), end, ctx, n, fuel)
  {
  }

  /** Rounds of a `for` loop, from the line that fetches the next item. */
  lemma {:induction false} SimRounds<V, S>(w: World<V, S>, prog: seq<Unit>, pc: nat, st: Stmt, d: nat, ctx: Loop, m: nat,
                                           fuel: nat, it: V, c0: Cfg<V, S>, c: Cfg<V, S>) returns (n: nat, c': Cfg<V, S>)
    requires Lawful(w) && st.For? && StmtOk(prog, pc, st, d, ctx, m) && d < REGIST_SIZE
    requires Ready(prog, c0, pc, d) && Held(c0, c, d, it) && c.pc == Norm(prog, ForTop(pc, st, d))
    ensures c' == Steps(w, prog, c, n)
    ensures Ended(prog, c0, c', d, ExecFor(w, it, st.x, st.body, st.rest, c.state, fuel),
                  pc + |StmtCode(st, d)|, ctx, n, fuel)
    decreases fuel, SizeStmt(st), 0
  {
    hide *;
    var top, j, end := ForTop(pc, st, d), ForBack(pc, st, d), pc + |StmtCode(st, d)|;
    ForSplit(prog, pc, st, d, ctx, m);
    ForShape(prog, pc, st, d, ctx, m);
    ForPlaces(pc, st, d);
    LoopParts(prog, top, top + 4, st.body, d);
    HeldRun(prog, c0, c, top, d, it, pc);
    ExecForRound(w, it, st, c.state, fuel);
    if fuel == 0 {
      n, c' := 0, c;
      NoFuel(w, prog, c0, c, d, end, ctx);
    } else {
      PrevInvoke(prog, top);
      n := RunNext(w, prog, top, st.x, d, it, j + 1, c);
      c' := Steps(w, prog, c, n);
      AfterFetch(w, prog, c0, c, d, st.x, it, top + 4, j + 1, c', pc);
      var out, r := ExecFor(w, it, st.x, st.body, st.rest, c.state, fuel), w.method_(it, "__next__", [], c.state);
      if r.Err? || w.assign(st.x, r.v, r.s).Fail? {
        EndedFailed(prog, c0, c', d, out.s, end, ctx, n, fuel);
      } else {
        var k, c2;
        if w.present(st.x, c'.state) {
          k, c2 := SimForBody(w, prog, pc, st, d, ctx, m, fuel, n, it, out, c0, c');
        } else {
          k, c2 := SimForExit(w, prog, pc, st, d, ctx, m, fuel - 1, it, c0, c');
          EndedMore(prog, c0, c2, d, out, end, ctx, k, n + k, fuel - 1, fuel);
        }
        StepsAdd(w, prog, c, n, k);
        n, c' := n + k, c2;
      }
    }
  }

  lemma PrevInvoke(prog: seq<Unit>, top: nat)
    requires LineStart(prog, top)
    ensures top == 0 || prog[top - 1].invoke == 0
  {
  }

  lemma NoFuel<V, S>(w: World<V, S>, prog: seq<Unit>, c0: Cfg<V, S>, c: Cfg<V, S>, d: nat, end: nat, ctx: Loop)
    requires 0 <= c.pc < |prog|
    ensures Steps(w, prog, c, 0) == c && Ended(prog, c0, c, d, Timeout, end, ctx, 0, 0)
  {
    hide Step;
  }

  lemma {:induction false} SimForBody<V, S>(w: World<V, S>, prog: seq<Unit>, pc: nat, st: Stmt, d: nat, ctx: Loop, m: nat,
                                            fuel: nat, n: nat, it: V, out: Out<S>, c0: Cfg<V, S>, c: Cfg<V, S>)
    returns (k: nat, c': Cfg<V, S>)
    requires Lawful(w) && st.For? && StmtOk(prog, pc, st, d, ctx, m) && d < REGIST_SIZE && fuel > 0 && n > 0
    requires Ready(prog, c0, pc, d) && Held(c0, c, d, it) && Ready(prog, c, ForTop(pc, st, d) + 4, d + 1) && !c.ireg[d]
    requires var o := ExecBlock(w, st.body, c.state, fuel - 1);
             out == if o.Normal? || o.Continued? then ExecFor(w, it, st.x, st.body, st.rest, o.s, fuel - 1)
                    else if o.Broke? then Normal(o.s) else o
    ensures c' == Steps(w, prog, c, k)
    ensures Ended(prog, c0, c', d, out, pc + |StmtCode(st, d)|, ctx, n + k, fuel)
    decreases fuel, 0, 0
  {
    hide *;
    var top, j, end := ForTop(pc, st, d), ForBack(pc, st, d), pc + |StmtCode(st, d)|;
    ForSplit(prog, pc, st, d, ctx, m);
    ForPlaces(pc, st, d);
    var o := ExecBlock(w, st.body, c.state, fuel - 1);
    k, c' := SimRound(w, prog, top, top + 4, st.body, d, fuel - 1, c);
    HeldRound(prog, c0, c, c', d, it, o, top, top + 4, j, end, ctx, n, k, fuel - 1);
    var i, c2 := 0, c';
    if o.Normal? || o.Continued? {
      i, c2 := SimRounds(w, prog, pc, st, d, ctx, m, fuel - 1, it, c0, c');
      EndedMore(prog, c0, c2, d, out, end, ctx, i, n + k + i, fuel - 1, fuel);
      StepsAdd(w, prog, c, k, i);
    } else if o.Broke? {
      i, c2 := SimForExit(w, prog, pc, st, d, ctx, m, fuel - 1, it, c0, c');
      EndedMore(prog, c0, c2, d, out, end, ctx, i, n + k + i, fuel - 1, fuel);
      StepsAdd(w, prog, c, k, i);
    }
    k, c' := k + i, c2;
  }

  /** What the first line of a `for` loop computes: the value of the expression, then the iterator of that value. */
  lemma EvalIter<V, S>(w: World<V, S>, e: Expr, s: S)
    ensures var r, v := Eval(w, e, s), Eval(w, IterOf(e), s);
            v == if r.Ok? then w.apply(RUN, "iter", [r.v], r.s) else Err(r.s)
  {
    var r := Eval(w, e, s);
    assert r.Ok? ==> EvalAll(w, ECons(e, ENil), s) == Ok([r.v] + [], r.s) && [r.v] + [] == [r.v];
  }

  lemma ExecForInit<V, S>(w: World<V, S>, st: Stmt, s: S, fuel: nat)
    requires st.For?
    ensures var v := Eval(w, IterOf(st.e), s);
            && (v.Err? ==> Exec(w, st, s, fuel) == Halted(v.s, true))
            && (v.Ok? && !w.isObject(v.v) ==> Exec(w, st, s, fuel) == Halted(v.s, true))
            && (v.Ok? && w.isObject(v.v) ==> Exec(w, st, s, fuel) == ExecFor(w, v.v, st.x, st.body, st.rest, v.s, fuel))
  {
    hide Eval, ExecFor;
    EvalIter(w, st.e, s);
  }

  /** The first line of a `for` loop: evaluate the iterator and keep it in the loop register. */
  lemma RunInit<V, S>(w: World<V, S>, prog: seq<Unit>, pc: nat, e: Expr, d: nat, c: Cfg<V, S>) returns (n: nat)
    requires d < REGIST_SIZE && FitsExpr(IterOf(e), 0) && AtLine(prog, pc, d, true, ForInitAsm(e, d))
    requires LineStart(prog, pc) && Ready(prog, c, pc, d)
    ensures var v, c' := Eval(w, IterOf(e), c.state), Steps(w, prog, c, n);
            if v.Err? then Failed(c', v.s)
            else
              && c'.pc == Norm(prog, pc + |ForInitAsm(e, d)|) && c'.state == v.s
              && (w.isObject(v.v) ==> Held(c, c', d, v.v))
              && (!w.isObject(v.v) ==> !c'.error && c'.lreg == c.lreg)
  {
    hide Step, Steps, AtLine, Eval;
    TopRun(prog, pc, ForInitAsm(e, d), d, c);
    n := RunHead(w, prog, pc, d, true, IterOf(e), I(0, OUT, LReg(d)), c);
    var v := Eval(w, IterOf(e), c.state);
    if v.Ok? {
      StepKeep(w, prog, d, [], v.v, Steps(w, prog, c, n));
      StepsSnoc(w, prog, c, n);
      n := n + 1;
    }
  }

  /** `for` loops. */
  lemma {:induction false} SimFor<V, S>(w: World<V, S>, prog: seq<Unit>, pc: nat, st: Stmt, d: nat, ctx: Loop, m: nat,
                                        fuel: nat, c: Cfg<V, S>) returns (n: nat, c': Cfg<V, S>)
    requires Lawful(w) && st.For? && StmtOk(prog, pc, st, d, ctx, m) && Ready(prog, c, pc, d)
    ensures c' == Steps(w, prog, c, n)
    ensures Ended(prog, c, c', d, Exec(w, st, c.state, fuel), pc + |StmtCode(st, d)|, ctx, n, fuel)
    decreases fuel, SizeStmt(st), 1
  {
    hide *;
    var top, end := ForTop(pc, st, d), pc + |StmtCode(st, d)|;
    ForSplit(prog, pc, st, d, ctx, m);
    ForShape(prog, pc, st, d, ctx, m);
    ForPlaces(pc, st, d);
    LoopParts(prog, top, top + 4, st.body, d);
    ExecForInit(w, st, c.state, fuel);
    n := RunInit(w, prog, pc, st.e, d, c);
    c' := Steps(w, prog, c, n);
    var v := Eval(w, IterOf(st.e), c.state);
    if v.Err? {
      EndedFailed(prog, c, c', d, v.s, end, ctx, n, fuel);
    } else {
      var k, c2;
      if w.isObject(v.v) {
        k, c2 := SimRounds(w, prog, pc, st, d, ctx, m, fuel, v.v, c, c');
        EndedMore(prog, c, c2, d, Exec(w, st, c.state, fuel), end, ctx, k, n + k, fuel, fuel);
      } else {
        NoIterator(w, prog, pc, top, st.x, d, c, c');
        k, c2 := 1, Step(w, prog, c');
        StepsOne(w, prog, c');
        EndedFailed(prog, c, c2, d, v.s, end, ctx, n + k, fuel);
      }
      StepsAdd(w, prog, c, n, k);
      n, c' := n + k, c2;
    }
  }

  lemma NoIterator<V, S>(w: World<V, S>, prog: seq<Unit>, pc: nat, top: nat, x: string, d: nat, c0: Cfg<V, S>, c: Cfg<V, S>)
    requires d < REGIST_SIZE && AtLine(prog, top, d, true, ForNextAsm(x, d)) && LineStart(prog, top) && top < |prog|
    requires Ready(prog, c0, pc, d) && c.lreg == c0.lreg && !c.error && c.pc == Norm(prog, top)
    ensures Failed(Step(w, prog, c), c.state)
  {
    hide Step, AtLine;
    NextUnits(prog, top, x, d, c);
    StepNext(w, prog, d, c);
  }

  // ---- the theorem ----

  /** Programs the theorem speaks of: expressions and depths fit, and each `break` and `continue`
      finds its loop. */
  predicate Admissible(b: Block) {
    FitsBlock(b, 0) && OkBlock(b, 0, false, 16)
  }

  /** `c` is a frame that has stopped as outcome `out` says. */
  ghost predicate Stopped<V, S>(c: Cfg<V, S>, out: Out<S>) {
    c.pc == VM_PC_EXIT && match out
      case Normal(s) => c.state == s && !c.error
      case Halted(s, error) => c.state == s && c.error == error
      case _ => false
  }

  /** The frame after `n` instructions of the compiled program. */
  function Run<V, S>(w: World<V, S>, b: Block, s: S, n: nat): Cfg<V, S> {
    Steps(w, BlockCode(b, 0), Init(BlockCode(b, 0), s), n)
  }

  lemma TopLevel<V, S>(b: Block, s: S)
    requires Admissible(b)
    ensures BlockOk(BlockCode(b, 0), 0, b, 0, NoLoop, 16)
    ensures Ready(BlockCode(b, 0), Init<V, S>(BlockCode(b, 0), s), 0, 0)
  {
    hide FitsBlock, OkBlock, BlockCode;
  }

  /** Outcome of a whole program against the frame after `n` steps. */
  lemma SimProgram<V, S>(w: World<V, S>, b: Block, s: S, fuel: nat) returns (n: nat)
    requires Lawful(w) && Admissible(b)
    ensures var c, out := Run(w, b, s, n), ExecBlock(w, b, s, fuel);
            if out.Timeout? then n >= fuel && c.pc != VM_PC_EXIT else Stopped(c, out)
  {
    hide Step, Steps, BlockCode, BlockOk, ExecBlock, FitsBlock, OkBlock, Ready;
    var prog := BlockCode(b, 0);
    TopLevel<V, S>(b, s);
    var c := Init<V, S>(prog, s);
    var c';
    n, c' := SimBlock(w, prog, 0, b, 0, NoLoop, 16, fuel, c);
  }

  lemma {:induction false} StaysStopped<V, S>(w: World<V, S>, prog: seq<Unit>, c: Cfg<V, S>, n: nat)
    requires !(0 <= c.pc < |prog|)
    ensures Steps(w, prog, c, n) == c
    decreases n
  {
    hide Handle;
    if n > 0 {
      assert Step(w, prog, c) == c;
      StaysStopped(w, prog, c, n - 1);
    }
  }

  /** Compiler correctness. For every admissible program and every world, the virtual machine run
      on the compiled units stops if and only if the program terminates, and then in the state
      and with the error flag the big-step semantics gives; otherwise both run forever. */
  lemma CompilerCorrect<V, S>(w: World<V, S>, b: Block, s: S)
    requires Lawful(w) && Admissible(b)
    ensures forall fuel: nat :: !ExecBlock(w, b, s, fuel).Timeout? ==>
              exists n: nat :: Stopped(Run(w, b, s, n), ExecBlock(w, b, s, fuel))
    ensures (exists n: nat :: Run(w, b, s, n).pc == VM_PC_EXIT)
       <==> (exists fuel: nat :: !ExecBlock(w, b, s, fuel).Timeout?)
  {
    hide Step, Steps, BlockCode, ExecBlock, Admissible, Lawful, Init;
    forall fuel: nat | !ExecBlock(w, b, s, fuel).Timeout?
      ensures exists n: nat :: Stopped(Run(w, b, s, n), ExecBlock(w, b, s, fuel))
    {
      var n := SimProgram(w, b, s, fuel);
    }
    if n: nat :| Run(w, b, s, n).pc == VM_PC_EXIT {
      var k := SimProgram(w, b, s, n);
      if ExecBlock(w, b, s, n).Timeout? {
        StepsAdd(w, BlockCode(b, 0), Init<V, S>(BlockCode(b, 0), s), n, k - n);
        StaysStopped(w, BlockCode(b, 0), Run(w, b, s, n), k - n);
      }
    }
    if fuel: nat :| !ExecBlock(w, b, s, fuel).Timeout? {
      var n := SimProgram(w, b, s, fuel);
      assert Run(w, b, s, n).pc == VM_PC_EXIT;
    }
  }
}
