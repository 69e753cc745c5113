/** Which `break` and `continue` statements leave the loop they stand in. */
module Exits {
  import opened Bytecode
  import opened Syntax
  import opened CodeGen
  import opened Machine
  import opened ExprProof
  import opened Scans
  import opened Simulation

  // ---- the property, read off the places of the compiled statements ----

  predicate Lands(prog: seq<Unit>, pc: nat, ctx: Loop) {
    ctx.InLoop? && pc < |prog| && JmpBack(prog, pc) == Some(ctx.j)
  }

  /** Every `break` and `continue` of the statement compiled at `pc` stands in a loop, and the search of
      the VM from its unit ends at the back jump of that loop. */
  predicate LandsStmt(prog: seq<Unit>, pc: nat, st: Stmt, d: nat, ctx: Loop)
    decreases st
  {
    match st
    case Break => Lands(prog, pc, ctx)
    case Continue => Lands(prog, pc, ctx)
    case If(c, body, rest) =>
      var q := pc + |IfAsm(c)|;
      LandsBlock(prog, q, body, d + 1, ctx) && LandsRest(prog, q + |BlockCode(body, d + 1)|, rest, d, ctx)
    case While(c, body, rest) =>
      var q := pc + |WhileAsm(c)|;
      var j := q + |BlockCode(body, d + 1)|;
      LandsBlock(prog, q, body, d + 1, InLoop(q - 1, j)) && LandsRest(prog, j + 1, rest, d, ctx)
    case For(x, e, body, rest) =>
      var q := pc + |ForInitAsm(e, d)| + |ForNextAsm(x, d)|;
      var j := q + |BlockCode(body, d + 1)|;
      LandsBlock(prog, q, body, d + 1, InLoop(q - 1, j)) && LandsRest(prog, j + 2, rest, d, ctx)
    case _ => true
  }

  predicate LandsBlock(prog: seq<Unit>, pc: nat, b: Block, d: nat, ctx: Loop)
    decreases b
  {
    match b
    case BNil => true
    case BCons(head, tail) =>
      LandsStmt(prog, pc, head, d, ctx) && LandsBlock(prog, pc + |StmtCode(head, d)|, tail, d, ctx)
  }

  predicate LandsRest(prog: seq<Unit>, pc: nat, rest: Else, d: nat, ctx: Loop)
    decreases rest
  {
    match rest
    case NoElse => true
    case Else(body) => LandsBlock(prog, pc + |ELSE_ASM|, body, d + 1, ctx)
    case Elif(c, body, after) =>
      var q := pc + |ElifAsm(c)|;
      LandsBlock(prog, q, body, d + 1, ctx) && LandsRest(prog, q + |BlockCode(body, d + 1)|, after, d, ctx)
  }

  // ---- the loop tests in compiled code ----

  /** `m` is exactly the smallest block depth of a loop test in `code`, 16 when there is none. */
  ghost predicate Tests(code: seq<Unit>, m: nat) {
    && m <= 16
    && (forall u <- code :: u.ins != GER && (IsTest(u) ==> m <= u.block))
    && (m < 16 ==> exists u <- code :: IsTest(u) && u.block == m)
  }

  lemma TestsJoin(a: seq<Unit>, ma: nat, b: seq<Unit>, mb: nat)
    requires Tests(a, ma) && Tests(b, mb)
    ensures Tests(a + b, Min(ma, mb))
  {
    if ma <= mb && ma < 16 {
      var u :| u in a && IsTest(u) && u.block == ma;
      assert u in a + b;
    } else if mb < 16 {
      var u :| u in b && IsTest(u) && u.block == mb;
      assert u in a + b;
    }
  }

  /** A line without a loop test. */
  lemma TestsNone(d: nat, code: seq<Asm>)
    requires AllI(code) && forall a <- code :: a.ins != GER && (a.ins == JEZ ==> a.data == "1")
    ensures Tests(Line(d, code), 16)
  {
    hide Line;
    forall u <- Line(d, code)
      ensures u.ins != GER && !IsTest(u)
    {
      var a := UnitOfLine(d, code, u);
    }
  }

  lemma TestUnit(d: nat, nl: bool, a: Asm)
    requires a == I(0, JEZ, "2")
    ensures IsTest(Pack(d, nl, a))
  {
  }

  /** The last unit of a line. */
  lemma LastOfLine(d: nat, code: seq<Asm>)
    requires AllI(code) && code != [] && code[|code| - 1].I?
    ensures Pack(d, |code| == 1, code[|code| - 1]) in Line(d, code)
  {
    assert Line(d, code)[|code| - 1] in Line(d, code);
  }

  /** A line that ends in a loop test. */
  lemma TestsOne(d: nat, code: seq<Asm>)
    requires d < 16 && AllI(code) && (forall a <- code :: a.ins != GER)
    requires code != [] && code[|code| - 1] == I(0, JEZ, "2")
    ensures Tests(Line(d, code), d)
  {
    hide IsTest, Line;
    TestUnit(d, |code| == 1, code[|code| - 1]);
    LastOfLine(d, code);
    forall u <- Line(d, code)
      ensures u.ins != GER && u.block == d
    {
      var a := UnitOfLine(d, code, u);
    }
  }

  lemma {:induction false} TestsStmt(st: Stmt, d: nat)
    requires FitsStmt(st, d)
    ensures Tests(StmtCode(st, d), MinStmt(st, d))
    decreases st
  {
    hide Tests, StmtCode, Line;
    if st.If? || st.While? || st.For? {
      TestsBlock(st.body, d + 1);
      TestsRest(st.rest, d);
    }
    match st
    case If(_, _, _) => TestsIf(st, d);
    case While(_, _, _) => TestsWhile(st, d);
    case For(_, _, _, _) => TestsFor(st, d);
    case _ => TestsSimple(st, d);
  }

  ghost predicate TestsParts(st: Stmt, d: nat)
    requires st.If? || st.While? || st.For?
  {
    Tests(BlockCode(st.body, d + 1), MinBlock(st.body, d + 1)) && Tests(RestCode(st.rest, d), MinRest(st.rest, d))
  }

  lemma TestsSimple(st: Stmt, d: nat)
    requires FitsStmt(st, d) && !st.If? && !st.While? && !st.For?
    ensures Tests(StmtCode(st, d), 16)
  {
    hide Tests;
    if st.Do? || st.Assign? || st.Return? {
      PlainExpr(st.e, 0, false);
    }
    TestsNone(d, SimpleAsm(st));
  }

  lemma TestsIf(st: Stmt, d: nat)
    requires st.If? && FitsStmt(st, d) && TestsParts(st, d)
    ensures Tests(StmtCode(st, d), MinStmt(st, d))
  {
    hide Tests;
    var head, b := Line(d, IfAsm(st.c)), BlockCode(st.body, d + 1);
    IfTests(st.c, d);
    TestsBound(b, MinBlock(st.body, d + 1));
    TestsJoin(head, 16, b, MinBlock(st.body, d + 1));
    TestsJoin(head + b, MinBlock(st.body, d + 1), RestCode(st.rest, d), MinRest(st.rest, d));
  }

  lemma TestsWhile(st: Stmt, d: nat)
    requires st.While? && FitsStmt(st, d) && TestsParts(st, d)
    ensures Tests(StmtCode(st, d), d)
  {
    hide Tests;
    PlainExpr(st.c, 0, false);
    TestsOne(d, WhileAsm(st.c));
    TestsNone(d, BACK_ASM);
    TestsLoop(Line(d, WhileAsm(st.c)), st.body, Line(d, BACK_ASM), st.rest, d);
  }

  lemma TestsFor(st: Stmt, d: nat)
    requires st.For? && FitsStmt(st, d) && TestsParts(st, d)
    ensures Tests(StmtCode(st, d), d)
  {
    hide Tests, Line, StmtCode, ForInitAsm;
    var init, next := Line(d, ForInitAsm(st.e, d)), Line(d, ForNextAsm(st.x, d));
    var back, del := Line(d, BACK_ASM), Line(d, DelAsm(d));
    TestsForLines(st, d);
    TestsJoin(init, 16, next, d);
    TestsJoin(back, 16, del, 16);
    TestsLoop(init + next, st.body, back + del, st.rest, d);
    ForUnits(st, d);
  }

  lemma TestsForLines(st: Stmt, d: nat)
    requires st.For? && FitsStmt(st, d)
    ensures d < 16 && Tests(Line(d, ForInitAsm(st.e, d)), 16) && Tests(Line(d, ForNextAsm(st.x, d)), d)
    ensures Tests(Line(d, BACK_ASM), 16) && Tests(Line(d, DelAsm(d)), 16)
  {
    hide Tests, Line;
    PlainExpr(IterOf(st.e), 0, false);
    TestsNone(d, ForInitAsm(st.e, d));
    TestsOne(d, ForNextAsm(st.x, d));
    TestsNone(d, BACK_ASM);
    TestsNone(d, DelAsm(d));
  }

  lemma ForUnits(st: Stmt, d: nat)
    requires st.For?
    ensures StmtCode(st, d) == Line(d, ForInitAsm(st.e, d)) + Line(d, ForNextAsm(st.x, d)) + BlockCode(st.body, d + 1)
      + (Line(d, BACK_ASM) + Line(d, DelAsm(d))) + RestCode(st.rest, d)
  {
    hide Line, ForInitAsm, BlockCode, RestCode;
    var init, next, b := Line(d, ForInitAsm(st.e, d)), Line(d, ForNextAsm(st.x, d)), BlockCode(st.body, d + 1);
    var back, del := Line(d, BACK_ASM), Line(d, DelAsm(d));
    assert init + next + b + (back + del) == init + next + b + back + del;
  }

  lemma TestsLoop(head: seq<Unit>, body: Block, back: seq<Unit>, rest: Else, d: nat)
    requires d < 16 && Tests(head, d) && Tests(back, 16)
    requires FitsBlock(body, d + 1) && FitsRest(rest, d)
    requires Tests(BlockCode(body, d + 1), MinBlock(body, d + 1)) && Tests(RestCode(rest, d), MinRest(rest, d))
    ensures Tests(head + BlockCode(body, d + 1) + back + RestCode(rest, d), d)
  {
    hide Tests;
    Deep(body, d + 1);
    DeepRest(rest, d);
    var b, r := BlockCode(body, d + 1), RestCode(rest, d);
    TestsBound(head, d);
    TestsJoin(head, d, b, MinBlock(body, d + 1));
    TestsJoin(head + b, d, back, 16);
    TestsJoin(head + b + back, d, r, MinRest(rest, d));
  }

  lemma TestsBound(code: seq<Unit>, m: nat)
    requires Tests(code, m)
    ensures m <= 16
  {
  }

  lemma {:induction false} Deep(b: Block, d: nat)
    requires FitsBlock(b, d) && d <= 16
    ensures d <= MinBlock(b, d)
    decreases b
  {
    match b
    case BNil =>
    case BCons(head, tail) =>
      Deep(tail, d);
      match head
      case If(_, body, rest) =>
        Deep(body, d + 1);
        DeepRest(rest, d);
      case _ =>
  }

  lemma {:induction false} DeepRest(rest: Else, d: nat)
    requires FitsRest(rest, d) && d <= 15
    ensures d <= MinRest(rest, d)
    decreases rest
  {
    match rest
    case NoElse =>
    case Else(body) => Deep(body, d + 1);
    case Elif(_, body, after) =>
      Deep(body, d + 1);
      DeepRest(after, d);
  }

  lemma {:induction false} TestsBlock(b: Block, d: nat)
    requires FitsBlock(b, d)
    ensures Tests(BlockCode(b, d), MinBlock(b, d))
    decreases b
  {
    match b
    case BNil =>
    case BCons(head, tail) =>
      TestsStmt(head, d);
      TestsBlock(tail, d);
      TestsJoin(StmtCode(head, d), MinStmt(head, d), BlockCode(tail, d), MinBlock(tail, d));
  }

  lemma {:induction false} TestsRest(rest: Else, d: nat)
    requires FitsRest(rest, d)
    ensures Tests(RestCode(rest, d), MinRest(rest, d))
    decreases rest
  {
    match rest
    case NoElse =>
    case Else(body) =>
      TestsNone(d, ELSE_ASM);
      TestsBlock(body, d + 1);
      TestsJoin(Line(d, ELSE_ASM), 16, BlockCode(body, d + 1), MinBlock(body, d + 1));
    case Elif(c, body, after) =>
      PlainExpr(c, 0, false);
      TestsNone(d, ElifAsm(c));
      TestsBlock(body, d + 1);
      TestsRest(after, d);
      TestsJoin(Line(d, ElifAsm(c)), 16, BlockCode(body, d + 1), MinBlock(body, d + 1));
      TestsJoin(Line(d, ElifAsm(c)) + BlockCode(body, d + 1), MinBlock(body, d + 1), RestCode(after, d), MinRest(after, d));
  }

  // ---- the condition on programs is exact ----

  /** The code from `lo` to `hi` stands in the body of the innermost loop `ctx`, where `m` is the smallest depth
      of the loop tests met so far. */
  ghost predicate Around(prog: seq<Unit>, ctx: Loop, lo: nat, hi: nat, d: nat, m: nat) {
    && m <= 16
    && (ctx.InLoop? ==>
         && IsLoop(prog, ctx.h, ctx.j) && ctx.h < lo <= hi <= ctx.j && prog[ctx.h].block < d
         && Tests(prog[ctx.h + 1..lo], m))
  }

  /** Past a piece of code. */
  lemma AroundPast(prog: seq<Unit>, ctx: Loop, lo: nat, a: seq<Unit>, ma: nat, mid: nat, hi: nat, d: nat, e: nat, m: nat)
    requires At(prog, lo, a) && Tests(a, ma) && d <= e
    requires Around(prog, ctx, lo, hi, d, m) && lo + |a| <= mid <= hi
    ensures Around(prog, ctx, lo + |a|, mid, e, Min(m, ma))
  {
    hide IsLoop;
    TestsBound(a, ma);
    if ctx.InLoop? {
      TestsJoin(prog[ctx.h + 1..lo], m, a, ma);
      assert prog[lo..lo + |a|] == a;
      assert prog[ctx.h + 1..lo + |a|] == prog[ctx.h + 1..lo] + a;
    }
  }

  /** A test in a piece of code without `GER` is a loop test. */
  lemma TestsAt(prog: seq<Unit>, h: nat, pc: nat, m: nat, d: nat)
    requires h < pc <= |prog| && IsTest(prog[h]) && Tests(prog[h + 1..pc], m) && d < 16
    ensures (forall x :: h < x < pc && IsLoopTest(prog, x) ==> prog[x].block >= d) <==> d <= m
  {
    hide IsTest;
    var before := prog[h + 1..pc];
    NotGer(prog[h]);
    assert forall x :: h < x < pc ==> prog[x] == before[x - h - 1] && prog[x] in before;
    if m < 16 {
      var u :| u in before && IsTest(u) && u.block == m;
      var i :| 0 <= i < |before| && before[i] == u;
      assert IsLoopTest(prog, h + 1 + i);
    }
  }

  lemma NotGer(u: Unit)
    requires IsTest(u)
    ensures u.ins != GER
  {
  }

  /** One `break` or `continue`. */
  lemma ExactLeave(prog: seq<Unit>, pc: nat, d: nat, ctx: Loop, m: nat)
    requires pc < |prog| && prog[pc].block == d < 16 && Around(prog, ctx, pc, pc + 1, d, m)
    ensures Lands(prog, pc, ctx) <==> ctx.InLoop? && d <= m
  {
    hide Tests, JmpBack, IsTest;
    if ctx.InLoop? {
      JmpBackIff(prog, ctx.h, pc, ctx.j);
      TestsAt(prog, ctx.h, pc, m, d);
    }
  }

  /** A body behind a line without loop test, and the rest behind the body. */
  lemma AroundBranch(prog: seq<Unit>, pc: nat, head: seq<Asm>, body: Block, rest: Else, d: nat, ctx: Loop, m: nat)
    requires AllI(head) && Tests(Line(d, head), 16) && FitsBlock(body, d + 1)
    requires At(prog, pc, Line(d, head) + BlockCode(body, d + 1) + RestCode(rest, d))
    requires Around(prog, ctx, pc, pc + |Line(d, head) + BlockCode(body, d + 1) + RestCode(rest, d)|, d, m)
    ensures var q := pc + |head|; var e := q + |BlockCode(body, d + 1)|;
      && At(prog, q, BlockCode(body, d + 1)) && Around(prog, ctx, q, e, d + 1, m)
      && At(prog, e, RestCode(rest, d)) && Around(prog, ctx, e, e + |RestCode(rest, d)|, d, Min(m, MinBlock(body, d + 1)))
  {
    hide At, Around, Tests, Line, BlockCode, RestCode, MinBlock;
    var h, b, r := Line(d, head), BlockCode(body, d + 1), RestCode(rest, d);
    AtSplit(prog, pc, h + b, r);
    AtSplit(prog, pc, h, b);
    LineLength(d, head);
    TestsBlock(body, d + 1);
    AroundBound(prog, ctx, pc, pc + |h + b + r|, d, m);
    AroundPast(prog, ctx, pc, h, 16, pc + |h| + |b|, pc + |h + b + r|, d, d + 1, m);
    AroundPast(prog, ctx, pc, h, 16, pc + |h + b + r|, pc + |h + b + r|, d, d, m);
    AroundPast(prog, ctx, pc + |h|, b, MinBlock(body, d + 1), pc + |h + b + r|, pc + |h + b + r|, d, d, m);
  }

  lemma AroundBound(prog: seq<Unit>, ctx: Loop, lo: nat, hi: nat, d: nat, m: nat)
    requires Around(prog, ctx, lo, hi, d, m)
    ensures m <= 16
  {
  }

  /** Lines that end in the test of a loop at depth `d`. */
  predicate LoopHead(head: seq<Unit>, d: nat) {
    |head| >= 2 && IsTest(head[|head| - 1]) && head[|head| - 2].ins != GER && head[|head| - 1].block == d
  }

  /** Lines that begin with the back jump of a loop at depth `d`. */
  predicate LoopTail(tail: seq<Unit>, d: nat) {
    tail != [] && IsBack(tail[0]) && tail[0].newLine && tail[0].block == d
  }

  lemma WhileLines(st: Stmt, d: nat)
    requires st.While? && FitsStmt(st, d)
    ensures d < 15 && FitsBlock(st.body, d + 1)
    ensures Tests(Line(d, WhileAsm(st.c)), d) && LoopHead(Line(d, WhileAsm(st.c)), d)
    ensures Tests(Line(d, BACK_ASM), 16) && LoopTail(Line(d, BACK_ASM), d)
  {
    hide Tests, LoopHead, LoopTail, Plain, Line;
    PlainExpr(st.c, 0, false);
    WhileHead(st.c, d);
    BackLine(d);
  }

  lemma BackLine(d: nat)
    requires d < 16
    ensures Tests(Line(d, BACK_ASM), 16) && LoopTail(Line(d, BACK_ASM), d)
  {
    hide Tests;
    TestsNone(d, BACK_ASM);
  }

  lemma WhileHead(c: Expr, d: nat)
    requires d < 16 && Plain(ExprAsm(c, 0))
    ensures Tests(Line(d, WhileAsm(c)), d) && LoopHead(Line(d, WhileAsm(c)), d)
  {
    hide Tests, LoopHead, ExprAsm, Line;
    var e, head := ExprAsm(c, 0), WhileAsm(c);
    assert forall a <- head :: a in e || a == I(0, JEZ, "2");
    TestsOne(d, head);
    assert head[|head| - 2] == e[|e| - 1] && e[|e| - 1] in e;
    LoopHeadLine(d, head);
  }

  lemma LoopHeadLine(d: nat, head: seq<Asm>)
    requires d < 16 && AllI(head) && |head| >= 2 && head[|head| - 1] == I(0, JEZ, "2")
    requires head[|head| - 2] in head && head[|head| - 2].ins != GER
    ensures LoopHead(Line(d, head), d)
  {
    hide IsTest;
    TestUnit(d, false, head[|head| - 1]);
  }

  lemma ForHeads(st: Stmt, d: nat)
    requires st.For? && FitsStmt(st, d)
    ensures d < 15 && FitsBlock(st.body, d + 1)
    ensures LoopHead(Line(d, ForInitAsm(st.e, d)) + Line(d, ForNextAsm(st.x, d)), d)
    ensures LoopTail(Line(d, BACK_ASM) + Line(d, DelAsm(d)), d)
  {
    hide ForInitAsm;
  }

  /** The body of a loop whose lines are `head`, and the rest behind its closing lines. */
  lemma AroundLoop(prog: seq<Unit>, pc: nat, head: seq<Unit>, body: Block, tail: seq<Unit>, rest: Else, d: nat, ctx: Loop, m: nat)
    requires d < 15 && Tests(head, d) && Tests(tail, 16) && FitsBlock(body, d + 1)
    requires LoopHead(head, d) && LoopTail(tail, d)
    requires At(prog, pc, head + BlockCode(body, d + 1) + tail + RestCode(rest, d))
    requires Around(prog, ctx, pc, pc + |head + BlockCode(body, d + 1) + tail + RestCode(rest, d)|, d, m)
    ensures var q := pc + |head|; var j := q + |BlockCode(body, d + 1)|; var e := j + |tail|;
      && At(prog, q, BlockCode(body, d + 1)) && Around(prog, InLoop(q - 1, j), q, j, d + 1, 16)
      && At(prog, e, RestCode(rest, d)) && Around(prog, ctx, e, e + |RestCode(rest, d)|, d, Min(m, d))
  {
    hide At, Around, Tests, BlockCode, RestCode, LoopHead, LoopTail;
    var b, r := BlockCode(body, d + 1), RestCode(rest, d);
    AtSplit(prog, pc, head + b + tail, r);
    AtSplit(prog, pc, head + b, tail);
    AtSplit(prog, pc, head, b);
    LoopAt(prog, pc, head, body, tail, d);
    TestsBlock(body, d + 1);
    Deep(body, d + 1);
    AroundBound(prog, ctx, pc, pc + |head + b + tail + r|, d, m);
    TestsJoin(head, d, b, MinBlock(body, d + 1));
    TestsJoin(head + b, d, tail, 16);
    AroundPast(prog, ctx, pc, head + b + tail, d, pc + |head + b + tail + r|, pc + |head + b + tail + r|, d, d, m);
  }

  lemma LoopAt(prog: seq<Unit>, pc: nat, head: seq<Unit>, body: Block, tail: seq<Unit>, d: nat)
    requires FitsBlock(body, d + 1)
    requires LoopHead(head, d) && LoopTail(tail, d)
    requires At(prog, pc, head + BlockCode(body, d + 1) + tail)
    ensures var q := pc + |head|; var j := q + |BlockCode(body, d + 1)|;
      Around(prog, InLoop(q - 1, j), q, j, d + 1, 16)
  {
    hide At, BlockCode, IsTest, IsBack, Good;
    var b := BlockCode(body, d + 1);
    assert tail == [tail[0]] + tail[1..];
    assert head + b + tail == (head + b + [tail[0]]) + tail[1..];
    AtSplit(prog, pc, head + b + [tail[0]], tail[1..]);
    GoodBlock(body, d + 1);
    LayoutLoop(prog, pc, head, b, tail[0], d, MinBlock(body, d + 1));
    var q := pc + |head|;
    assert prog[q..q] == [];
  }

  ghost predicate Placed(prog: seq<Unit>, pc: nat, code: seq<Unit>, ctx: Loop, d: nat, m: nat) {
    At(prog, pc, code) && Around(prog, ctx, pc, pc + |code|, d, m)
  }

  lemma {:induction false} ExactStmt(prog: seq<Unit>, pc: nat, st: Stmt, d: nat, ctx: Loop, m: nat)
    requires FitsStmt(st, d) && Placed(prog, pc, StmtCode(st, d), ctx, d, m)
    ensures OkStmt(st, d, ctx.InLoop?, m) <==> LandsStmt(prog, pc, st, d, ctx)
    decreases st, 0
  {
    hide Placed, StmtCode, Around, At, IfAsm, ForInitAsm, BlockCode, RestCode, MinBlock, Lands;
    hide FitsExpr, FitsBlock, FitsRest, OkBlock, OkRest, LandsBlock, LandsRest;
    match st
    case If(c, body, rest) =>
      PlaceIf(prog, pc, st, d, ctx, m);
      ExactBlock(prog, pc + |IfAsm(c)|, body, d + 1, ctx, m);
      ExactRest(prog, pc + |IfAsm(c)| + |BlockCode(body, d + 1)|, rest, d, ctx, Min(m, MinBlock(body, d + 1)));
    case While(c, body, rest) =>
      PlaceWhile(prog, pc, st, d, ctx, m);
      var q := pc + |WhileAsm(c)|;
      var j := q + |BlockCode(body, d + 1)|;
      ExactBlock(prog, q, body, d + 1, InLoop(q - 1, j), 16);
      ExactRest(prog, j + 1, rest, d, ctx, Min(m, d));
    case For(x, e, body, rest) =>
      PlaceFor(prog, pc, st, d, ctx, m);
      var q := pc + |ForInitAsm(e, d)| + |ForNextAsm(x, d)|;
      var j := q + |BlockCode(body, d + 1)|;
      ExactBlock(prog, q, body, d + 1, InLoop(q - 1, j), 16);
      ExactRest(prog, j + 2, rest, d, ctx, Min(m, d));
    case _ =>
      if st.Break? || st.Continue? {
        PlaceLeave(prog, pc, st, d, ctx, m);
        ExactLeave(prog, pc, d, ctx, m);
      }
  }

  lemma {:induction false} ExactBlock(prog: seq<Unit>, pc: nat, b: Block, d: nat, ctx: Loop, m: nat)
    requires FitsBlock(b, d) && Placed(prog, pc, BlockCode(b, d), ctx, d, m)
    ensures OkBlock(b, d, ctx.InLoop?, m) <==> LandsBlock(prog, pc, b, d, ctx)
    decreases b, 0
  {
    hide Placed;
    match b
    case BNil =>
    case BCons(head, tail) =>
      PlaceCons(prog, pc, b, d, ctx, m);
      ExactStmt(prog, pc, head, d, ctx, m);
      ExactBlock(prog, pc + |StmtCode(head, d)|, tail, d, ctx, Min(m, MinStmt(head, d)));
  }

  lemma {:induction false} ExactRest(prog: seq<Unit>, pc: nat, rest: Else, d: nat, ctx: Loop, m: nat)
    requires FitsRest(rest, d) && Placed(prog, pc, RestCode(rest, d), ctx, d, m)
    ensures OkRest(rest, d, ctx.InLoop?, m) <==> LandsRest(prog, pc, rest, d, ctx)
    decreases rest, 0
  {
    hide Placed, BlockCode, RestCode, MinBlock, FitsExpr, FitsBlock, OkBlock, LandsBlock, ElifAsm;
    match rest
    case NoElse =>
    case Else(body) =>
      PlaceElse(prog, pc, body, d, ctx, m);
      ExactBlock(prog, pc + |ELSE_ASM|, body, d + 1, ctx, m);
    case Elif(c, body, after) =>
      PlaceElif(prog, pc, rest, d, ctx, m);
      ExactBlock(prog, pc + |ElifAsm(c)|, body, d + 1, ctx, m);
      ExactRest(prog, pc + |ElifAsm(c)| + |BlockCode(body, d + 1)|, after, d, ctx, Min(m, MinBlock(body, d + 1)));
  }

  // ---- where the parts stand ----

  lemma PlaceLeave(prog: seq<Unit>, pc: nat, st: Stmt, d: nat, ctx: Loop, m: nat)
    requires (st.Break? || st.Continue?) && FitsStmt(st, d) && Placed(prog, pc, StmtCode(st, d), ctx, d, m)
    ensures pc < |prog| && prog[pc].block == d < 16 && Around(prog, ctx, pc, pc + 1, d, m)
  {
    hide Around;
    assert prog[pc + 0] == StmtCode(st, d)[0];
  }

  lemma PlaceCons(prog: seq<Unit>, pc: nat, b: Block, d: nat, ctx: Loop, m: nat)
    requires b.BCons? && FitsBlock(b, d) && Placed(prog, pc, BlockCode(b, d), ctx, d, m)
    ensures Placed(prog, pc, StmtCode(b.head, d), ctx, d, m)
    ensures Placed(prog, pc + |StmtCode(b.head, d)|, BlockCode(b.tail, d), ctx, d, Min(m, MinStmt(b.head, d)))
  {
    hide At, Tests, StmtCode, MinStmt;
    var a, t := StmtCode(b.head, d), BlockCode(b.tail, d);
    AtSplit(prog, pc, a, t);
    TestsStmt(b.head, d);
    AroundPast(prog, ctx, pc, a, MinStmt(b.head, d), pc + |a + t|, pc + |a + t|, d, d, m);
  }

  lemma PlaceIf(prog: seq<Unit>, pc: nat, st: Stmt, d: nat, ctx: Loop, m: nat)
    requires st.If? && FitsStmt(st, d) && Placed(prog, pc, StmtCode(st, d), ctx, d, m)
    ensures var q := pc + |IfAsm(st.c)|;
      && Placed(prog, q, BlockCode(st.body, d + 1), ctx, d + 1, m)
      && Placed(prog, q + |BlockCode(st.body, d + 1)|, RestCode(st.rest, d), ctx, d, Min(m, MinBlock(st.body, d + 1)))
  {
    hide At, Tests, Line, Around, BlockCode, RestCode, FitsBlock, FitsExpr, MinBlock, IfAsm;
    IfTests(st.c, d);
    AroundBranch(prog, pc, IfAsm(st.c), st.body, st.rest, d, ctx, m);
  }

  lemma PlaceElse(prog: seq<Unit>, pc: nat, body: Block, d: nat, ctx: Loop, m: nat)
    requires FitsBlock(body, d + 1) && Placed(prog, pc, RestCode(Else(body), d), ctx, d, m)
    ensures Placed(prog, pc + |ELSE_ASM|, BlockCode(body, d + 1), ctx, d + 1, m)
  {
    hide At, Tests, Around, BlockCode, FitsBlock, MinBlock;
    TestsNone(d, ELSE_ASM);
    var code := Line(d, ELSE_ASM) + BlockCode(body, d + 1);
    assert code + RestCode(NoElse, d) == code;
    AroundBranch(prog, pc, ELSE_ASM, body, NoElse, d, ctx, m);
  }

  lemma IfTests(c: Expr, d: nat)
    requires FitsExpr(c, 0)
    ensures Tests(Line(d, IfAsm(c)), 16)
  {
    hide Tests;
    PlainExpr(c, 0, false);
    TestsNone(d, IfAsm(c));
  }

  lemma ElifTests(c: Expr, d: nat)
    requires FitsExpr(c, 0)
    ensures Tests(Line(d, ElifAsm(c)), 16)
  {
    hide Tests;
    PlainExpr(c, 0, false);
    TestsNone(d, ElifAsm(c));
  }

  lemma PlaceElif(prog: seq<Unit>, pc: nat, rest: Else, d: nat, ctx: Loop, m: nat)
    requires rest.Elif? && FitsRest(rest, d) && Placed(prog, pc, RestCode(rest, d), ctx, d, m)
    ensures var q := pc + |ElifAsm(rest.c)|;
      && Placed(prog, q, BlockCode(rest.body, d + 1), ctx, d + 1, m)
      && Placed(prog, q + |BlockCode(rest.body, d + 1)|, RestCode(rest.rest, d), ctx, d, Min(m, MinBlock(rest.body, d + 1)))
  {
    hide At, Tests, Line, Around, BlockCode, FitsBlock, FitsExpr, MinBlock, ElifAsm;
    ElifTests(rest.c, d);
    AroundBranch(prog, pc, ElifAsm(rest.c), rest.body, rest.rest, d, ctx, m);
  }

  lemma PlaceWhile(prog: seq<Unit>, pc: nat, st: Stmt, d: nat, ctx: Loop, m: nat)
    requires st.While? && FitsStmt(st, d) && Placed(prog, pc, StmtCode(st, d), ctx, d, m)
    ensures var q := pc + |WhileAsm(st.c)|; var j := q + |BlockCode(st.body, d + 1)|;
      && Placed(prog, q, BlockCode(st.body, d + 1), InLoop(q - 1, j), d + 1, 16)
      && Placed(prog, j + 1, RestCode(st.rest, d), ctx, d, Min(m, d))
  {
    hide At, Tests, Around, BlockCode, RestCode, LoopHead, LoopTail, WhileAsm, Line, FitsStmt, FitsBlock;
    WhileLines(st, d);
    LineLength(d, WhileAsm(st.c));
    LineLength(d, BACK_ASM);
    AroundLoop(prog, pc, Line(d, WhileAsm(st.c)), st.body, Line(d, BACK_ASM), st.rest, d, ctx, m);
  }

  lemma PlaceFor(prog: seq<Unit>, pc: nat, st: Stmt, d: nat, ctx: Loop, m: nat)
    requires st.For? && FitsStmt(st, d) && Placed(prog, pc, StmtCode(st, d), ctx, d, m)
    ensures var q := pc + |ForInitAsm(st.e, d)| + |ForNextAsm(st.x, d)|; var j := q + |BlockCode(st.body, d + 1)|;
      && Placed(prog, q, BlockCode(st.body, d + 1), InLoop(q - 1, j), d + 1, 16)
      && Placed(prog, j + 2, RestCode(st.rest, d), ctx, d, Min(m, d))
  {
    hide At, Tests, Around, BlockCode, RestCode, StmtCode, ForInitAsm, LoopHead, LoopTail, Line, FitsStmt, FitsBlock;
    var init, next := Line(d, ForInitAsm(st.e, d)), Line(d, ForNextAsm(st.x, d));
    var back, del := Line(d, BACK_ASM), Line(d, DelAsm(d));
    TestsForLines(st, d);
    ForHeads(st, d);
    TestsJoin(init, 16, next, d);
    TestsJoin(back, 16, del, 16);
    ForUnits(st, d);
    LineLength(d, ForInitAsm(st.e, d));
    LineLength(d, ForNextAsm(st.x, d));
    LineLength(d, BACK_ASM);
    LineLength(d, DelAsm(d));
    AroundLoop(prog, pc, init + next, st.body, back + del, st.rest, d, ctx, m);
  }

  /** The static condition under which `CompilerCorrect` speaks of a program is exact: it holds if and only if
      every `break` and `continue` of the program resolves to the loop it stands in. */
  lemma BreaksLandIff(b: Block)
    requires FitsBlock(b, 0)
    ensures OkBlock(b, 0, false, 16) <==> LandsBlock(BlockCode(b, 0), 0, b, 0, NoLoop)
  {
    hide FitsBlock, OkBlock, LandsBlock, BlockCode;
    ExactBlock(BlockCode(b, 0), 0, b, 0, NoLoop, 16);
  }

  const NAME: Expr := Node(REF, "c", ENil)
  const INNER: Stmt := While(NAME, BCons(Pass, BNil), NoElse)
  const LEAVE: Stmt := If(NAME, BCons(Break, BNil), NoElse)

  /** `while c: { while c: pass; if c: break }`: the finished inner loop hides the outer one from the `break`. */
  const HIDDEN_LOOP: Block := BCons(While(NAME, BCons(INNER, BCons(LEAVE, BNil)), NoElse), BNil)

  lemma HiddenFits()
    ensures FitsStmt(INNER, 1) && FitsStmt(LEAVE, 1) && FitsBlock(HIDDEN_LOOP, 0)
  {
    assert FitsStmt(INNER, 1);
    assert FitsStmt(LEAVE, 1);
  }

  lemma BreakLost()
    ensures FitsBlock(HIDDEN_LOOP, 0) && !OkBlock(HIDDEN_LOOP, 0, false, 16)
    ensures !LandsBlock(BlockCode(HIDDEN_LOOP, 0), 0, HIDDEN_LOOP, 0, NoLoop)
  {
    hide FitsBlock, LandsBlock, BlockCode;
    HiddenFits();
    assert MinStmt(INNER, 1) == 1;
    assert !OkBlock(LEAVE.body, 2, true, 1);
    assert !OkStmt(LEAVE, 1, true, 1);
    BreaksLandIff(HIDDEN_LOOP);
  }
}
