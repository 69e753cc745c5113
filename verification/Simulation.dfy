/** The virtual machine, run on compiled code, does what the big-step semantics says. */
module Simulation {
  import opened Bytecode
  import opened Syntax
  import opened Semantics
  import opened CodeGen
  import opened Machine
  import opened ExprProof
  import opened Scans
  import opened Stepping

  // ---- static conditions ----

  /** Every `break` and `continue` is inside a loop, and no loop of that loop's body that starts
      before it (in program order) is at a smaller depth than the `break` itself. `m` is the
      smallest depth of the loops met so far in the body of the innermost loop. */
  predicate OkStmt(st: Stmt, d: nat, loop: bool, m: nat) {
    match st
    case Break => loop && d <= m
    case Continue => loop && d <= m
    case If(_, body, rest) => OkBlock(body, d + 1, loop, m) && OkRest(rest, d, loop, Min(m, MinBlock(body, d + 1)))
    case While(_, body, rest) => OkBlock(body, d + 1, true, 16) && OkRest(rest, d, loop, Min(m, d))
    case For(_, _, body, rest) => OkBlock(body, d + 1, true, 16) && OkRest(rest, d, loop, Min(m, d))
    case _ => true
  }

  predicate OkBlock(b: Block, d: nat, loop: bool, m: nat) {
    match b
    case BNil => true
    case BCons(head, tail) => OkStmt(head, d, loop, m) && OkBlock(tail, d, loop, Min(m, MinStmt(head, d)))
  }

  predicate OkRest(r: Else, d: nat, loop: bool, m: nat) {
    match r
    case NoElse => true
    case Else(body) => OkBlock(body, d + 1, loop, m)
    case Elif(_, body, rest) =>
      OkBlock(body, d + 1, loop, m) && OkRest(rest, d, loop, Min(m, MinBlock(body, d + 1)))
  }

  // ---- placement of code ----

  /** The innermost loop around a piece of code: the positions of its test and back jump. */
  datatype Loop = NoLoop | InLoop(h: nat, j: nat)

  predicate InCtx(prog: seq<Unit>, ctx: Loop, lo: nat, hi: nat, d: nat, m: nat) {
    ctx.InLoop? ==>
      && IsLoop(prog, ctx.h, ctx.j) && ctx.h < lo <= hi <= ctx.j && prog[ctx.h].block < d
      && forall x :: ctx.h < x < lo && IsTest(prog[x]) ==> prog[x].block >= m
  }

  predicate LineStart(prog: seq<Unit>, pc: nat) {
    pc <= |prog| && (pc == 0 || prog[pc - 1].invoke == 0)
  }

  /** `code`, compiled at block depth `d`, stands in `prog` at `pc` between two line starts. */
  predicate Layout(prog: seq<Unit>, pc: nat, code: seq<Unit>, d: nat, ctx: Loop, m: nat) {
    At(prog, pc, code) && Boundary(prog, pc + |code|, d) && LineStart(prog, pc)
    && InCtx(prog, ctx, pc, pc + |code|, d, m)
  }

  lemma AtGood(prog: seq<Unit>, pc: nat, code: seq<Unit>, d: nat, m: nat)
    requires At(prog, pc, code) && Good(code, d, m)
    ensures forall x :: pc <= x < pc + |code| ==> prog[x].block >= d && (IsTest(prog[x]) ==> prog[x].block >= m)
    ensures code != [] ==> prog[pc].newLine && prog[pc].block == d && prog[pc + |code| - 1].invoke == 0
  {
    forall x | pc <= x < pc + |code|
      ensures prog[x].block >= d && (IsTest(prog[x]) ==> prog[x].block >= m)
    {
      assert prog[pc + (x - pc)] == code[x - pc];
    }
    if code != [] {
      assert prog[pc + 0] == code[0] && prog[pc + (|code| - 1)] == code[|code| - 1];
    }
  }

  /** Two constructs in a row at the same depth. */
  lemma LayoutJoin(prog: seq<Unit>, pc: nat, a: seq<Unit>, b: seq<Unit>, d: nat, ctx: Loop, m: nat, ma: nat, mb: nat)
    requires Layout(prog, pc, a + b, d, ctx, m) && Good(a, d, ma) && Good(b, d, mb)
    ensures Layout(prog, pc, a, d, ctx, m) && Layout(prog, pc + |a|, b, d, ctx, Min(m, ma))
  {
    hide At, Good, IsLoop, IsTest;
    AtSplit(prog, pc, a, b);
    AtGood(prog, pc, a, d, ma);
    AtGood(prog, pc + |a|, b, d, mb);
  }

  /** The body of an `if`, `elif` or `else` line. */
  lemma LayoutBody(prog: seq<Unit>, pc: nat, head: seq<Unit>, body: seq<Unit>, d: nat, ctx: Loop, m: nat, mb: nat)
    requires Layout(prog, pc, head + body, d, ctx, m) && Good(head, d, 16) && head != [] && Good(body, d + 1, mb)
    requires m <= 16
    ensures At(prog, pc, head) && Layout(prog, pc + |head|, body, d + 1, ctx, m)
  {
    hide At, Good, IsLoop, IsTest;
    AtSplit(prog, pc, head, body);
    AtGood(prog, pc, head, d, 16);
    AtGood(prog, pc + |head|, body, d + 1, mb);
  }

  /** The body of a loop whose test is the last unit of `head`. */
  lemma LayoutLoop(prog: seq<Unit>, pc: nat, head: seq<Unit>, body: seq<Unit>, back: Unit, d: nat, mb: nat)
    requires At(prog, pc, head + body + [back]) && Good(body, d + 1, mb)
    requires |head| >= 2 && IsTest(head[|head| - 1]) && head[|head| - 2].ins != GER
    requires head[|head| - 1].block == d && IsBack(back) && back.newLine && back.block == d
    ensures var h, j := pc + |head| - 1, pc + |head| + |body|;
            IsLoop(prog, h, j) && prog[j] == back && prog[h].block == d
            && Layout(prog, h + 1, body, d + 1, InLoop(h, j), 16)
  {
    AtSplit(prog, pc, head + body, [back]);
    AtSplit(prog, pc, head, body);
    AtGood(prog, pc + |head|, body, d + 1, mb);
    assert prog[pc + (|head| - 1)] == head[|head| - 1] && prog[pc + (|head| - 2)] == head[|head| - 2];
    assert prog[pc + |head + body| + 0] == [back][0];
  }

  // ---- frames between statements ----

  /** `c` is about to run the code at `pc`, compiled at block depth `d`. */
  predicate Ready<V, S>(prog: seq<Unit>, c: Cfg<V, S>, pc: nat, d: nat) {
    && c.pc == Norm(prog, pc) && !c.error
    && |c.ireg| == REGIST_SIZE && |c.lreg| == REGIST_SIZE && Clear(c, 0)
    && forall k :: d <= k < REGIST_SIZE ==> c.lreg[k] == None
  }

  /** Running code at block depth `d` leaves the registers of the enclosing blocks alone. */
  ghost predicate Kept<V, S>(c: Cfg<V, S>, c': Cfg<V, S>, d: nat) {
    && c'.lreg == c.lreg && c'.oreg == c.oreg && |c'.ireg| == |c.ireg| && !c'.error
    && forall k :: 0 <= k < d && k < |c.ireg| ==> c'.ireg[k] == c.ireg[k]
  }

  /** After `n` steps from `c` the frame `c'` agrees with outcome `out` of code that ends at `end`. */
  ghost predicate Ended<V, S>(prog: seq<Unit>, c: Cfg<V, S>, c': Cfg<V, S>, d: nat, out: Out<S>, end: nat,
                              ctx: Loop, n: nat, fuel: nat) {
    match out
    case Normal(s) => Kept(c, c', d) && c'.state == s && c'.pc == Norm(prog, end)
    case Broke(s) => ctx.InLoop? && Kept(c, c', d) && c'.state == s && c'.pc == Norm(prog, ctx.j + 1)
    case Continued(s) => ctx.InLoop? && Kept(c, c', d) && c'.state == s && c'.pc == ctx.j
    case Halted(s, error) => c'.pc == VM_PC_EXIT && c'.state == s && c'.error == error
    case Timeout => n >= fuel && 0 <= c'.pc < |prog|
  }

  /** Outcomes after a first part that ran to its end. */
  lemma EndedAfter<V, S>(prog: seq<Unit>, c: Cfg<V, S>, c1: Cfg<V, S>, c2: Cfg<V, S>, d: nat, e: nat, out: Out<S>,
                         end: nat, ctx: Loop, n: nat, m: nat, left: nat, fuel: nat)
    requires Kept(c, c1, d) && Ended(prog, c1, c2, e, out, end, ctx, m, left) && d <= e && fuel <= n + left
    ensures Ended(prog, c, c2, d, out, end, ctx, n + m, fuel)
  {
  }

  // ---- statements without a block ----

  lemma LineAt(prog: seq<Unit>, pc: nat, d: nat, code: seq<Asm>)
    requires AllI(code) && At(prog, pc, Line(d, code))
    ensures AtLine(prog, pc, d, true, code)
  {
    forall i | 0 <= i < |code|
      ensures code[i].I? && prog[pc + i] == Pack(d, i == 0, code[i])
    {
      assert code[i] in code && prog[pc + i] == Line(d, code)[i];
    }
  }

  /** An expression at the start of a line, followed by one more instruction of that line. */
  lemma RunHead<V, S>(w: World<V, S>, prog: seq<Unit>, pc: nat, d: nat, nl: bool, e: Expr, a: Asm, c: Cfg<V, S>)
    returns (n: nat)
    requires d < 16 && FitsExpr(e, 0) && a.I? && a.invoke == 0
    requires AtLine(prog, pc, d, nl, ExprAsm(e, 0) + [a])
    requires pc == 0 || prog[pc - 1].invoke == 0
    requires c.pc == pc && !c.error && Clear(c, 0)
    ensures n > 0
    ensures Computed(Fresh(c, nl), 0, Eval(w, e, c.state), pc + |ExprAsm(e, 0)|, Steps(w, prog, c, n))
    ensures Eval(w, e, c.state).Ok? ==> On(prog, Steps(w, prog, c, n), d, false, a)
  {
    hide Step, Steps, AtLine;
    AtLineSplit(prog, pc, d, nl, ExprAsm(e, 0), [a]);
    AtUnit(prog, pc + |ExprAsm(e, 0)|, d, false, a);
    n := RunExpr(w, prog, pc, d, nl, e, 0, false, c);
  }

  lemma SimDo<V, S>(w: World<V, S>, prog: seq<Unit>, pc: nat, st: Stmt, d: nat, ctx: Loop, fuel: nat, c: Cfg<V, S>)
    returns (n: nat)
    requires st.Do? && FitsStmt(st, d) && At(prog, pc, StmtCode(st, d)) && LineStart(prog, pc)
    requires Ready(prog, c, pc, d)
    ensures Ended(prog, c, Steps(w, prog, c, n), d, Exec(w, st, c.state, fuel), pc + |StmtCode(st, d)|, ctx, n, fuel)
  {
    hide *;
    DoUnits(st, d);
    LineAt(prog, pc, d, ExprAsm(st.e, 0));
    ReadyAt(prog, c, pc, d, ExprAsm(st.e, 0));
    n := RunExpr(w, prog, pc, d, true, st.e, 0, false, c);
    DoneDo(w, prog, pc, st, d, ctx, n, fuel, c, Steps(w, prog, c, n));
  }

  lemma DoUnits(st: Stmt, d: nat)
    requires st.Do? && FitsStmt(st, d)
    ensures FitsArg(st.e, 0, false) && ExprAsm(st.e, 0) != [] && StmtCode(st, d) == Line(d, ExprAsm(st.e, 0))
    ensures |StmtCode(st, d)| == |ExprAsm(st.e, 0)|
  {
    hide ExprAsm;
  }

  /** A frame ready for a line that is not empty stands on its first unit. */
  lemma ReadyAt<V, S>(prog: seq<Unit>, c: Cfg<V, S>, pc: nat, d: nat, code: seq<Asm>)
    requires Ready(prog, c, pc, d) && AtLine(prog, pc, d, true, code) && code != [] && LineStart(prog, pc)
    ensures c.pc == pc && !c.error && Clear(c, 0) && (pc == 0 || prog[pc - 1].invoke <= 0)
  {
  }

  lemma DoneDo<V, S>(w: World<V, S>, prog: seq<Unit>, pc: nat, st: Stmt, d: nat, ctx: Loop, n: nat, fuel: nat, c: Cfg<V, S>,
                     c': Cfg<V, S>)
    requires st.Do? && Ready(prog, c, pc, d) && |StmtCode(st, d)| == |ExprAsm(st.e, 0)|
    requires Computed(Fresh(c, true), 0, Eval(w, st.e, c.state), Norm(prog, pc + |ExprAsm(st.e, 0)|), c')
    ensures Ended(prog, c, c', d, Exec(w, st, c.state, fuel), pc + |StmtCode(st, d)|, ctx, n, fuel)
  {
    hide Eval, ExprAsm, StmtCode, Norm;
  }

  lemma SimAssign<V, S>(w: World<V, S>, prog: seq<Unit>, pc: nat, st: Stmt, d: nat, ctx: Loop, fuel: nat, c: Cfg<V, S>)
    returns (n: nat)
    requires (st.Assign? || st.Return?) && FitsStmt(st, d) && At(prog, pc, StmtCode(st, d)) && LineStart(prog, pc)
    requires Ready(prog, c, pc, d)
    ensures Ended(prog, c, Steps(w, prog, c, n), d, Exec(w, st, c.state, fuel), pc + |StmtCode(st, d)|, ctx, n, fuel)
  {
    hide Step, Steps;
    LineAt(prog, pc, d, SimpleAsm(st));
    n := RunHead(w, prog, pc, d, true, st.e, if st.Assign? then I(0, OUT, st.x) else I(0, RET, ""), c);
    if Eval(w, st.e, c.state).Ok? {
      var c1, v := Steps(w, prog, c, n), Eval(w, st.e, c.state).v;
      if st.Assign? {
        StepAssign(w, prog, d, st.x, [], v, c1);
      } else {
        StepRet(w, prog, d, [], v, c1);
      }
      StepsSnoc(w, prog, c, n);
      n := n + 1;
    }
  }

  /** `break` and `continue` reach the end, or the back jump, of the innermost loop. */
  lemma SimLeave<V, S>(w: World<V, S>, prog: seq<Unit>, pc: nat, st: Stmt, d: nat, ctx: Loop, m: nat, c: Cfg<V, S>)
    requires (st.Break? || st.Continue?) && d < 16 && d <= m && ctx.InLoop?
    requires Layout(prog, pc, StmtCode(st, d), d, ctx, m) && Ready(prog, c, pc, d)
    ensures Step(w, prog, c) == c.(stack := [], pc := if st.Break? then Norm(prog, ctx.j + 1) else ctx.j)
  {
    hide Step, JmpBack, At, StmtCode, Ready, InCtx, On, Norm;
    LeaveUnit(prog, pc, st, d, c);
    LeaveTarget(prog, pc, d, ctx, m);
    StepLeave(w, prog, d, ctx.j, st.Break?, c);
  }

  lemma LeaveUnit<V, S>(prog: seq<Unit>, pc: nat, st: Stmt, d: nat, c: Cfg<V, S>)
    requires (st.Break? || st.Continue?) && d < 16 && At(prog, pc, StmtCode(st, d)) && Ready(prog, c, pc, d)
    ensures On(prog, c, d, true, I(0, if st.Break? then BRK else CTN, "")) && c.pc == pc
    ensures |StmtCode(st, d)| == 1 && pc < |prog| && prog[pc].block == d
  {
    var a := SimpleAsm(st)[0];
    LineAt(prog, pc, d, [a]);
    AtUnit(prog, pc, d, true, a);
  }

  lemma LeaveTarget(prog: seq<Unit>, pc: nat, d: nat, ctx: Loop, m: nat)
    requires pc < |prog| && prog[pc].block == d <= m && ctx.InLoop? && InCtx(prog, ctx, pc, pc + 1, d, m)
    ensures JmpBack(prog, pc) == Some(ctx.j)
  {
    hide JmpBack, IsTest;
    JmpBackIff(prog, ctx.h, pc, ctx.j);
  }

  lemma SimSimple<V, S>(w: World<V, S>, prog: seq<Unit>, pc: nat, st: Stmt, d: nat, ctx: Loop, m: nat, fuel: nat,
                        c: Cfg<V, S>) returns (n: nat)
    requires FitsStmt(st, d) && !st.If? && !st.While? && !st.For?
    requires Layout(prog, pc, StmtCode(st, d), d, ctx, m) && OkStmt(st, d, ctx.InLoop?, m)
    requires Ready(prog, c, pc, d)
    ensures Ended(prog, c, Steps(w, prog, c, n), d, Exec(w, st, c.state, fuel), pc + |StmtCode(st, d)|, ctx, n, fuel)
  {
    hide Step;
    if st.Pass? {
      n := 0;
    } else if st.Do? {
      n := SimDo(w, prog, pc, st, d, ctx, fuel, c);
    } else if st.Assign? || st.Return? {
      n := SimAssign(w, prog, pc, st, d, ctx, fuel, c);
    } else {
      n := 1;
      StepsOne(w, prog, c);
      if st.Del? {
        LineAt(prog, pc, d, SimpleAsm(st));
        AtUnit(prog, pc, d, true, I(0, DEL, st.x));
        StepDel(w, prog, d, st.x, c);
      } else if st.ReturnNone? {
        LineAt(prog, pc, d, SimpleAsm(st));
        AtUnit(prog, pc, d, true, I(0, RET, ""));
        StepRetNone(w, prog, d, c);
      } else {
        SimLeave(w, prog, pc, st, d, ctx, m, c);
      }
    }
  }
}
