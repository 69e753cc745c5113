/** Where the jump scans of the VM land, and the shape of compiled code they rely on. */
module Scans {
  import opened Bytecode
  import opened Syntax
  import opened CodeGen
  import opened Machine
  import opened ExprProof

  // ---- the scans ----

  /** `q` is the end of the program or starts a line at block depth at most `d`. */
  predicate Boundary(prog: seq<Unit>, q: nat, d: nat) {
    q <= |prog| && (q < |prog| ==> prog[q].newLine && prog[q].block <= d)
  }

  /** A forward jump passes over everything inside deeper blocks and inside the current line. */
  lemma {:induction false} SkipDeeper(prog: seq<Unit>, i: nat, j: nat, d: nat, n: nat)
    requires i <= j <= |prog| && n >= 1
    requires forall x :: i <= x < j ==> !prog[x].newLine || prog[x].block > d
    ensures SeekLine(prog, i, d, n) == SeekLine(prog, j, d, n)
    decreases j - i
  {
    if i < j {
      SkipDeeper(prog, i + 1, j, d, n);
    }
  }

  /** `JMP -1` finds the nearest line start of its own depth. */
  lemma {:induction false} BackTo(prog: seq<Unit>, h: nat, i: nat, d: nat)
    requires h < i <= |prog| && prog[h].newLine && prog[h].block == d
    requires forall x :: h < x < i ==> !prog[x].newLine || prog[x].block != d
    ensures SeekBack(prog, i, d, 1) == Some(h)
    decreases i
  {
    if h < i - 1 {
      BackTo(prog, h, i - 1, d);
    }
  }

  /** The line starts at block depth at most `d` from `i` up to `r`. */
  function LinesUpTo(prog: seq<Unit>, i: nat, r: nat, d: nat): set<nat>
    requires r <= |prog|
  {
    set x: nat | i <= x < r && prog[x].newLine && prog[x].block <= d
  }

  lemma LinesUpToCons(prog: seq<Unit>, i: nat, r: nat, d: nat)
    requires i <= r <= |prog|
    ensures i == r ==> LinesUpTo(prog, i, r, d) == {}
    ensures i < r ==>
      |LinesUpTo(prog, i, r, d)| == |LinesUpTo(prog, i + 1, r, d)| + if prog[i].newLine && prog[i].block <= d then 1 else 0
  {
    if i < r {
      var at := prog[i].newLine && prog[i].block <= d;
      assert LinesUpTo(prog, i, r, d) == LinesUpTo(prog, i + 1, r, d) + if at then {i} else {};
    }
  }

  /** A forward jump by `n` goes to the `n`-th line start that is not deeper, or to the end when there are fewer. */
  lemma {:induction false} SeekLineNth(prog: seq<Unit>, i: nat, d: nat, n: nat)
    requires i <= |prog| && n >= 1
    ensures var r := SeekLine(prog, i, d, n);
      && (r < |prog| ==> prog[r].newLine && prog[r].block <= d && |LinesUpTo(prog, i, r, d)| == n - 1)
      && (r == |prog| ==> |LinesUpTo(prog, i, r, d)| < n)
    decreases |prog| - i
  {
    hide LinesUpTo;
    LinesUpToCons(prog, i, SeekLine(prog, i, d, n), d);
    if i < |prog| {
      if !(prog[i].newLine && prog[i].block <= d) {
        SeekLineNth(prog, i + 1, d, n);
      } else if n > 1 {
        SeekLineNth(prog, i + 1, d, n - 1);
      }
    }
  }

  /** The line starts at block depth `d` from `r` up to `i`. */
  function LinesAt(prog: seq<Unit>, r: nat, i: nat, d: nat): set<nat>
    requires i <= |prog|
  {
    set x: nat | r <= x < i && prog[x].newLine && prog[x].block == d
  }

  lemma LinesAtSnoc(prog: seq<Unit>, r: nat, i: nat, d: nat)
    requires r <= i <= |prog|
    ensures r == i ==> LinesAt(prog, r, i, d) == {}
    ensures r < i ==>
      |LinesAt(prog, r, i, d)| == |LinesAt(prog, r, i - 1, d)| + if prog[i - 1].newLine && prog[i - 1].block == d then 1 else 0
  {
    if r < i {
      var at := prog[i - 1].newLine && prog[i - 1].block == d;
      assert LinesAt(prog, r, i, d) == LinesAt(prog, r, i - 1, d) + if at then {i - 1} else {};
    }
  }

  /** A backward jump by `n` goes to the `n`-th line start of equal depth; the search fails when there are fewer. */
  lemma {:induction false} SeekBackNth(prog: seq<Unit>, i: nat, d: nat, n: nat)
    requires i <= |prog| && n >= 1
    ensures var r := SeekBack(prog, i, d, n);
      && (r.Some? ==> prog[r.value].newLine && prog[r.value].block == d && |LinesAt(prog, r.value + 1, i, d)| == n - 1)
      && (r.None? ==> |LinesAt(prog, 0, i, d)| < n)
    decreases i
  {
    hide LinesAt;
    var r := SeekBack(prog, i, d, n);
    LinesAtSnoc(prog, if r.Some? then r.value + 1 else 0, i, d);
    if i > 0 {
      if !(prog[i - 1].newLine && prog[i - 1].block == d) {
        SeekBackNth(prog, i - 1, d, n);
      } else if n > 1 {
        SeekBackNth(prog, i - 1, d, n - 1);
      }
    }
  }

  lemma {:induction false} LoopDepthAt(prog: seq<Unit>, h: nat, i: nat, d: nat)
    requires h < i <= |prog| && IsLoopTest(prog, h) && prog[h].block < d
    requires forall x :: h < x < i && IsLoopTest(prog, x) ==> prog[x].block >= d
    ensures LoopDepth(prog, i, d) == Some(prog[h].block)
    decreases i
  {
    if h < i - 1 {
      LoopDepthAt(prog, h, i - 1, d);
    }
  }

  lemma {:induction false} EndAt(prog: seq<Unit>, i: nat, j: nat, d: nat)
    requires i <= j < |prog| && prog[j].block == d && IsBack(prog[j])
    requires forall x :: i <= x < j ==> prog[x].block != d
    ensures SeekEnd(prog, i, d) == Some(j)
    decreases j - i
  {
    if i < j {
      EndAt(prog, i + 1, j, d);
    }
  }

  lemma {:induction false} EndDepth(prog: seq<Unit>, i: nat, d: nat)
    requires i <= |prog|
    ensures SeekEnd(prog, i, d).Some? ==> prog[SeekEnd(prog, i, d).value].block == d
    decreases |prog| - i
  {
    if i < |prog| {
      EndDepth(prog, i + 1, d);
    }
  }

  /** `h` tests a loop that `j` jumps back for, and everything in between is deeper. */
  predicate IsLoop(prog: seq<Unit>, h: nat, j: nat) {
    h < j < |prog| && IsLoopTest(prog, h) && IsBack(prog[j]) && prog[j].block == prog[h].block
    && forall x :: h < x < j ==> prog[x].block > prog[h].block
  }

  /** A loop test between `h` and `i` that is shallower than `d` hides the one at `h`. */
  lemma {:induction false} LoopDepthHidden(prog: seq<Unit>, h: nat, j: nat, x: nat, i: nat, d: nat)
    requires IsLoop(prog, h, j) && h < x < i <= j
    requires IsLoopTest(prog, x) && prog[x].block < d
    ensures LoopDepth(prog, i, d).Some? && LoopDepth(prog, i, d).value > prog[h].block
    decreases i
  {
    if x < i - 1 {
      LoopDepthHidden(prog, h, j, x, i - 1, d);
    }
  }

  /** The search ends at the back jump of the loop around `p` if and only if no loop test in between is shallower. */
  lemma JmpBackIff(prog: seq<Unit>, h: nat, p: nat, j: nat)
    requires IsLoop(prog, h, j) && h < p < j
    ensures JmpBack(prog, p) == Some(j)
       <==> forall x :: h < x < p && IsLoopTest(prog, x) ==> prog[x].block >= prog[p].block
  {
    if forall x :: h < x < p && IsLoopTest(prog, x) ==> prog[x].block >= prog[p].block {
      LoopDepthAt(prog, h, p, prog[p].block);
      EndAt(prog, p + 1, j, prog[h].block);
    } else {
      var x :| h < x < p && IsLoopTest(prog, x) && prog[x].block < prog[p].block;
      LoopDepthHidden(prog, h, j, x, p, prog[p].block);
      EndDepth(prog, p + 1, LoopDepth(prog, p, prog[p].block).value);
    }
  }

  /** Exact condition for `break` and `continue`, on the fields of the units: the search from `p` ends at the back jump
      `j` of the loop tested at `h` around `p` if and only if no `0 JEZ 2` between them that is not directly behind a
      GER is at a block depth shallower than that of `p`. */
  lemma JmpBackExact(prog: seq<Unit>, h: nat, p: nat, j: nat)
    requires h < p < j < |prog|
    requires prog[h].ins == JEZ && prog[h].invoke == 0 && "2" <= prog[h].data && (h > 0 ==> prog[h - 1].ins != GER)
    requires prog[j].ins == JMP && "-1" <= prog[j].data && prog[j].block == prog[h].block
    requires forall x :: h < x < j ==> prog[x].block > prog[h].block
    ensures JmpBack(prog, p) == Some(j) <==>
      forall x :: h < x < p && prog[x].ins == JEZ && prog[x].invoke == 0 && "2" <= prog[x].data && prog[x - 1].ins != GER ==>
        prog[x].block >= prog[p].block
  {
    JmpBackIff(prog, h, p, j);
  }

  /** So the test that closes a `try` block, which stands directly behind a GER, never hides the loop around it. */
  lemma TryHidesNothing(prog: seq<Unit>, h: nat, p: nat, j: nat)
    requires h < p < j < |prog|
    requires prog[h].ins == JEZ && prog[h].invoke == 0 && "2" <= prog[h].data && (h > 0 ==> prog[h - 1].ins != GER)
    requires prog[j].ins == JMP && "-1" <= prog[j].data && prog[j].block == prog[h].block
    requires forall x :: h < x < j ==> prog[x].block > prog[h].block
    requires forall x :: h < x < p && prog[x].ins == JEZ && prog[x].invoke == 0 && "2" <= prog[x].data ==> prog[x - 1].ins == GER
    ensures JmpBack(prog, p) == Some(j)
  {
    JmpBackExact(prog, h, p, j);
  }

  /** The search from any `p` of any program, on the fields of the units: `h` is the nearest `0 JEZ 2` before `p` that
      is shallower and not directly behind a GER, and `j` the first `JMP -1` of its depth behind `p`. */
  ghost predicate Resolves(prog: seq<Unit>, p: nat, h: nat, j: nat) {
    && h < p < j < |prog|
    && prog[h].ins == JEZ && prog[h].invoke == 0 && "2" <= prog[h].data && (h > 0 ==> prog[h - 1].ins != GER)
    && prog[h].block < prog[p].block
    && (forall x :: h < x < p && prog[x].ins == JEZ && prog[x].invoke == 0 && "2" <= prog[x].data && prog[x - 1].ins != GER ==>
          prog[x].block >= prog[p].block)
    && prog[j].ins == JMP && "-1" <= prog[j].data && prog[j].block == prog[h].block
    && (forall x :: p < x < j && prog[x].ins == JMP && "-1" <= prog[x].data ==> prog[x].block != prog[h].block)
  }

  lemma {:induction false} LoopDepthFound(prog: seq<Unit>, i: nat, d: nat) returns (h: nat)
    requires i <= |prog| && LoopDepth(prog, i, d).Some?
    ensures h < i && IsLoopTest(prog, h) && prog[h].block < d && LoopDepth(prog, i, d) == Some(prog[h].block)
    ensures forall x :: h < x < i && IsLoopTest(prog, x) ==> prog[x].block >= d
  {
    if IsLoopTest(prog, i - 1) && prog[i - 1].block < d {
      h := i - 1;
    } else {
      h := LoopDepthFound(prog, i - 1, d);
    }
  }

  lemma {:induction false} EndMeans(prog: seq<Unit>, i: nat, d: nat, j: nat)
    requires i <= j < |prog|
    ensures SeekEnd(prog, i, d) == Some(j) <==>
      prog[j].block == d && IsBack(prog[j]) && forall x :: i <= x < j ==> !(prog[x].block == d && IsBack(prog[x]))
    decreases j - i
  {
    if i < j {
      EndMeans(prog, i + 1, d, j);
    }
  }

  lemma JmpBackParts(prog: seq<Unit>, p: nat)
    requires p < |prog|
    ensures var l := LoopDepth(prog, p, prog[p].block); JmpBack(prog, p) == if l.Some? then SeekEnd(prog, p + 1, l.value) else None
  {
  }

  lemma ResolvedBack(prog: seq<Unit>, p: nat, j: nat) returns (h: nat)
    requires p < |prog| && JmpBack(prog, p) == Some(j)
    ensures Resolves(prog, p, h, j)
  {
    hide JmpBack, LoopDepth, SeekEnd;
    JmpBackParts(prog, p);
    h := LoopDepthFound(prog, p, prog[p].block);
    EndMeans(prog, p + 1, prog[h].block, j);
  }

  lemma BackResolved(prog: seq<Unit>, p: nat, h: nat, j: nat)
    requires Resolves(prog, p, h, j)
    ensures JmpBack(prog, p) == Some(j)
  {
    hide JmpBack, LoopDepth, SeekEnd;
    JmpBackParts(prog, p);
    LoopDepthAt(prog, h, p, prog[p].block);
    EndMeans(prog, p + 1, prog[h].block, j);
  }

  /** `break` and `continue` resolve to `j` exactly when `j` closes that loop. */
  lemma JmpBackMeans(prog: seq<Unit>, p: nat, j: nat)
    requires p < |prog|
    ensures JmpBack(prog, p) == Some(j) <==> exists h: nat :: Resolves(prog, p, h, j)
  {
    hide JmpBack, Resolves;
    if JmpBack(prog, p) == Some(j) {
      var h := ResolvedBack(prog, p, j);
    }
    if h: nat :| Resolves(prog, p, h, j) {
      BackResolved(prog, p, h, j);
    }
  }

  // ---- compiled code ----

  function Min(a: nat, b: nat): nat {
    if a <= b then a else b
  }

  /** Smallest block depth of a loop in a statement, block or else part compiled at depth `d`;
      16 when there is none. */
  function MinStmt(st: Stmt, d: nat): nat {
    match st
    case If(_, body, rest) => Min(MinBlock(body, d + 1), MinRest(rest, d))
    case While(_, _, _) => d
    case For(_, _, _, _) => d
    case _ => 16
  }

  function MinBlock(b: Block, d: nat): nat {
    match b
    case BNil => 16
    case BCons(head, tail) => Min(MinStmt(head, d), MinBlock(tail, d))
  }

  function MinRest(r: Else, d: nat): nat {
    match r
    case NoElse => 16
    case Else(body) => MinBlock(body, d + 1)
    case Elif(_, body, rest) => Min(MinBlock(body, d + 1), MinRest(rest, d))
  }

  /** Depths fit the registers and the four bits, expressions are well formed, and variables do
      not carry the name of a loop register. */
  predicate FitsStmt(st: Stmt, d: nat) {
    d < 16 &&
    match st
    case Do(e) => FitsExpr(e, 0)
    case Assign(x, e) => FitsExpr(e, 0) && !IsLReg(x)
    case Del(x) => !IsLReg(x)
    case Return(e) => FitsExpr(e, 0)
    case If(c, body, rest) =>
      d < REGIST_SIZE && FitsExpr(c, 0) && FitsBlock(body, d + 1) && FitsRest(rest, d)
    case While(c, body, rest) =>
      d < REGIST_SIZE && FitsExpr(c, 0) && FitsBlock(body, d + 1) && FitsRest(rest, d)
    case For(x, e, body, rest) =>
      d < REGIST_SIZE && FitsExpr(IterOf(e), 0) && !IsLReg(x) && FitsBlock(body, d + 1) && FitsRest(rest, d)
    case _ => true
  }

  predicate FitsBlock(b: Block, d: nat) {
    match b
    case BNil => true
    case BCons(head, tail) => FitsStmt(head, d) && FitsBlock(tail, d)
  }

  predicate FitsRest(r: Else, d: nat) {
    match r
    case NoElse => true
    case Else(body) => d < REGIST_SIZE && FitsBlock(body, d + 1)
    case Elif(c, body, rest) => d < REGIST_SIZE && FitsExpr(c, 0) && FitsBlock(body, d + 1) && FitsRest(rest, d)
  }

  /** Code of a construct at block depth `d`: it starts a line at that depth, never comes up to a
      smaller depth, ends at invoke depth 0, and tests loops only at depth `m` or deeper. */
  predicate Good(code: seq<Unit>, d: nat, m: nat) {
    (forall u :: u in code ==> u.block >= d && (IsTest(u) ==> u.block >= m))
    && (code != [] ==> code[0].newLine && code[0].block == d && code[|code| - 1].invoke == 0)
  }

  lemma GoodJoin(a: seq<Unit>, b: seq<Unit>, d: nat, ma: nat, e: nat, mb: nat, m: nat)
    requires Good(a, d, ma) && Good(b, e, mb) && d <= e && m <= ma && m <= mb
    requires a == [] ==> d == e
    ensures Good(a + b, d, m)
  {
    if a + b != [] {
      assert (a + b)[0] == if a == [] then b[0] else a[0];
      assert (a + b)[|a + b| - 1] == if b == [] then a[|a| - 1] else b[|b| - 1];
    }
  }

  /** A line whose last instruction is at invoke depth 0. */
  lemma GoodLine(d: nat, code: seq<Asm>, m: nat)
    requires d < 16 && AllI(code) && (code != [] ==> code[|code| - 1].invoke == 0)
    requires forall a :: a in code && a.ins == JEZ ==> m <= d
    requires m <= 16
    ensures Good(Line(d, code), d, m)
  {
    var r := Line(d, code);
    forall u | u in r ensures u.block >= d && (IsTest(u) ==> u.block >= m) {
      var a := UnitOfLine(d, code, u);
    }
  }

  /** Expression code contains no tests. */
  predicate Plain(code: seq<Asm>) {
    forall a :: a in code ==> a.I? && a.ins != JEZ && a.ins != GER
  }

  lemma {:induction false} PlainExpr(e: Expr, k: nat, kw: bool)
    requires FitsArg(e, k, kw)
    ensures Plain(ExprAsm(e, k))
    ensures var asm := ExprAsm(e, k); asm[|asm| - 1].invoke == k
    decreases e
  {
    match e
    case Node(_, _, args) => PlainExprs(args, k + 1, true);
    case ListOf(items) => PlainExprs(items, k + 1, false);
    case Kw(_, value) => PlainExpr(value, k, false);
  }

  lemma {:induction false} PlainExprs(es: Exprs, k: nat, kw: bool)
    requires FitsAll(es, k, kw)
    ensures Plain(ExprsAsm(es, k))
    decreases es
  {
    match es
    case ENil =>
    case ECons(head, tail) =>
      PlainExpr(head, k, kw);
      PlainExprs(tail, k, kw);
  }

  lemma GoodSimple(st: Stmt, d: nat)
    requires FitsStmt(st, d) && !st.If? && !st.While? && !st.For?
    ensures Good(StmtCode(st, d), d, 16)
  {
    if st.Do? || st.Assign? || st.Return? {
      PlainExpr(st.e, 0, false);
    }
    GoodLine(d, SimpleAsm(st), 16);
  }

  /** The head of an `if`, `elif` or `else` part and its body; `m` bounds the body's loops. */
  lemma GoodHead(d: nat, head: seq<Asm>, body: Block, m: nat)
    requires d < 16 && AllI(head) && head != [] && head[|head| - 1].invoke == 0
    requires forall a :: a in head && a.ins == JEZ ==> a.data == "1"
    requires Good(BlockCode(body, d + 1), d + 1, m)
    ensures Good(Line(d, head) + BlockCode(body, d + 1), d, m)
  {
    hide Good, Line;
    GoodClause(d, head, m);
    GoodJoin(Line(d, head), BlockCode(body, d + 1), d, m, d + 1, m, m);
  }

  lemma GoodClause(d: nat, head: seq<Asm>, m: nat)
    requires d < 16 && AllI(head) && head != [] && head[|head| - 1].invoke == 0
    requires forall a :: a in head && a.ins == JEZ ==> a.data == "1"
    ensures Line(d, head) != [] && Good(Line(d, head), d, m)
  {
    forall u | u in Line(d, head) ensures u.block >= d && !IsTest(u) {
      hide Line;
      var a := UnitOfLine(d, head, u);
    }
    hide IsTest;
  }

  lemma {:induction false} GoodStmt(st: Stmt, d: nat)
    requires FitsStmt(st, d)
    ensures Good(StmtCode(st, d), d, MinStmt(st, d))
    decreases st, 0
  {
    match st
    case If(c, body, rest) =>
      PlainExpr(c, 0, false);
      GoodBlock(body, d + 1);
      GoodRest(rest, d);
      GoodHead(d, IfAsm(c), body, MinBlock(body, d + 1));
      GoodJoin(Line(d, IfAsm(c)) + BlockCode(body, d + 1), RestCode(rest, d),
               d, MinBlock(body, d + 1), d, MinRest(rest, d), MinStmt(st, d));
    case While(c, body, rest) => GoodWhile(c, body, rest, d);
    case For(x, e, body, rest) => GoodFor(x, e, body, rest, d);
    case _ => GoodSimple(st, d);
  }

  lemma {:induction false} GoodWhile(c: Expr, body: Block, rest: Else, d: nat)
    requires FitsStmt(While(c, body, rest), d)
    ensures Good(StmtCode(While(c, body, rest), d), d, d)
    decreases While(c, body, rest), 0, 0
  {
    GoodBlock(body, d + 1);
    GoodRest(rest, d);
    PlainExpr(c, 0, false);
    var head, b, r := Line(d, WhileAsm(c)), BlockCode(body, d + 1), RestCode(rest, d);
    GoodLine(d, WhileAsm(c), d);
    GoodLine(d, BACK_ASM, d);
    AboveDepth(b, d + 1, MinBlock(body, d + 1));
    AboveDepth(r, d, MinRest(rest, d));
    GoodJoin(head, b, d, d, d + 1, d, d);
    GoodJoin(head + b, Line(d, BACK_ASM), d, d, d, d, d);
    GoodJoin(head + b + Line(d, BACK_ASM), r, d, d, d, d, d);
  }

  lemma {:induction false} GoodFor(x: string, e: Expr, body: Block, rest: Else, d: nat)
    requires FitsStmt(For(x, e, body, rest), d)
    ensures Good(StmtCode(For(x, e, body, rest), d), d, d)
    decreases For(x, e, body, rest), 0, 0
  {
    hide Good, Line, ForInitAsm;
    GoodBlock(body, d + 1);
    GoodRest(rest, d);
    GoodForLines(x, e, d);
    var init, next := Line(d, ForInitAsm(e, d)), Line(d, ForNextAsm(x, d));
    var b, r, back, del := BlockCode(body, d + 1), RestCode(rest, d), Line(d, BACK_ASM), Line(d, DelAsm(d));
    AboveDepth(b, d + 1, MinBlock(body, d + 1));
    AboveDepth(r, d, MinRest(rest, d));
    GoodJoin(init, next, d, d, d, d, d);
    GoodJoin(init + next, b, d, d, d + 1, d, d);
    GoodJoin(init + next + b, back, d, d, d, d, d);
    GoodJoin(init + next + b + back, del, d, d, d, d, d);
    GoodJoin(init + next + b + back + del, r, d, d, d, d, d);
  }

  lemma GoodForLines(x: string, e: Expr, d: nat)
    requires d < 16 && FitsExpr(IterOf(e), 0)
    ensures Line(d, ForInitAsm(e, d)) != [] && Good(Line(d, ForInitAsm(e, d)), d, d)
    ensures Good(Line(d, ForNextAsm(x, d)), d, d) && Good(Line(d, BACK_ASM), d, d) && Good(Line(d, DelAsm(d)), d, d)
  {
    hide Good, Line, LReg, ExprAsm;
    PlainExpr(IterOf(e), 0, false);
    LineLength(d, ForInitAsm(e, d));
    GoodLine(d, ForInitAsm(e, d), d);
    GoodLine(d, ForNextAsm(x, d), d);
    GoodLine(d, BACK_ASM, d);
    GoodLine(d, DelAsm(d), d);
  }

  lemma AboveDepth(code: seq<Unit>, d: nat, m: nat)
    requires Good(code, d, m)
    ensures Good(code, d, d)
    ensures d > 0 ==> Good(code, d, d - 1)
  {
  }

  lemma {:induction false} GoodBlock(b: Block, d: nat)
    requires FitsBlock(b, d)
    ensures Good(BlockCode(b, d), d, MinBlock(b, d))
    decreases b, 0
  {
    match b
    case BNil =>
    case BCons(head, tail) =>
      GoodStmt(head, d);
      GoodBlock(tail, d);
      GoodJoin(StmtCode(head, d), BlockCode(tail, d), d, MinStmt(head, d), d, MinBlock(tail, d), MinBlock(b, d));
  }

  lemma {:induction false} GoodRest(r: Else, d: nat)
    requires FitsRest(r, d)
    ensures Good(RestCode(r, d), d, MinRest(r, d))
    decreases r, 0
  {
    hide Line;
    match r
    case NoElse =>
    case Else(body) =>
      GoodBlock(body, d + 1);
      GoodHead(d, ELSE_ASM, body, MinRest(r, d));
    case Elif(c, body, rest) =>
      PlainExpr(c, 0, false);
      GoodBlock(body, d + 1);
      GoodRest(rest, d);
      GoodHead(d, ElifAsm(c), body, MinBlock(body, d + 1));
      GoodJoin(Line(d, ElifAsm(c)) + BlockCode(body, d + 1), RestCode(rest, d),
               d, MinBlock(body, d + 1), d, MinRest(rest, d), MinRest(r, d));
  }
}
