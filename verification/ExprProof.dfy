/** Expression code: operand counts recovered by the backward scan, and the value computed. */
module ExprProof {
  import opened Bytecode
  import opened Syntax
  import opened Semantics
  import opened CodeGen
  import opened Machine

  /** Instructions an expression node may carry, with the operand counts their handlers serve. */
  predicate OkNode(ins: Ins, data: string, n: nat) {
    match ins
    case REF => n == if |data| > 0 && data[0] == '.' then 1 else 0
    case NUM => n == 0
    case STR => n == 0
    case BYT => n == 0
    case RUN => !IsLReg(data)
    case OPT => 1 <= n <= 2
    case SLC => 2 <= n <= 3
    case DCT => n % 2 == 0
    case TPL => true
    case _ => false
  }

  /** `e` at invoke depth `k` is well formed and stays within the four depth bits. */
  predicate FitsExpr(e: Expr, k: nat)
    decreases e, 0
  {
    k < 16 &&
    match e
    case Node(ins, data, args) => OkNode(ins, data, Len(args)) && FitsAll(args, k + 1, true)
    case ListOf(items) => FitsAll(items, k + 1, false)
    case Kw(_, _) => false
  }

  predicate FitsAll(es: Exprs, k: nat, keywords: bool)
    decreases es, 0
  {
    match es
    case ENil => true
    case ECons(head, tail) => FitsArg(head, k, keywords) && FitsAll(tail, k, keywords)
  }

  predicate FitsArg(e: Expr, k: nat, keywords: bool)
    decreases e, 1
  {
    if e.Kw? then keywords && FitsExpr(e.value, k) else FitsExpr(e, k)
  }

  /** `code` stands in `prog` from `pc` on. */
  predicate At(prog: seq<Unit>, pc: nat, code: seq<Unit>) {
    pc + |code| <= |prog| && forall i :: 0 <= i < |code| ==> prog[pc + i] == code[i]
  }

  lemma AtSplit(prog: seq<Unit>, pc: nat, a: seq<Unit>, b: seq<Unit>)
    requires At(prog, pc, a + b)
    ensures At(prog, pc, a) && At(prog, pc + |a|, b)
  {
    forall i | 0 <= i < |a| ensures prog[pc + i] == a[i] { assert (a + b)[i] == a[i]; }
    forall i | 0 <= i < |b| ensures prog[pc + |a| + i] == b[i] {
      assert (a + b)[|a| + i] == b[i];
      assert prog[pc + (|a| + i)] == b[i];
    }
  }

  /** `code` stands in `prog` from `pc` on as part of a line at block depth `d`. */
  predicate AtLine(prog: seq<Unit>, pc: nat, d: nat, nl: bool, code: seq<Asm>) {
    pc + |code| <= |prog| &&
    forall i :: 0 <= i < |code| ==> code[i].I? && prog[pc + i] == Pack(d, nl && i == 0, code[i])
  }

  lemma AtLineSplit(prog: seq<Unit>, pc: nat, d: nat, nl: bool, a: seq<Asm>, b: seq<Asm>)
    requires AtLine(prog, pc, d, nl, a + b)
    ensures AtLine(prog, pc, d, nl, a) && AtLine(prog, pc + |a|, d, nl && a == [], b)
  {
    forall i | 0 <= i < |a| ensures a[i].I? && prog[pc + i] == Pack(d, nl && i == 0, a[i]) {
      assert (a + b)[i] == a[i];
    }
    forall i | 0 <= i < |b|
      ensures b[i].I? && prog[pc + |a| + i] == Pack(d, nl && a == [] && i == 0, b[i])
    {
      assert (a + b)[|a| + i] == b[i];
      assert prog[pc + (|a| + i)] == Pack(d, nl && a == [] && i == 0, b[i]);
    }
  }

  lemma AtUnit(prog: seq<Unit>, pc: nat, d: nat, nl: bool, a: Asm)
    requires AtLine(prog, pc, d, nl, [a])
    ensures a.I? && pc < |prog| && prog[pc] == Pack(d, nl, a)
  {
    assert [a][0].I? && prog[pc + 0] == Pack(d, nl, [a][0]);
  }

  // ---- arity recovery ----

  /** Scanning back over the code of an expression at invoke depth `j` counts it once for an
      operator one level up and not at all for one further up, and then goes on before it
      unless the expression starts the line. */
  lemma {:induction false} CountExpr(prog: seq<Unit>, pc: nat, d: nat, nl: bool, e: Expr, j: nat, k: nat, kw: bool)
    requires k < j && FitsArg(e, j, kw)
    requires AtLine(prog, pc, d, nl, ExprAsm(e, j))
    ensures ArgCount(prog, pc + |ExprAsm(e, j)|, k)
         == (if j == k + 1 then 1 else 0) + (if nl then 0 else ArgCount(prog, pc, k))
    decreases e, 0
  {
    hide AtLine;
    match e
    case Node(ins, data, args) =>
      AtLineSplit(prog, pc, d, nl, ExprsAsm(args, j + 1), [I(j, ins, data)]);
      AtUnit(prog, pc + |ExprsAsm(args, j + 1)|, d, nl && ExprsAsm(args, j + 1) == [], I(j, ins, data));
      CountExprs(prog, pc, d, nl, args, j + 1, k, true);
    case ListOf(items) =>
      CountList(prog, pc, d, nl, items, j, k);
    case Kw(name, value) =>
      AtLineSplit(prog, pc, d, nl, ExprAsm(value, j), [I(j, OUT, name)]);
      AtUnit(prog, pc + |ExprAsm(value, j)|, d, false, I(j, OUT, name));
      CountExpr(prog, pc, d, nl, value, j, k, false);
  }

  lemma {:induction false} CountList(prog: seq<Unit>, pc: nat, d: nat, nl: bool, items: Exprs, j: nat, k: nat)
    requires k < j < 16 && FitsAll(items, j + 1, false)
    requires AtLine(prog, pc, d, nl, ExprAsm(ListOf(items), j))
    ensures ArgCount(prog, pc + |ExprAsm(ListOf(items), j)|, k)
         == (if j == k + 1 then 1 else 0) + (if nl then 0 else ArgCount(prog, pc, k))
    decreases items, 1
  {
    hide AtLine;
    var open, close := [I(j, LST, "")], [I(j, NLS, "")];
    AtLineSplit(prog, pc, d, nl, open + ExprsAsm(items, j + 1), close);
    AtLineSplit(prog, pc, d, nl, open, ExprsAsm(items, j + 1));
    AtUnit(prog, pc, d, nl, open[0]);
    AtUnit(prog, pc + 1 + |ExprsAsm(items, j + 1)|, d, false, close[0]);
    CountExprs(prog, pc + 1, d, false, items, j + 1, k, false);
  }

  lemma {:induction false} CountExprs(prog: seq<Unit>, pc: nat, d: nat, nl: bool, es: Exprs, j: nat, k: nat, kw: bool)
    requires k < j && FitsAll(es, j, kw)
    requires AtLine(prog, pc, d, nl, ExprsAsm(es, j))
    ensures ArgCount(prog, pc + |ExprsAsm(es, j)|, k)
         == (if j == k + 1 then Len(es) else 0) + (if nl && es.ECons? then 0 else ArgCount(prog, pc, k))
    decreases es, 0
  {
    match es
    case ENil =>
    case ECons(head, tail) =>
      AtLineSplit(prog, pc, d, nl, ExprAsm(head, j), ExprsAsm(tail, j));
      CountExpr(prog, pc, d, nl, head, j, k, kw);
      CountExprs(prog, pc + |ExprAsm(head, j)|, d, false, tail, j, k, kw);
  }

  /** The operand count the VM recovers at a compiled node is its number of sub-expressions,
      wherever the node stands: units of an earlier sibling or of an earlier line are not counted. */
  lemma ArityRecovered(prog: seq<Unit>, pc: nat, d: nat, nl: bool, args: Exprs, k: nat)
    requires FitsAll(args, k + 1, true)
    requires AtLine(prog, pc, d, nl, ExprsAsm(args, k + 1))
    requires pc == 0 || prog[pc - 1].invoke <= k
    ensures ArgCount(prog, pc + |ExprsAsm(args, k + 1)|, k) == Len(args)
  {
    CountExprs(prog, pc, d, nl, args, k + 1, k, true);
  }

  /** The code of an expression ends with a unit at its own invoke depth. */
  lemma LastInvoke(prog: seq<Unit>, pc: nat, d: nat, nl: bool, e: Expr, k: nat)
    requires k < 16 && AtLine(prog, pc, d, nl, ExprAsm(e, k))
    ensures pc + |ExprAsm(e, k)| <= |prog| && prog[pc + |ExprAsm(e, k)| - 1].invoke == k
  {
    var asm := ExprAsm(e, k);
    assert prog[pc + (|asm| - 1)] == Pack(d, nl && |asm| == 1, asm[|asm| - 1]);
  }

  // ---- evaluation ----

  /** The list registers from depth `k` on are empty. */
  predicate Clear<V, S>(c: Cfg<V, S>, k: nat) {
    |c.oreg| == OREG_SIZE && forall i :: k <= i < |c.oreg| ==> c.oreg[i] == None
  }

  function DeliverAll<V, S>(c: Cfg<V, S>, k: nat, vs: seq<V>): Cfg<V, S> {
    if k > 0 && Get(c.oreg, k - 1).Some? then
      c.(oreg := Set(c.oreg, k - 1, Some(Get(c.oreg, k - 1).value + vs)))
    else c.(stack := c.stack + vs)
  }

  /** The run has ended with a run-time error in outside state `s`. */
  ghost predicate Failed<V, S>(c: Cfg<V, S>, s: S) {
    c.pc == VM_PC_EXIT && c.state == s && c.error
  }

  /** From `c`, computing `r` led to `c'`: a value was delivered at invoke depth `k` and
      execution goes on at `next`, or an error ended the run. */
  ghost predicate Computed<V, S>(c: Cfg<V, S>, k: nat, r: Res<V, S>, next: int, c': Cfg<V, S>) {
    match r
    case Ok(v, s) => c' == Deliver(c.(state := s), k, v).(pc := next)
    case Err(s) => Failed(c', s)
  }

  ghost predicate ComputedAll<V, S>(c: Cfg<V, S>, k: nat, r: Res<seq<V>, S>, next: int, c': Cfg<V, S>) {
    match r
    case Ok(vs, s) => c' == DeliverAll(c.(state := s), k, vs).(pc := next)
    case Err(s) => Failed(c', s)
  }

  /** The end of a step that computed `r`. */
  lemma FinishSettle<V, S>(prog: seq<Unit>, pc: nat, k: nat, c: Cfg<V, S>, r: Res<V, S>, was: Cfg<V, S>)
    requires pc < |prog| && !c.error && c.(pc := was.pc) == was
    ensures Computed(was, k, r, Norm(prog, pc + 1), Finish(prog, pc, k, Settle(c, r)))
  {
  }

  lemma ApplyNode<V, S>(w: World<V, S>, prog: seq<Unit>, ins: Ins, data: string, k: nat, u: Unit, st: seq<V>, vs: seq<V>,
                        c: Cfg<V, S>)
    requires 0 <= c.pc < |prog| && u.ins == ins && u.data == data && u.invoke == k
    requires OkNode(ins, data, |vs|) && ArgCount(prog, c.pc, k) == |vs| && c.stack == st + vs
    ensures IsNode(ins) && Apply(w, prog, c, u) == Settle(c.(stack := st), w.apply(ins, data, vs, c.state))
  {
    hide Settle;
    assert (st + vs)[..|st|] == st && (st + vs)[|st|..] == vs;
  }

  lemma StepNode<V, S>(w: World<V, S>, prog: seq<Unit>, d: nat, nl: bool, ins: Ins, data: string, k: nat,
                       st: seq<V>, vs: seq<V>, c: Cfg<V, S>)
    requires 0 <= c.pc < |prog| && prog[c.pc] == Pack(d, nl, I(k, ins, data)) && k < 16
    requires OkNode(ins, data, |vs|) && ArgCount(prog, c.pc, k) == |vs|
    requires !c.error && Fresh(c, nl).stack == st + vs
    ensures Computed(c.(stack := st), k, w.apply(ins, data, vs, c.state), Norm(prog, c.pc + 1), Step(w, prog, c))
  {
    hide Apply, Control, Finish, Settle, Computed, OkNode, ArgCount, IsNode, Norm;
    var f := Fresh(c, nl);
    ApplyNode(w, prog, ins, data, k, prog[c.pc], st, vs, f);
    FinishSettle(prog, c.pc, k, f.(stack := st), w.apply(ins, data, vs, c.state), c.(stack := st));
  }

  lemma StepLst<V, S>(w: World<V, S>, prog: seq<Unit>, d: nat, nl: bool, k: nat, c: Cfg<V, S>)
    requires 0 <= c.pc && c.pc + 1 < |prog| && prog[c.pc] == Pack(d, nl, I(k, LST, "")) && k < 16
    requires !c.error && |c.oreg| == OREG_SIZE
    ensures Step(w, prog, c) == Fresh(c, nl).(oreg := c.oreg[k := Some([])], pc := c.pc + 1)
  {
  }

  lemma StepNls<V, S>(w: World<V, S>, prog: seq<Unit>, d: nat, k: nat, vs: seq<V>, c: Cfg<V, S>)
    requires 0 <= c.pc < |prog| && prog[c.pc] == Pack(d, false, I(k, NLS, "")) && k < 16
    requires !c.error && |c.oreg| == OREG_SIZE && c.oreg[k] == Some(vs)
    ensures Step(w, prog, c)
         == Deliver(c.(oreg := c.oreg[k := None]), k, w.list(vs)).(pc := Norm(prog, c.pc + 1))
  {
  }

  lemma StepKw<V, S>(w: World<V, S>, prog: seq<Unit>, d: nat, name: string, k: nat, st: seq<V>, v: V, c: Cfg<V, S>)
    requires 0 <= c.pc < |prog| && prog[c.pc] == Pack(d, false, I(k, OUT, name)) && 0 < k < 16
    requires !c.error && c.stack == st + [v]
    ensures Step(w, prog, c) == Deliver(c.(stack := st), k, w.keyword(name, v)).(pc := Norm(prog, c.pc + 1))
  {
    assert (st + [v])[..|st|] == st;
  }

  /** Compiled expression code computes the value of the expression: whatever the stack and
      the outer list registers hold, they are left as they were, except that the value is on
      top of the stack or at the end of the list being built around the expression. */
  lemma {:induction false} RunExpr<V, S>(w: World<V, S>, prog: seq<Unit>, pc: nat, d: nat, nl: bool, e: Expr,
                                         k: nat, kw: bool, c: Cfg<V, S>) returns (n: nat)
    requires FitsArg(e, k, kw) && (kw ==> k > 0 && Get(c.oreg, k - 1).None?)
    requires AtLine(prog, pc, d, nl, ExprAsm(e, k))
    requires pc == 0 || prog[pc - 1].invoke <= k
    requires c.pc == pc && !c.error && Clear(c, k)
    ensures n > 0
    ensures Computed(Fresh(c, nl), k, Eval(w, e, c.state), Norm(prog, pc + |ExprAsm(e, k)|), Steps(w, prog, c, n))
    decreases e, 1
  {
    hide Step, Steps, Computed;
    match e
    case Node(ins, data, args) => n := RunNode(w, prog, pc, d, nl, ins, data, args, k, c);
    case ListOf(items) => n := RunList(w, prog, pc, d, nl, items, k, c);
    case Kw(name, value) => n := RunKw(w, prog, pc, d, nl, name, value, k, c);
  }

  lemma {:induction false} RunNode<V, S>(w: World<V, S>, prog: seq<Unit>, pc: nat, d: nat, nl: bool,
                                         ins: Ins, data: string, args: Exprs, k: nat, c: Cfg<V, S>) returns (n: nat)
    requires FitsExpr(Node(ins, data, args), k)
    requires AtLine(prog, pc, d, nl, ExprAsm(Node(ins, data, args), k))
    requires pc == 0 || prog[pc - 1].invoke <= k
    requires c.pc == pc && !c.error && Clear(c, k)
    ensures n > 0
    ensures Computed(Fresh(c, nl), k, Eval(w, Node(ins, data, args), c.state),
                     Norm(prog, pc + |ExprAsm(Node(ins, data, args), k)|), Steps(w, prog, c, n))
    decreases args, 1
  {
    hide Step, Steps, AtLine, ArgCount, OkNode, Norm;
    var asm := ExprsAsm(args, k + 1);
    AtLineSplit(prog, pc, d, nl, asm, [I(k, ins, data)]);
    AtUnit(prog, pc + |asm|, d, nl && asm == [], I(k, ins, data));
    var m := RunExprs(w, prog, pc, d, nl, args, k + 1, true, c);
    if EvalAll(w, args, c.state).Ok? {
      var c1 := Steps(w, prog, c, m);
      ArityRecovered(prog, pc, d, nl, args, k);
      StepNode(w, prog, d, nl && asm == [], ins, data, k, Fresh(c, nl).stack, EvalAll(w, args, c.state).v, c1);
      StepsSnoc(w, prog, c, m);
      n := m + 1;
    } else {
      n := m;
    }
  }

  lemma {:induction false} RunKw<V, S>(w: World<V, S>, prog: seq<Unit>, pc: nat, d: nat, nl: bool,
                                       name: string, value: Expr, k: nat, c: Cfg<V, S>) returns (n: nat)
    requires FitsExpr(value, k) && k > 0 && Get(c.oreg, k - 1).None?
    requires AtLine(prog, pc, d, nl, ExprAsm(Kw(name, value), k))
    requires pc == 0 || prog[pc - 1].invoke <= k
    requires c.pc == pc && !c.error && Clear(c, k)
    ensures n > 0
    ensures Computed(Fresh(c, nl), k, Eval(w, Kw(name, value), c.state),
                     Norm(prog, pc + |ExprAsm(Kw(name, value), k)|), Steps(w, prog, c, n))
    decreases value, 2
  {
    hide Step, Steps, AtLine;
    var asm := ExprAsm(value, k);
    AtLineSplit(prog, pc, d, nl, asm, [I(k, OUT, name)]);
    AtUnit(prog, pc + |asm|, d, false, I(k, OUT, name));
    var m := RunExpr(w, prog, pc, d, nl, value, k, false, c);
    if Eval(w, value, c.state).Ok? {
      StepKw(w, prog, d, name, k, Fresh(c, nl).stack, Eval(w, value, c.state).v, Steps(w, prog, c, m));
      StepsSnoc(w, prog, c, m);
      n := m + 1;
    } else {
      n := m;
    }
  }

  lemma {:induction false} RunList<V, S>(w: World<V, S>, prog: seq<Unit>, pc: nat, d: nat, nl: bool, items: Exprs,
                                         k: nat, c: Cfg<V, S>) returns (n: nat)
    requires FitsExpr(ListOf(items), k)
    requires AtLine(prog, pc, d, nl, ExprAsm(ListOf(items), k))
    requires c.pc == pc && !c.error && Clear(c, k)
    ensures n > 0
    ensures Computed(Fresh(c, nl), k, Eval(w, ListOf(items), c.state),
                     Norm(prog, pc + |ExprAsm(ListOf(items), k)|), Steps(w, prog, c, n))
    decreases items, 1
  {
    hide Step, Steps, AtLine;
    var open, close := [I(k, LST, "")], [I(k, NLS, "")];
    var asm := ExprsAsm(items, k + 1);
    AtLineSplit(prog, pc, d, nl, open + asm, close);
    AtLineSplit(prog, pc, d, nl, open, asm);
    AtUnit(prog, pc, d, nl, open[0]);
    AtUnit(prog, pc + 1 + |asm|, d, false, close[0]);
    StepLst(w, prog, d, nl, k, c);
    var c1 := Step(w, prog, c);
    var m := RunExprs(w, prog, pc + 1, d, false, items, k + 1, false, c1);
    StepsCons(w, prog, c, m);
    n := 1 + m;
    if EvalAll(w, items, c.state).Ok? {
      var c2 := Steps(w, prog, c, n);
      var vs := EvalAll(w, items, c.state).v;
      assert [] + vs == vs;
      StepNls(w, prog, d, k, vs, c2);
      assert c.oreg[k := Some([])][k := Some(vs)][k := None] == c.oreg;
      StepsSnoc(w, prog, c, n);
      n := n + 1;
    }
  }

  lemma {:induction false} RunExprs<V, S>(w: World<V, S>, prog: seq<Unit>, pc: nat, d: nat, nl: bool, es: Exprs,
                                          k: nat, kw: bool, c: Cfg<V, S>) returns (n: nat)
    requires k > 0 && FitsAll(es, k, kw) && (kw ==> Get(c.oreg, k - 1).None?)
    requires AtLine(prog, pc, d, nl, ExprsAsm(es, k)) && pc + |ExprsAsm(es, k)| < |prog|
    requires pc == 0 || prog[pc - 1].invoke <= k
    requires c.pc == pc && !c.error && Clear(c, k)
    ensures ComputedAll(Fresh(c, nl && es.ECons?), k, EvalAll(w, es, c.state), pc + |ExprsAsm(es, k)|,
                        Steps(w, prog, c, n))
    ensures EvalAll(w, es, c.state).Err? ==> n > 0
    decreases es, 0
  {
    hide Step, AtLine;
    match es
    case ENil =>
      n := 0;
      DeliverNone(c, k);
    case ECons(head, tail) =>
      hide Steps, Norm;
      var asm := ExprAsm(head, k);
      AtLineSplit(prog, pc, d, nl, asm, ExprsAsm(tail, k));
      n := RunExpr(w, prog, pc, d, nl, head, k, kw, c);
      if Eval(w, head, c.state).Ok? {
        var c1 := Steps(w, prog, c, n);
        LastInvoke(prog, pc, d, nl, head, k);
        var m := RunExprs(w, prog, pc + |asm|, d, false, tail, k, kw, c1);
        StepsAdd(w, prog, c, n, m);
        n := n + m;
        if EvalAll(w, tail, c1.state).Ok? {
          DeliverMore(Fresh(c, nl), k, Eval(w, head, c.state).v, EvalAll(w, tail, c1.state).v);
        }
      }
  }

  lemma DeliverNone<V, S>(c: Cfg<V, S>, k: nat)
    ensures DeliverAll(c, k, []) == c
  {
    assert c.stack + [] == c.stack;
    if k > 0 && Get(c.oreg, k - 1).Some? {
      assert Get(c.oreg, k - 1).value + [] == Get(c.oreg, k - 1).value;
      assert Set(c.oreg, k - 1, Some(Get(c.oreg, k - 1).value + [])) == c.oreg;
    }
  }

  lemma DeliverMore<V, S>(c: Cfg<V, S>, k: nat, v: V, vs: seq<V>)
    ensures DeliverAll(Deliver(c, k, v), k, vs) == DeliverAll(c, k, [v] + vs)
  {
    assert c.stack + [v] + vs == c.stack + ([v] + vs);
    if k > 0 && Get(c.oreg, k - 1).Some? {
      var l := Get(c.oreg, k - 1).value;
      assert l + [v] + vs == l + ([v] + vs);
    }
  }
}
