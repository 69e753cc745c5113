/** What each statement-level instruction does to a frame in one step. */
module Stepping {
  import opened Bytecode
  import opened Syntax
  import opened Semantics
  import opened CodeGen
  import opened Machine
  import opened ExprProof

  lemma AtoiJumps()
    ensures Atoi("1") == 1 && Atoi("2") == 2 && Atoi("-1") == -1
  {
    assert Digits("") == 0;
    assert "1"[..0] == "" && "2"[..0] == "" && "-1"[1..] == "1";
    assert Digits("1") == 1 && Digits("2") == 2;
  }

  /** The unit at `c.pc` is instruction `a` of a line at block depth `d`. */
  predicate On<V, S>(prog: seq<Unit>, c: Cfg<V, S>, d: nat, nl: bool, a: Asm) {
    0 <= c.pc < |prog| && a.I? && a.invoke == 0 && d < 16 && prog[c.pc] == Pack(d, nl, a) && !c.error
  }

  lemma StepJez<V, S>(w: World<V, S>, prog: seq<Unit>, d: nat, data: string, st: seq<V>, v: V, c: Cfg<V, S>)
    requires On(prog, c, d, false, I(0, JEZ, data)) && c.stack == st + [v]
    requires d < |c.ireg| && Atoi(data) > 0
    ensures Step(w, prog, c) == c.(stack := st, ireg := c.ireg[d := !w.truth(v)],
              pc := Norm(prog, if w.truth(v) then c.pc + 1 else SeekLine(prog, c.pc + 1, d, Atoi(data))))
  {
    assert (st + [v])[..|st|] == st;
  }

  lemma StepNel<V, S>(w: World<V, S>, prog: seq<Unit>, d: nat, c: Cfg<V, S>)
    requires On(prog, c, d, true, I(0, NEL, "1")) && d < |c.ireg|
    ensures Step(w, prog, c) == c.(stack := [],
              pc := Norm(prog, if c.ireg[d] then c.pc + 1 else SeekLine(prog, c.pc + 1, d, 1)))
  {
    AtoiJumps();
  }

  lemma StepBack<V, S>(w: World<V, S>, prog: seq<Unit>, d: nat, h: nat, c: Cfg<V, S>)
    requires On(prog, c, d, true, I(0, JMP, "-1")) && SeekBack(prog, c.pc, d, 1) == Some(h)
    ensures Step(w, prog, c) == c.(stack := [], pc := h)
  {
    AtoiJumps();
  }

  lemma StepLeave<V, S>(w: World<V, S>, prog: seq<Unit>, d: nat, j: nat, brk: bool, c: Cfg<V, S>)
    requires On(prog, c, d, true, I(0, if brk then BRK else CTN, "")) && JmpBack(prog, c.pc) == Some(j)
    ensures Step(w, prog, c) == c.(stack := [], pc := if brk then Norm(prog, j + 1) else j)
  {
  }

  lemma StepAssign<V, S>(w: World<V, S>, prog: seq<Unit>, d: nat, x: string, st: seq<V>, v: V, c: Cfg<V, S>)
    requires On(prog, c, d, false, I(0, OUT, x)) && c.stack == st + [v] && !IsLReg(x)
    ensures var r := w.assign(x, v, c.state);
            Step(w, prog, c) == c.(stack := st, state := r.s, error := r.Fail?,
              pc := if r.Fail? then VM_PC_EXIT else Norm(prog, c.pc + 1))
  {
    assert (st + [v])[..|st|] == st;
  }

  lemma StepDel<V, S>(w: World<V, S>, prog: seq<Unit>, d: nat, x: string, c: Cfg<V, S>)
    requires On(prog, c, d, true, I(0, DEL, x)) && !IsLReg(x)
    ensures var r := w.remove(x, c.state);
            Step(w, prog, c) == c.(stack := [], state := r.s, error := r.Fail?,
              pc := if r.Fail? then VM_PC_EXIT else Norm(prog, c.pc + 1))
  {
  }

  lemma StepRet<V, S>(w: World<V, S>, prog: seq<Unit>, d: nat, st: seq<V>, v: V, c: Cfg<V, S>)
    requires On(prog, c, d, false, I(0, RET, "")) && c.stack == st + [v]
    ensures Step(w, prog, c) == c.(stack := st, state := w.setReturn(Some(v), c.state), pc := VM_PC_EXIT)
  {
    assert (st + [v])[..|st|] == st;
  }

  lemma StepRetNone<V, S>(w: World<V, S>, prog: seq<Unit>, d: nat, c: Cfg<V, S>)
    requires On(prog, c, d, true, I(0, RET, ""))
    ensures Step(w, prog, c) == c.(stack := [], state := w.setReturn(None, c.state), pc := VM_PC_EXIT)
  {
  }

  // ---- jumps by any number, and missing operands ----

  /** Where a jump by `n` from `pc` goes: forward over `n` line starts that are not deeper, back over as many of equal depth,
      or to the next unit. */
  function Target(prog: seq<Unit>, pc: nat, d: nat, n: int): int
    requires pc < |prog|
  {
    if n > 0 then SeekLine(prog, pc + 1, d, n)
    else if n < 0 then OrLost(SeekBack(prog, pc, d, -n), 0)
    else pc + 1
  }

  /** JMP jumps by its operand, whatever it is. */
  lemma StepJmp<V, S>(w: World<V, S>, prog: seq<Unit>, d: nat, nl: bool, data: string, c: Cfg<V, S>)
    requires On(prog, c, d, nl, I(0, JMP, data)) && Atoi(data) > VM_JMP_CONTINUE
    ensures Step(w, prog, c) == Fresh(c, nl).(pc := Norm(prog, Target(prog, c.pc, d, Atoi(data))))
  {
    hide SeekLine, JmpBack, SeekBack, ArgCount, Atoi;
  }

  /** NEL jumps by its operand exactly when the condition register of its depth is not set. */
  lemma StepNelBy<V, S>(w: World<V, S>, prog: seq<Unit>, d: nat, nl: bool, data: string, c: Cfg<V, S>)
    requires On(prog, c, d, nl, I(0, NEL, data)) && d < |c.ireg| && Atoi(data) > VM_JMP_CONTINUE
    ensures var n := if c.ireg[d] then 0 else Atoi(data);
            Step(w, prog, c) == Fresh(c, nl).(pc := Norm(prog, Target(prog, c.pc, d, n)))
  {
    hide SeekLine, JmpBack, SeekBack, ArgCount, Atoi;
  }

  /** Without an operand on the stack an assignment does nothing. */
  lemma StepOutEmpty<V, S>(w: World<V, S>, prog: seq<Unit>, d: nat, x: string, c: Cfg<V, S>)
    requires On(prog, c, d, false, I(0, OUT, x)) && c.stack == []
    ensures Step(w, prog, c) == c.(pc := Norm(prog, c.pc + 1))
  {
    hide SeekLine, JmpBack, SeekBack, ArgCount, Atoi;
  }

  /** Without an operand a test counts as false. */
  lemma StepJezEmpty<V, S>(w: World<V, S>, prog: seq<Unit>, d: nat, data: string, c: Cfg<V, S>)
    requires On(prog, c, d, false, I(0, JEZ, data)) && c.stack == [] && d < |c.ireg| && Atoi(data) > 0
    ensures Step(w, prog, c) == c.(ireg := c.ireg[d := true], pc := Norm(prog, SeekLine(prog, c.pc + 1, d, Atoi(data))))
  {
    hide SeekLine, JmpBack, SeekBack, ArgCount, Atoi;
  }

  /** Operands an operator takes: all that were counted if it serves that many, none otherwise; names and literals take
      none, except that a name that begins with a dot takes its host. */
  lemma TakesServed(ins: Ins, data: string, n: nat)
    ensures OkNode(ins, data, n) ==> Takes(ins, data, n) == n
    ensures ins == OPT || ins == SLC || ins == NUM || ins == STR || ins == BYT ==>
      (!OkNode(ins, data, n) ==> Takes(ins, data, n) == 0)
    ensures ins == RUN || ins == DCT || ins == TPL ==> Takes(ins, data, n) == n
    ensures ins == REF ==> Takes(ins, data, n) == if |data| > 0 && data[0] == '.' then 1 else 0
  {
  }

  // ---- the loop register of a `for` block ----

  lemma LRegName(d: nat)
    requires d < REGIST_SIZE
    ensures |LReg(d)| == 3 && IsLReg(LReg(d)) && LIndex(LReg(d)) == d
    ensures var name := LReg(d) + ".__next__"; IsLReg(name) && LIndex(name) == d && name[4..] == "__next__"
  {
  }

  lemma StepKeep<V, S>(w: World<V, S>, prog: seq<Unit>, d: nat, st: seq<V>, v: V, c: Cfg<V, S>)
    requires d < REGIST_SIZE && On(prog, c, d, false, I(0, OUT, LReg(d))) && c.stack == st + [v]
    requires |c.lreg| == REGIST_SIZE
    ensures Step(w, prog, c) == c.(stack := st, lreg := if w.isObject(v) then c.lreg[d := Some(v)] else c.lreg,
              pc := Norm(prog, c.pc + 1))
  {
    LRegName(d);
    assert (st + [v])[..|st|] == st;
  }

  lemma StepNext<V, S>(w: World<V, S>, prog: seq<Unit>, d: nat, c: Cfg<V, S>)
    requires d < REGIST_SIZE && On(prog, c, d, true, I(0, RUN, LReg(d) + ".__next__"))
    requires |c.lreg| == REGIST_SIZE && ArgCount(prog, c.pc, 0) == 0
    ensures Computed(c.(stack := []), 0,
              if c.lreg[d].Some? then w.method_(c.lreg[d].value, "__next__", [], c.state) else Err(c.state),
              Norm(prog, c.pc + 1), Step(w, prog, c))
  {
    hide Apply, Control, Finish, Settle, Computed, ArgCount, Norm;
    var f := Fresh(c, true);
    ApplyNext(w, prog, d, prog[c.pc], f);
    var r := if c.lreg[d].Some? then w.method_(c.lreg[d].value, "__next__", [], c.state) else Err(c.state);
    FinishSettle(prog, c.pc, 0, f, r, c.(stack := []));
  }

  lemma ApplyNext<V, S>(w: World<V, S>, prog: seq<Unit>, d: nat, u: Unit, c: Cfg<V, S>)
    requires d < REGIST_SIZE && 0 <= c.pc < |prog| && u.ins == RUN && u.data == LReg(d) + ".__next__" && u.invoke == 0
    requires |c.lreg| == REGIST_SIZE && ArgCount(prog, c.pc, 0) == 0 && c.stack == []
    ensures Apply(w, prog, c, u)
      == Settle(c, if c.lreg[d].Some? then w.method_(c.lreg[d].value, "__next__", [], c.state) else Err(c.state))
  {
    hide Settle;
    LRegName(d);
    var e: seq<V> := [];
    assert e[0..] == e && e[..0] == e;
    assert c.(stack := []) == c;
  }

  lemma StepEst<V, S>(w: World<V, S>, prog: seq<Unit>, d: nat, x: string, c: Cfg<V, S>)
    requires On(prog, c, d, false, I(0, EST, x))
    ensures Step(w, prog, c) == c.(stack := c.stack + [w.flag(w.present(x, c.state))], pc := Norm(prog, c.pc + 1))
  {
  }

  lemma StepDrop<V, S>(w: World<V, S>, prog: seq<Unit>, d: nat, c: Cfg<V, S>)
    requires d < REGIST_SIZE && On(prog, c, d, true, I(0, DEL, LReg(d))) && |c.lreg| == REGIST_SIZE
    ensures Step(w, prog, c) == c.(stack := [], lreg := c.lreg[d := None], pc := Norm(prog, c.pc + 1))
  {
    LRegName(d);
  }
}
