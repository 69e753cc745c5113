/** The virtual machine frame as an object whose fields each instruction updates in place, with
    its scan loops; one executed unit is one step of the functional machine. */
module Frame {
  import opened Bytecode
  import opened Syntax
  import opened Semantics
  import opened CodeGen
  import opened Machine

  class VMFrame<V, S> {
    const w: World<V, S>
    const prog: seq<Unit>
    var pc: int
    var jmp: int
    var stack: seq<V>
    var state: S
    var error: bool
    const ireg: array<bool>
    const oreg: array<Option<seq<V>>>
    const lreg: array<Option<V>>

    /** The frame as a value. */
    ghost function Abs(): Cfg<V, S>
      reads this, ireg, oreg, lreg
    {
      Cfg(pc, stack, ireg[..], oreg[..], lreg[..], state, error)
    }

    /** The register files do not overlap. */
    ghost predicate Valid() {
      var i: object, o: object, l: object := ireg, oreg, lreg;
      i != o && o != l && i != l
    }

    predicate Running()
      reads this
    {
      0 <= pc < |prog|
    }

    constructor (w: World<V, S>, prog: seq<Unit>, s: S)
      ensures this.w == w && this.prog == prog && fresh(ireg) && fresh(oreg) && fresh(lreg)
      ensures Valid() && Abs() == Init(prog, s)
    {
      this.w, this.prog, this.state := w, prog, s;
      pc := Norm(prog, 0);
      jmp, stack, error := 0, [], false;
      ireg := new bool[REGIST_SIZE](_ => false);
      oreg := new Option<seq<V>>[OREG_SIZE](_ => None);
      lreg := new Option<V>[REGIST_SIZE](_ => None);
      new;
      assert ireg[..] == seq(REGIST_SIZE, _ => false);
      assert oreg[..] == seq(OREG_SIZE, _ => None);
      assert lreg[..] == seq(REGIST_SIZE, _ => None);
    }

    // ---- scans ----

    /** Forward scan of a positive jump: counts line starts that are not deeper. */
    method ScanForward(n: nat) returns (to: nat)
      requires Running() && n >= 1
      ensures to == SeekLine(prog, pc + 1, prog[pc].block, n)
    {
      var offset, blockNum := 0, 0;
      while true
        invariant 0 <= offset && pc + offset < |prog| && 0 <= blockNum < n
        invariant SeekLine(prog, pc + 1, prog[pc].block, n)
               == SeekLine(prog, pc + offset + 1, prog[pc].block, n - blockNum)
        decreases |prog| - offset
      {
        offset := offset + 1;
        if pc + offset >= |prog| {
          break;
        }
        if prog[pc + offset].newLine && prog[pc + offset].block <= prog[pc].block {
          blockNum := blockNum + 1;
        }
        if blockNum >= n {
          break;
        }
      }
      to := pc + offset;
    }

    /** Backward scan of a negative jump: counts line starts at the same depth. */
    method ScanBackward(n: nat) returns (to: Option<nat>)
      requires Running() && n >= 1
      ensures to == SeekBack(prog, pc, prog[pc].block, n)
    {
      var i, blockNum := pc, 0;
      while i > 0
        invariant 0 <= i <= pc && 0 <= blockNum < n
        invariant SeekBack(prog, pc, prog[pc].block, n) == SeekBack(prog, i, prog[pc].block, n - blockNum)
      {
        i := i - 1;
        if prog[i].newLine && prog[i].block == prog[pc].block {
          blockNum := blockNum + 1;
        }
        if blockNum >= n {
          return Some(i);
        }
      }
      to := None;
    }

    /** Back jump of the loop a `break` or `continue` leaves, found by two scans. */
    method ScanLoopEnd() returns (to: Option<nat>)
      requires Running()
      ensures to == JmpBack(prog, pc)
    {
      var i, got := pc, None;
      while i > 0 && got.None?
        invariant 0 <= i <= pc
        invariant got.None? ==> LoopDepth(prog, pc, prog[pc].block) == LoopDepth(prog, i, prog[pc].block)
        invariant got.Some? ==> LoopDepth(prog, pc, prog[pc].block) == got
        decreases i, got.None?
      {
        i := i - 1;
        var u := prog[i];
        if u.invoke == 0 && u.ins == JEZ && |u.data| > 0 && u.data[0] == '2'
           && !(i > 0 && prog[i - 1].ins == GER) && u.block < prog[pc].block {
          got := Some(u.block);
        }
      }
      if got.None? {
        return None;
      }
      var j := pc + 1;
      while j < |prog|
        invariant pc < j <= |prog|
        invariant SeekEnd(prog, pc + 1, got.value) == SeekEnd(prog, j, got.value)
      {
        if prog[j].block == got.value && IsBack(prog[j]) {
          return Some(j);
        }
        j := j + 1;
      }
      to := None;
    }

    /** Number of operands of the current unit, counted backwards by invoke depth. */
    method GetInputArgNum() returns (num: nat)
      requires Running()
      ensures num == ArgCount(prog, pc, prog[pc].invoke)
    {
      num := 0;
      var i, k := pc, prog[pc].invoke;
      while i > 0
        invariant 0 <= i <= pc
        invariant num + ArgCount(prog, i, k) == ArgCount(prog, pc, k)
      {
        i := i - 1;
        var u := prog[i];
        if u.invoke == k + 1 {
          if u.ins == OUT || u.ins == NLS {
            continue;
          }
          num := num + 1;
        }
        if u.newLine || u.invoke <= k {
          return;
        }
      }
    }

    // ---- one unit ----

    /** Takes up to `n` operands off the stack, deepest first. */
    method PopArgs(n: nat) returns (args: seq<V>)
      modifies this`stack
      ensures var rest := if n <= |old(stack)| then |old(stack)| - n else 0;
              stack == old(stack)[..rest] && args == old(stack)[rest..]
    {
      args := [];
      var i := 0;
      while i < n && stack != []
        invariant 0 <= i <= n && i <= |old(stack)|
        invariant stack == old(stack)[..|old(stack)| - i] && args == old(stack)[|old(stack)| - i..]
        decreases n - i
      {
        args := [stack[|stack| - 1]] + args;
        stack := stack[..|stack| - 1];
        i := i + 1;
      }
    }

    method Settled(r: Res<V, S>) returns (ret: Option<V>)
      modifies this`state, this`error
      ensures state == r.s && error == (old(error) || r.Err?)
      ensures ret == if r.Ok? then Some(r.v) else None
    {
      state := r.s;
      if r.Ok? {
        ret := Some(r.v);
      } else {
        error, ret := true, None;
      }
    }

    /** Names, literals, calls, operators, slices, tuples and dicts. */
    method HandleNode(u: Unit) returns (ret: Option<V>)
      requires Running() && u == prog[pc] && IsNode(u.ins) && !(u.ins == RUN && IsLReg(u.data))
      modifies this`stack, this`state, this`error
      ensures var a := Apply(w, prog, old(Abs()), u); a.c == Abs() && a.ret == ret && a.jmp == 0
    {
      var n := GetInputArgNum();
      var args := PopArgs(Takes(u.ins, u.data, n));
      ret := Settled(w.apply(u.ins, u.data, args, state));
    }

    /** A method call on a loop register. */
    method HandleRegister(u: Unit) returns (ret: Option<V>)
      requires Running() && u == prog[pc] && u.ins == RUN && IsLReg(u.data)
      modifies this`stack, this`state, this`error
      ensures var a := Apply(w, prog, old(Abs()), u); a.c == Abs() && a.ret == ret && a.jmp == 0
    {
      hide ArgCount, IsLReg;
      var n := GetInputArgNum();
      var args := PopArgs(n);
      var i := LIndex(u.data);
      var r := Err(state);
      if i < lreg.Length && lreg[i].Some? {
        var name := if |u.data| > 4 then u.data[4..] else "";
        r := w.method_(lreg[i].value, name, args, state);
      }
      ret := Settled(r);
    }

    /** OUT. */
    method HandleOut(u: Unit) returns (ret: Option<V>)
      requires Valid() && u.ins == OUT
      modifies this`stack, this`state, this`error, lreg
      ensures var a := Control(w, old(Abs()), u); a.c == Abs() && a.ret == ret && a.jmp == 0
    {
      ret := None;
      if stack == [] {
        return;
      }
      var v := stack[|stack| - 1];
      stack := stack[..|stack| - 1];
      if u.invoke > 0 {
        ret := Some(w.keyword(u.data, v));
      } else if IsLReg(u.data) {
        if w.isObject(v) && LIndex(u.data) < lreg.Length {
          lreg[LIndex(u.data)] := Some(v);
        }
      } else {
        var r := w.assign(u.data, v, state);
        state, error := r.s, error || r.Fail?;
      }
    }

    /** LST and NLS. */
    method HandleList(u: Unit) returns (ret: Option<V>)
      requires Valid() && u.ins in {LST, NLS}
      modifies oreg
      ensures var a := Control(w, old(Abs()), u); a.c == Abs() && a.ret == ret && a.jmp == 0
    {
      ret := None;
      if u.invoke < oreg.Length {
        if u.ins == LST {
          oreg[u.invoke] := Some([]);
        } else if oreg[u.invoke].Some? {
          ret := Some(w.list(oreg[u.invoke].value));
          oreg[u.invoke] := None;
        }
      }
    }

    /** JEZ. */
    method HandleTest(u: Unit)
      requires Valid() && u.ins == JEZ
      modifies this`stack, this`jmp, ireg
      ensures var a := Control(w, old(Abs()), u); a.c == Abs() && a.ret == None && a.jmp == jmp
    {
      var b := false;
      if stack != [] {
        b, stack := w.truth(stack[|stack| - 1]), stack[..|stack| - 1];
      }
      if u.block < ireg.Length {
        ireg[u.block] := !b;
      }
      jmp := if b then 0 else Atoi(u.data);
    }

    /** RET. */
    method HandleReturn(u: Unit)
      requires Valid() && u.ins == RET
      modifies this`stack, this`state, this`jmp
      ensures var a := Control(w, old(Abs()), u); a.c == Abs() && a.ret == None && a.jmp == jmp
    {
      var v := None;
      if stack != [] {
        v, stack := Some(stack[|stack| - 1]), stack[..|stack| - 1];
      }
      state := w.setReturn(v, state);
      jmp := VM_JMP_EXIT;
    }

    /** JMP, NEL, BRK and CTN. */
    method HandleJump(u: Unit)
      requires Valid() && u.ins in {JMP, NEL, BRK, CTN}
      modifies this`jmp
      ensures var a := Control(w, old(Abs()), u); a.c == Abs() && a.ret == None && a.jmp == jmp
    {
      jmp := 0;
      if u.ins == JMP {
        jmp := Atoi(u.data);
      } else if u.ins == NEL {
        if u.block < ireg.Length && !ireg[u.block] {
          jmp := Atoi(u.data);
        }
      } else if u.ins == BRK {
        jmp := VM_JMP_BREAK;
      } else {
        jmp := VM_JMP_CONTINUE;
      }
    }

    /** DEL and EST. */
    method HandleVar(u: Unit) returns (ret: Option<V>)
      requires Valid() && u.ins in {DEL, EST}
      modifies this`state, this`error, lreg
      ensures var a := Control(w, old(Abs()), u); a.c == Abs() && a.ret == ret && a.jmp == 0
    {
      ret := None;
      if u.ins == EST {
        ret := Some(w.flag(w.present(u.data, state)));
      } else if IsLReg(u.data) {
        if LIndex(u.data) < lreg.Length {
          lreg[LIndex(u.data)] := None;
        }
      } else {
        var r := w.remove(u.data, state);
        state, error := r.s, error || r.Fail?;
      }
    }

    method Dispatch(u: Unit) returns (ret: Option<V>)
      requires Valid() && Running() && u == prog[pc]
      modifies this`stack, this`state, this`error, this`jmp, ireg, oreg, lreg
      ensures var a := Handle(w, prog, old(Abs()), u); a.c == Abs() && a.ret == ret && a.jmp == jmp
    {
      hide Apply, Control;
      jmp, ret := 0, None;
      ControlGer(w, Abs(), u);
      if u.ins == RUN && IsLReg(u.data) {
        ret := HandleRegister(u);
      } else if IsNode(u.ins) {
        ret := HandleNode(u);
      } else if u.ins == OUT {
        ret := HandleOut(u);
      } else if u.ins == LST || u.ins == NLS {
        ret := HandleList(u);
      } else if u.ins == DEL || u.ins == EST {
        ret := HandleVar(u);
      } else if u.ins == JEZ {
        HandleTest(u);
      } else if u.ins == RET {
        HandleReturn(u);
      } else if u.ins != GER {
        HandleJump(u);
      }
    }

    /** Where execution goes on after the current unit. */
    method NextPc() returns (to: int)
      requires Running()
      ensures to == PcNext(prog, pc, jmp)
    {
      if jmp == VM_JMP_EXIT {
        return VM_PC_EXIT;
      }
      if jmp == VM_JMP_BREAK || jmp == VM_JMP_CONTINUE {
        var j := ScanLoopEnd();
        to := if j.Some? then j.value + (if jmp == VM_JMP_BREAK then 1 else 0) else PC_LOST;
      } else if jmp > 0 {
        to := ScanForward(jmp);
      } else if jmp < 0 {
        var j := ScanBackward(-jmp);
        to := if j.Some? then j.value else PC_LOST;
      } else {
        to := pc + 1;
      }
      if to >= |prog| {
        to := VM_PC_EXIT;
      }
    }

    /** Runs the current unit. */
    method RunInstructUnit()
      requires Valid() && Running()
      modifies this, ireg, oreg, lreg
      ensures Abs() == Step(w, prog, old(Abs()))
    {
      hide Handle, PcNext;
      var u := prog[pc];
      ghost var c0 := Fresh(Abs(), u.newLine);
      if u.newLine {
        stack, error := [], false;
      }
      assert Abs() == c0;
      var ret := Dispatch(u);
      if error {
        jmp := VM_JMP_EXIT;
      }
      if ret.Some? {
        var k := u.invoke - 1;
        if 0 <= k < oreg.Length && oreg[k].Some? {
          oreg[k] := Some(oreg[k].value + [ret.value]);
        } else {
          stack := stack + [ret.value];
        }
      }
      var next := NextPc();
      jmp := 0;
      pc := next;
    }

    /** Runs at most `budget` units. */
    method Run(budget: nat)
      requires Valid()
      modifies this, ireg, oreg, lreg
      ensures Abs() == Steps(w, prog, old(Abs()), budget)
    {
      hide Step;
      var n := 0;
      assert Steps(w, prog, Abs(), 0) == Abs();
      while n < budget
        invariant 0 <= n <= budget && Abs() == Steps(w, prog, old(Abs()), n)
      {
        StepsSnoc(w, prog, old(Abs()), n);
        Stay(w, prog, Abs());
        if 0 <= pc < |prog| {
          RunInstructUnit();
        }
        n := n + 1;
      }
    }
  }

  lemma ControlGer<V, S>(w: World<V, S>, c: Cfg<V, S>, u: Unit)
    ensures u.ins == GER ==> Control(w, c, u) == Act(c, None, 0)
  {
  }

  lemma Stay<V, S>(w: World<V, S>, prog: seq<Unit>, c: Cfg<V, S>)
    ensures !(0 <= c.pc < |prog|) ==> Step(w, prog, c) == c
  {
    hide Handle;
  }
}
