/** The virtual machine as a function from one frame state to the next, with the four scans
    it resolves jumps and operand counts with. Positions are unit indices. */
module Machine {
  import opened Bytecode
  import opened Syntax
  import opened Semantics
  import opened CodeGen

  const REGIST_SIZE := 10   // condition and loop registers of a frame
  const OREG_SIZE := 16     // list registers of a frame

  const VM_PC_EXIT := -99999
  const VM_JMP_EXIT := -999
  const VM_JMP_BREAK := -998
  const VM_JMP_CONTINUE := -997

  /** A scan left the unit array: the C code has no defined behaviour from here. */
  const PC_LOST := -1

  /** Value of a decimal operand text. */
  function Atoi(s: string): int {
    if s == "" then 0
    else if s[0] == '-' then -Digits(s[1..])
    else Digits(s)
  }

  function Digits(s: string): int {
    if s == "" then 0 else Digits(s[..|s| - 1]) * 10 + (s[|s| - 1] as int - '0' as int)
  }

  // ---- scans ----

  /** Index of the `n`-th new line at block depth at most `d` from `i` on, or the end. */
  function SeekLine(prog: seq<Unit>, i: nat, d: nat, n: nat): (r: nat)
    requires i <= |prog| && n >= 1
    ensures i <= r <= |prog|
    decreases |prog| - i
  {
    if i == |prog| then i
    else if prog[i].newLine && prog[i].block <= d then
      if n == 1 then i else SeekLine(prog, i + 1, d, n - 1)
    else SeekLine(prog, i + 1, d, n)
  }

  /** Index of the `n`-th new line at block depth exactly `d`, searching backwards from before `i`. */
  function SeekBack(prog: seq<Unit>, i: nat, d: nat, n: nat): (r: Option<nat>)
    requires i <= |prog| && n >= 1
    ensures r.Some? ==> r.value < i
  {
    if i == 0 then None
    else if prog[i - 1].newLine && prog[i - 1].block == d then
      if n == 1 then Some(i - 1) else SeekBack(prog, i - 1, d, n - 1)
    else SeekBack(prog, i - 1, d, n)
  }

  /** A unit `0 JEZ 2...`, the test of a loop (or of a `try`, which `GER` precedes). */
  predicate IsTest(u: Unit) {
    u.ins == JEZ && u.invoke == 0 && |u.data| > 0 && u.data[0] == '2'
  }

  predicate IsLoopTest(prog: seq<Unit>, i: nat)
    requires i < |prog|
  {
    IsTest(prog[i]) && !(i > 0 && prog[i - 1].ins == GER)
  }

  /** Block depth of the nearest loop test before `i` that is shallower than `d`. */
  function LoopDepth(prog: seq<Unit>, i: nat, d: nat): (r: Option<nat>)
    requires i <= |prog|
  {
    if i == 0 then None
    else if IsLoopTest(prog, i - 1) && prog[i - 1].block < d then Some(prog[i - 1].block)
    else LoopDepth(prog, i - 1, d)
  }

  /** A unit `JMP -1...`, the back jump that closes a loop. */
  predicate IsBack(u: Unit) {
    u.ins == JMP && |u.data| > 1 && u.data[0] == '-' && u.data[1] == '1'
  }

  /** Index of the first back jump at block depth `d` from `i` on. */
  function SeekEnd(prog: seq<Unit>, i: nat, d: nat): (r: Option<nat>)
    requires i <= |prog|
    ensures r.Some? ==> i <= r.value < |prog|
    decreases |prog| - i
  {
    if i == |prog| then None
    else if prog[i].block == d && IsBack(prog[i]) then Some(i)
    else SeekEnd(prog, i + 1, d)
  }

  /** Where `break` and `continue` at `pc` look for the end of their loop. */
  function JmpBack(prog: seq<Unit>, pc: nat): (r: Option<nat>)
    requires pc < |prog|
    ensures r.Some? ==> pc < r.value < |prog|
  {
    match LoopDepth(prog, pc, prog[pc].block)
    case None => None
    case Some(d) => SeekEnd(prog, pc + 1, d)
  }

  /** Number of operands found by scanning backwards from before `i` for an operator at
      invoke depth `k`; `OUT` and `NLS` at the operand depth are passed over. */
  function ArgCount(prog: seq<Unit>, i: nat, k: nat): nat
    requires i <= |prog|
  {
    if i == 0 then 0
    else
      var u := prog[i - 1];
      if u.invoke == k + 1 && (u.ins == OUT || u.ins == NLS) then ArgCount(prog, i - 1, k)
      else
        (if u.invoke == k + 1 then 1 else 0)
        + (if u.newLine || u.invoke <= k then 0 else ArgCount(prog, i - 1, k))
  }

  // ---- one step ----

  datatype Cfg<V, S> = Cfg(
    pc: int,
    stack: seq<V>,
    ireg: seq<bool>,
    oreg: seq<Option<seq<V>>>,
    lreg: seq<Option<V>>,
    state: S,
    error: bool)

  /** What one instruction handler leaves behind: the frame, the returned value and `jmp`. */
  datatype Act<V, S> = Act(c: Cfg<V, S>, ret: Option<V>, jmp: int)

  /** Number of operands an instruction takes from the stack when `n` were counted. */
  function Takes(ins: Ins, data: string, n: nat): nat {
    match ins
    case REF => if |data| > 0 && data[0] == '.' then 1 else 0
    case OPT => if n <= 2 then n else 0
    case SLC => if 2 <= n <= 3 then n else 0
    case RUN => n
    case DCT => n
    case TPL => n
    case _ => 0
  }

  function Set<T>(a: seq<T>, i: nat, v: T): (r: seq<T>)
    ensures |r| == |a|
  {
    if i < |a| then a[i := v] else a
  }

  function Get<T>(a: seq<Option<T>>, i: nat): Option<T> {
    if i < |a| then a[i] else None
  }

  function LIndex(name: string): nat
    requires IsLReg(name)
  {
    name[2] as int - '0' as int
  }

  /** The names that mean a loop register are `$l0` to `$l9` and what continues them, each its own register. */
  lemma RegisterNames(name: string, d: nat)
    requires d < 10
    ensures LReg(d) == ['$', 'l', ('0' as int + d) as char]
    ensures LReg(d) <= name <==> IsLReg(name) && LIndex(name) == d
  {
    assert LReg(d) <= name <==> |name| >= 3 && name[0] == '$' && name[1] == 'l' && name[2] == LReg(d)[2];
  }

  /** A computed result becomes the new frame; an error is recorded. */
  function Settle<V, S>(c: Cfg<V, S>, r: Res<V, S>): Act<V, S> {
    match r
    case Ok(v, s) => Act(c.(state := s), Some(v), 0)
    case Err(s) => Act(c.(state := s, error := true), None, 0)
  }

  function Store<V, S>(c: Cfg<V, S>, r: Done<S>): Act<V, S> {
    Act(c.(state := r.s, error := c.error || r.Fail?), None, 0)
  }

  /** REF, NUM, STR, BYT, RUN, OPT, SLC, DCT and TPL. */
  function Apply<V, S>(w: World<V, S>, prog: seq<Unit>, c: Cfg<V, S>, u: Unit): Act<V, S>
    requires 0 <= c.pc < |prog|
  {
    var n := Takes(u.ins, u.data, ArgCount(prog, c.pc, u.invoke));
    var rest := if n <= |c.stack| then |c.stack| - n else 0;
    var c1 := c.(stack := c.stack[..rest]);
    if u.ins == RUN && IsLReg(u.data) then
      match Get(c.lreg, LIndex(u.data))
      case None => Settle(c1, Err(c.state))
      case Some(host) =>
        Settle(c1, w.method_(host, if |u.data| > 4 then u.data[4..] else "", c.stack[rest..], c.state))
    else
      Settle(c1, w.apply(u.ins, u.data, c.stack[rest..], c.state))
  }

  predicate IsNode(ins: Ins) {
    ins in {REF, NUM, STR, BYT, RUN, OPT, SLC, DCT, TPL}
  }

  /** The remaining instructions. */
  function Control<V, S>(w: World<V, S>, c: Cfg<V, S>, u: Unit): Act<V, S> {
    var top := |c.stack| - 1;
    match u.ins
    case OUT =>
      if top < 0 then Act(c, None, 0)
      else
        var v, c1 := c.stack[top], c.(stack := c.stack[..top]);
        if u.invoke > 0 then Act(c1, Some(w.keyword(u.data, v)), 0)
        else if IsLReg(u.data) then
          Act(if w.isObject(v) then c1.(lreg := Set(c.lreg, LIndex(u.data), Some(v))) else c1, None, 0)
        else Store(c1, w.assign(u.data, v, c.state))
    case JMP => Act(c, None, Atoi(u.data))
    case JEZ =>
      var b := top >= 0 && w.truth(c.stack[top]);
      Act(c.(stack := if top < 0 then [] else c.stack[..top], ireg := Set(c.ireg, u.block, !b)), None,
          if b then 0 else Atoi(u.data))
    case NEL => Act(c, None, if u.block < |c.ireg| && !c.ireg[u.block] then Atoi(u.data) else 0)
    case DEL =>
      if IsLReg(u.data) then Act(c.(lreg := Set(c.lreg, LIndex(u.data), None)), None, 0)
      else Store(c, w.remove(u.data, c.state))
    case EST => Act(c, Some(w.flag(w.present(u.data, c.state))), 0)
    case BRK => Act(c, None, VM_JMP_BREAK)
    case CTN => Act(c, None, VM_JMP_CONTINUE)
    case RET =>
      var v := if top < 0 then None else Some(c.stack[top]);
      Act(c.(stack := if top < 0 then [] else c.stack[..top], state := w.setReturn(v, c.state)), None, VM_JMP_EXIT)
    case LST => Act(c.(oreg := Set(c.oreg, u.invoke, Some([]))), None, 0)
    case NLS =>
      (match Get(c.oreg, u.invoke)
       case None => Act(c, None, 0)
       case Some(items) => Act(c.(oreg := Set(c.oreg, u.invoke, None)), Some(w.list(items)), 0))
    case _ => Act(c, None, 0)
  }

  function Handle<V, S>(w: World<V, S>, prog: seq<Unit>, c: Cfg<V, S>, u: Unit): Act<V, S>
    requires 0 <= c.pc < |prog|
  {
    if IsNode(u.ins) then Apply(w, prog, c, u) else Control(w, c, u)
  }

  /** A returned value joins the list being built one level up, if there is one, and goes on
      the operand stack otherwise. */
  function Deliver<V, S>(c: Cfg<V, S>, k: nat, v: V): Cfg<V, S> {
    if k > 0 && Get(c.oreg, k - 1).Some? then
      c.(oreg := Set(c.oreg, k - 1, Some(Get(c.oreg, k - 1).value + [v])))
    else c.(stack := c.stack + [v])
  }

  /** Positions past the last unit end the run. */
  function Norm(prog: seq<Unit>, pc: int): int {
    if pc >= |prog| then VM_PC_EXIT else pc
  }

  function OrLost(r: Option<nat>, add: nat): int {
    if r.Some? then r.value + add else PC_LOST
  }

  function PcNext(prog: seq<Unit>, pc: nat, jmp: int): int
    requires pc < |prog|
  {
    if jmp == VM_JMP_EXIT then VM_PC_EXIT
    else if jmp == VM_JMP_BREAK then Norm(prog, OrLost(JmpBack(prog, pc), 1))
    else if jmp == VM_JMP_CONTINUE then Norm(prog, OrLost(JmpBack(prog, pc), 0))
    else if jmp > 0 then Norm(prog, SeekLine(prog, pc + 1, prog[pc].block, jmp))
    else if jmp < 0 then Norm(prog, OrLost(SeekBack(prog, pc, prog[pc].block, -jmp), 0))
    else Norm(prog, pc + 1)
  }

  /** A new line drops unused operands and clears the error code. */
  function Fresh<V, S>(c: Cfg<V, S>, newLine: bool): Cfg<V, S> {
    if newLine then c.(stack := [], error := false) else c
  }

  function Finish<V, S>(prog: seq<Unit>, pc: nat, k: nat, a: Act<V, S>): Cfg<V, S>
    requires pc < |prog|
  {
    var c1 := if a.ret.Some? then Deliver(a.c, k, a.ret.value) else a.c;
    c1.(pc := PcNext(prog, pc, if a.c.error then VM_JMP_EXIT else a.jmp))
  }

  function Step<V, S>(w: World<V, S>, prog: seq<Unit>, c: Cfg<V, S>): Cfg<V, S>
  {
    if 0 <= c.pc < |prog| then
      var u := prog[c.pc];
      Finish(prog, c.pc, u.invoke, Handle(w, prog, Fresh(c, u.newLine), u))
    else c
  }

  function Steps<V, S>(w: World<V, S>, prog: seq<Unit>, c: Cfg<V, S>, n: nat): Cfg<V, S>
    decreases n
  {
    if n == 0 then c else Steps(w, prog, Step(w, prog, c), n - 1)
  }

  lemma {:induction false} StepsAdd<V, S>(w: World<V, S>, prog: seq<Unit>, c: Cfg<V, S>, n: nat, m: nat)
    ensures Steps(w, prog, c, n + m) == Steps(w, prog, Steps(w, prog, c, n), m)
    decreases n
  {
    hide Step;
    if n > 0 {
      StepsAdd(w, prog, Step(w, prog, c), n - 1, m);
    }
  }

  lemma StepsOne<V, S>(w: World<V, S>, prog: seq<Unit>, c: Cfg<V, S>)
    ensures Steps(w, prog, c, 1) == Step(w, prog, c)
  {
    hide Step;
    assert Steps(w, prog, Step(w, prog, c), 0) == Step(w, prog, c);
  }

  /** One more step at the end. */
  lemma StepsSnoc<V, S>(w: World<V, S>, prog: seq<Unit>, c: Cfg<V, S>, n: nat)
    ensures Steps(w, prog, c, n + 1) == Step(w, prog, Steps(w, prog, c, n))
  {
    hide Step, Steps;
    StepsAdd(w, prog, c, n, 1);
    StepsOne(w, prog, Steps(w, prog, c, n));
  }

  /** One more step at the start. */
  lemma StepsCons<V, S>(w: World<V, S>, prog: seq<Unit>, c: Cfg<V, S>, n: nat)
    ensures Steps(w, prog, c, 1 + n) == Steps(w, prog, Step(w, prog, c), n)
  {
    hide Step, Steps;
    StepsAdd(w, prog, c, 1, n);
    StepsOne(w, prog, c);
  }

  /** A frame as `PikaVMFrame_create` leaves it. */
  function Init<V, S>(prog: seq<Unit>, s: S): Cfg<V, S> {
    Cfg(Norm(prog, 0), [], seq(REGIST_SIZE, _ => false), seq(OREG_SIZE, _ => None),
        seq(REGIST_SIZE, _ => None), s, false)
  }
}
