/** The whole way of a program: source lines, `.pyo` file, loader, virtual machine. */
module Engine {
  import opened Bytecode
  import opened Bytes
  import opened Syntax
  import opened Semantics
  import opened CodeGen
  import opened Machine
  import opened Simulation
  import opened ConstPool
  import opened Image
  import Blocks
  import Compiler
  import Frame

  /** The units of a loaded program. */
  method ReadProgram(l: Loaded, ghost prog: seq<Unit>) returns (units: seq<Unit>)
    requires |l.code| == 4 * |prog|
    requires forall i :: 0 <= i < |prog| ==> ReadUnit(l.code, 4 * i, l.pool) == Some(prog[i])
    ensures units == prog
  {
    hide ReadUnit;
    units := [];
    while 4 * |units| < |l.code|
      invariant |units| <= |prog| && units == prog[..|units|]
      decreases |prog| - |units|
    {
      var u := ReadUnit(l.code, 4 * |units|, l.pool);
      units := units + [u.value];
    }
  }

  /** Programs that fit the file format. */
  ghost predicate Fits(b: Block) {
    && (forall u <- BlockCode(b, 0) :: Operand(u.data))
    && InReach(PoolOf(BlockCode(b, 0))) && |File(BlockCode(b, 0))| < U32
  }

  /** Compiling to a file and loading it gives the program back. */
  method CompileAndLoad(b: Block) returns (units: seq<Unit>)
    requires Fits(b)
    ensures units == BlockCode(b, 0)
  {
    hide BlockCode, Operand, InReach, PoolOf, File, Load, ReadUnit;
    var file := Compiler.CompileFile(b);
    Compiler.LoadedProgram(b);
    var l := Load(file);
    units := ReadProgram(l.value, BlockCode(b, 0));
  }

  /** A terminating program, compiled, written, loaded and run, stops as its meaning says. */
  method CompileAndRun<V, S>(w: World<V, S>, b: Block, s: S, ghost fuel: nat) returns (frame: Frame.VMFrame<V, S>)
    requires Lawful(w) && Blocks.Admissible(b) && Fits(b) && !ExecBlock(w, b, s, fuel).Timeout?
    ensures Blocks.Stopped(frame.Abs(), ExecBlock(w, b, s, fuel))
  {
    hide BlockCode, Fits, Blocks.Admissible, Lawful, ExecBlock, Step, Steps;
    var prog := CompileAndLoad(b);
    frame := new Frame.VMFrame(w, prog, s);
    ghost var c0, n := frame.Abs(), 0;
    ghost var last := Blocks.SimProgram(w, b, s, fuel);
    StepsNone(w, prog, c0);
    while frame.Running()
      invariant fresh(frame) && fresh(frame.ireg) && fresh(frame.oreg) && fresh(frame.lreg)
      invariant frame.Valid() && frame.w == w && frame.prog == prog
      invariant n <= last && frame.Abs() == Steps(w, prog, c0, n)
      decreases last - n
    {
      StepsSnoc(w, prog, c0, n);
      frame.RunInstructUnit();
      n := n + 1;
    }
    StepsAdd(w, prog, c0, n, last - n);
    Blocks.StaysStopped(w, prog, frame.Abs(), last - n);
  }

  lemma StepsNone<V, S>(w: World<V, S>, prog: seq<Unit>, c: Cfg<V, S>)
    ensures Steps(w, prog, c, 0) == c
  {
    hide Step;
  }
}
