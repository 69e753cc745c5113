/** Instruction units, assembler text and the assembler that turns one into the other. */
module Bytecode {

  datatype Option<+T> = None | Some(value: T)

  /** The instructions the compiler back end emits for the modelled language, plus
      `GER`, which the loop search of the VM looks for. */
  datatype Ins =
    | REF | RUN | STR | OUT | NUM | JMP | JEZ | OPT | RET | NEL | DEL | EST | BRK | CTN
    | BYT | LST | GER | DCT | SLC | TPL | NLS

  /** One instruction unit: block depth and invoke depth are four bits wide, and the
      new-line bit marks the first unit of a source line. */
  datatype Unit = Unit(block: nat, invoke: nat, newLine: bool, ins: Ins, data: string)

  /** One line of assembler: `B<depth>` or `<invoke> <INS> <data>`. */
  datatype Asm = B(depth: nat) | I(invoke: nat, ins: Ins, data: string)

  /** Depths are masked to four bits when a unit is filled in. */
  function Pack(block: nat, newLine: bool, a: Asm): Unit
    requires a.I?
  {
    Unit(block % 16, a.invoke % 16, newLine, a.ins, a.data)
  }

  /** The assembler: `B` lines set the block depth and raise the new-line flag, which
      the next instruction line takes. */
  function Assemble(code: seq<Asm>, block: nat := 0, newLine: bool := false): seq<Unit>
    decreases |code|
  {
    if code == [] then []
    else match code[0]
      case B(d) => Assemble(code[1..], d, true)
      case I(_, _, _) => [Pack(block, newLine, code[0])] + Assemble(code[1..], block, false)
  }

  /** What every emitted piece of assembler looks like: empty, or starting with a `B` line. */
  predicate StartsLine(code: seq<Asm>) {
    code == [] || code[0].B?
  }

  /** Assembling source line by source line, each with a fresh assembler, gives the same
      units as assembling the whole text at once. */
  lemma {:induction false} AssembleConcat(x: seq<Asm>, y: seq<Asm>, block: nat, newLine: bool)
    requires StartsLine(y)
    ensures Assemble(x + y, block, newLine) == Assemble(x, block, newLine) + Assemble(y)
    decreases |x|
  {
    if x == [] {
      assert x + y == y;
    } else {
      assert (x + y)[1..] == x[1..] + y;
      match x[0]
      case B(d) => AssembleConcat(x[1..], y, d, true);
      case I(_, _, _) => AssembleConcat(x[1..], y, block, false);
    }
  }

  /** Instruction lines only, as produced for one expression. */
  predicate AllI(code: seq<Asm>) {
    forall a :: a in code ==> a.I?
  }

  /** The units of a run of instruction lines inside one source line; the first one carries
      the new-line bit exactly when it starts that line. */
  function Units(block: nat, newLine: bool, code: seq<Asm>): (r: seq<Unit>)
    requires AllI(code)
    ensures |r| == |code|
    ensures forall i :: 0 <= i < |code| ==> r[i] == Pack(block, newLine && i == 0, code[i])
    decreases |code|
  {
    if code == [] then []
    else [Pack(block, newLine, code[0])] + Units(block, false, code[1..])
  }

  /** The units of one whole source line. */
  function Line(block: nat, code: seq<Asm>): seq<Unit>
    requires AllI(code)
  {
    Units(block, true, code)
  }

  lemma LineLength(block: nat, code: seq<Asm>)
    requires AllI(code)
    ensures |Line(block, code)| == |code|
  {
  }

  /** Every unit of a line comes from one of its instructions. */
  lemma UnitOfLine(d: nat, code: seq<Asm>, u: Unit) returns (a: Asm)
    requires AllI(code) && u in Line(d, code)
    ensures a in code && a.I? && u.block == d % 16 && u.invoke == a.invoke % 16 && u.ins == a.ins && u.data == a.data
  {
    var i :| 0 <= i < |code| && u == Line(d, code)[i];
    a := code[i];
  }

  lemma {:induction false} AssembleUnits(block: nat, newLine: bool, code: seq<Asm>)
    requires AllI(code)
    ensures Assemble(code, block, newLine) == Units(block, newLine, code)
    decreases |code|
  {
    if code != [] {
      assert code[0] in code;
      AssembleUnits(block, false, code[1..]);
    }
  }

  /** `B<depth>` followed by instruction lines assembles to one source line. */
  lemma AssembleLine(block: nat, code: seq<Asm>)
    requires AllI(code)
    ensures Assemble([B(block)] + code) == Line(block, code)
  {
    assert ([B(block)] + code)[1..] == code;
    AssembleUnits(block, true, code);
  }

  /** The units of a program from the assembler texts of its source lines, each assembled on its own. */
  function UnitsOf(texts: seq<seq<Asm>>): seq<Unit> {
    if texts == [] then [] else UnitsOf(texts[..|texts| - 1]) + Assemble(texts[|texts| - 1])
  }

  lemma UnitsStep(texts: seq<seq<Asm>>, k: nat)
    requires k < |texts|
    ensures UnitsOf(texts[..k + 1]) == UnitsOf(texts[..k]) + Assemble(texts[k])
  {
    assert texts[..k + 1][..k] == texts[..k];
  }
}
