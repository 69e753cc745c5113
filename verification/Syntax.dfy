/** Abstract syntax of the modelled language and its big-step meaning. */
module Syntax {
  import opened Bytecode

  /** Expression trees. `Node` covers names, literals, calls, operators, slices, tuples and
      dicts: an instruction with its operand text and its sub-expressions in order.
      `Kw(n, e)` is a keyword argument `n=e` of a call. */
  datatype Expr =
    | Node(ins: Ins, data: string, args: Exprs)
    | ListOf(items: Exprs)
    | Kw(name: string, value: Expr)

  datatype Exprs = ENil | ECons(head: Expr, tail: Exprs)

  datatype Stmt =
    | Pass
    | Do(e: Expr)
    | Assign(x: string, e: Expr)
    | Del(x: string)
    | Return(e: Expr)
    | ReturnNone
    | Break
    | Continue
    | If(c: Expr, body: Block, rest: Else)
    | While(c: Expr, body: Block, rest: Else)
    | For(x: string, e: Expr, body: Block, rest: Else)

  datatype Block = BNil | BCons(head: Stmt, tail: Block)

  datatype Else = NoElse | Else(body: Block) | Elif(c: Expr, body: Block, rest: Else)

  function Len(es: Exprs): nat {
    match es
    case ENil => 0
    case ECons(_, tail) => 1 + Len(tail)
  }

  // Sizes, for inductions over program text.

  function SizeStmt(st: Stmt): nat {
    match st
    case If(_, body, rest) => 1 + SizeBlock(body) + SizeRest(rest)
    case While(_, body, rest) => 1 + SizeBlock(body) + SizeRest(rest)
    case For(_, _, body, rest) => 1 + SizeBlock(body) + SizeRest(rest)
    case _ => 0
  }

  function SizeBlock(b: Block): nat {
    match b
    case BNil => 0
    case BCons(head, tail) => 1 + SizeStmt(head) + SizeBlock(tail)
  }

  function SizeRest(r: Else): nat {
    match r
    case NoElse => 0
    case Else(body) => 1 + SizeBlock(body)
    case Elif(_, body, rest) => 1 + SizeBlock(body) + SizeRest(rest)
  }
}

/** Meaning of programs over an arbitrary world of values `V` and outside states `S`. */
module Semantics {
  import opened Bytecode
  import opened Syntax

  datatype Res<+V, +S> = Ok(v: V, s: S) | Err(s: S)
  datatype Done<+S> = Done(s: S) | Fail(s: S)

  /** Everything the virtual machine asks of the object system. Each operation may change the
      outside state and may raise a run-time error. */
  datatype World<!V, !S> = World(
    apply: (Ins, string, seq<V>, S) -> Res<V, S>,       // value of a node from its argument values
    method_: (V, string, seq<V>, S) -> Res<V, S>,       // method call on a loop register
    list: seq<V> -> V,                                  // a list object with these items
    keyword: (string, V) -> V,                          // a value marked as keyword argument
    truth: V -> bool,                                   // conversion made by JEZ
    isObject: V -> bool,                                // only objects go to a loop register
    flag: bool -> V,                                    // the integer 0 or 1
    assign: (string, V, S) -> Done<S>,                  // OUT to a variable
    remove: (string, S) -> Done<S>,                     // DEL of a variable
    present: (string, S) -> bool,                       // variable exists and is not None
    setReturn: (Option<V>, S) -> S)                     // RET, with or without a value

  /** The only law asked of a world: 0 is false and 1 is true. */
  predicate Lawful<V, S>(w: World<V, S>) {
    w.truth(w.flag(true)) && !w.truth(w.flag(false))
  }

  function Eval<V, S>(w: World<V, S>, e: Expr, s: S): Res<V, S> {
    match e
    case Node(ins, data, args) =>
      (match EvalAll(w, args, s)
       case Ok(vs, s1) => w.apply(ins, data, vs, s1)
       case Err(s1) => Err(s1))
    case ListOf(items) =>
      (match EvalAll(w, items, s)
       case Ok(vs, s1) => Ok(w.list(vs), s1)
       case Err(s1) => Err(s1))
    case Kw(name, value) =>
      match Eval(w, value, s)
      case Ok(v, s1) => Ok(w.keyword(name, v), s1)
      case Err(s1) => Err(s1)
  }

  /** Values of a list of expressions, left to right. */
  function EvalAll<V, S>(w: World<V, S>, es: Exprs, s: S): (r: Res<seq<V>, S>)
    ensures r.Ok? ==> |r.v| == Len(es)
  {
    match es
    case ENil => Ok([], s)
    case ECons(head, tail) =>
      match Eval(w, head, s)
      case Err(s1) => Err(s1)
      case Ok(v, s1) =>
        match EvalAll(w, tail, s1)
        case Err(s2) => Err(s2)
        case Ok(vs, s2) => Ok([v] + vs, s2)
  }

  /** How a statement ends. `Timeout` means that the loops used up `fuel`. */
  datatype Out<+S> =
    | Normal(s: S) | Broke(s: S) | Continued(s: S) | Halted(s: S, error: bool) | Timeout

  function Effect<S>(r: Done<S>): Out<S> {
    if r.Done? then Normal(r.s) else Halted(r.s, true)
  }

  function Exec<V, S>(w: World<V, S>, st: Stmt, s: S, fuel: nat): Out<S>
    decreases fuel, st, 0
  {
    match st
    case Pass => Normal(s)
    case Do(e) =>
      (match Eval(w, e, s)
       case Err(s1) => Halted(s1, true)
       case Ok(_, s1) => Normal(s1))
    case Assign(x, e) =>
      (match Eval(w, e, s)
       case Err(s1) => Halted(s1, true)
       case Ok(v, s1) => Effect(w.assign(x, v, s1)))
    case Del(x) => Effect(w.remove(x, s))
    case Return(e) =>
      (match Eval(w, e, s)
       case Err(s1) => Halted(s1, true)
       case Ok(v, s1) => Halted(w.setReturn(Some(v), s1), false))
    case ReturnNone => Halted(w.setReturn(None, s), false)
    case Break => Broke(s)
    case Continue => Continued(s)
    case If(c, body, rest) =>
      (match Eval(w, c, s)
       case Err(s1) => Halted(s1, true)
       case Ok(v, s1) =>
         if w.truth(v) then ExecBlock(w, body, s1, fuel) else ExecElse(w, rest, s1, fuel))
    case While(c, body, rest) => ExecWhile(w, c, body, rest, s, fuel)
    case For(x, e, body, rest) =>
      match Eval(w, e, s)
      case Err(s1) => Halted(s1, true)
      case Ok(v, s1) =>
        match w.apply(RUN, "iter", [v], s1)   // the iterator of the value
        case Err(s2) => Halted(s2, true)
        case Ok(it, s2) =>
          if w.isObject(it) then ExecFor(w, it, x, body, rest, s2, fuel) else Halted(s2, true)
  }

  function ExecBlock<V, S>(w: World<V, S>, b: Block, s: S, fuel: nat): Out<S>
    decreases fuel, b, 0
  {
    match b
    case BNil => Normal(s)
    case BCons(head, tail) =>
      match Exec(w, head, s, fuel)
      case Normal(s1) => ExecBlock(w, tail, s1, fuel)
      case o => o
  }

  function ExecElse<V, S>(w: World<V, S>, r: Else, s: S, fuel: nat): Out<S>
    decreases fuel, r, 0
  {
    match r
    case NoElse => Normal(s)
    case Else(body) => ExecBlock(w, body, s, fuel)
    case Elif(c, body, rest) =>
      match Eval(w, c, s)
      case Err(s1) => Halted(s1, true)
      case Ok(v, s1) =>
        if w.truth(v) then ExecBlock(w, body, s1, fuel) else ExecElse(w, rest, s1, fuel)
  }

  /** `while c: body else: rest`; the else part runs only when the test fails. */
  function ExecWhile<V, S>(w: World<V, S>, c: Expr, body: Block, rest: Else, s: S, fuel: nat): Out<S>
    decreases fuel, body, rest, 1
  {
    if fuel == 0 then Timeout
    else match Eval(w, c, s)
      case Err(s1) => Halted(s1, true)
      case Ok(v, s1) =>
        if !w.truth(v) then ExecElse(w, rest, s1, fuel - 1)
        else match ExecBlock(w, body, s1, fuel - 1)
          case Normal(s2) => ExecWhile(w, c, body, rest, s2, fuel - 1)
          case Continued(s2) => ExecWhile(w, c, body, rest, s2, fuel - 1)
          case Broke(s2) => Normal(s2)
          case o => o
  }

  /** One round of a `for` loop: fetch the next item, bind it, and leave when the bound
      variable is missing or None. */
  function ExecFor<V, S>(w: World<V, S>, it: V, x: string, body: Block, rest: Else, s: S, fuel: nat): Out<S>
    decreases fuel, body, rest, 1
  {
    if fuel == 0 then Timeout
    else match w.method_(it, "__next__", [], s)
      case Err(s1) => Halted(s1, true)
      case Ok(v, s1) =>
        match w.assign(x, v, s1)
        case Fail(s2) => Halted(s2, true)
        case Done(s2) =>
          if !w.present(x, s2) then ExecElse(w, rest, s2, fuel - 1)
          else match ExecBlock(w, body, s2, fuel - 1)
            case Normal(s3) => ExecFor(w, it, x, body, rest, s3, fuel - 1)
            case Continued(s3) => ExecFor(w, it, x, body, rest, s3, fuel - 1)
            case Broke(s3) => Normal(s3)
            case o => o
  }
}
