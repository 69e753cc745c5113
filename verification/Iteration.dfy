/** What `for` means to a reader, over the items of an iterator, and when the engine's loop agrees with it. */
module Iteration {
  import opened Bytecode
  import opened Syntax
  import opened Semantics

  /** The answer of an iterator: an item, its end marker, or an error. */
  datatype Fetch<+V, +S> = Item(v: V, s: S) | Finished(v: V, s: S) | Broken(s: S)

  /** How iterators go on. */
  type Protocol<!V, !S> = (V, S) -> Fetch<V, S>

  /** The world's `__next__` answers as `p` says, and a variable bound to an end marker counts as missing. */
  ghost predicate Iterates<V(!new), S(!new)>(w: World<V, S>, p: Protocol<V, S>) {
    forall it: V, s: S :: Answers(w, p(it, s), w.method_(it, "__next__", [], s))
  }

  ghost predicate Answers<V, S>(w: World<V, S>, f: Fetch<V, S>, r: Res<V, S>) {
    match f
    case Item(v, s) => r == Ok(v, s)
    case Broken(s) => r == Err(s)
    case Finished(v, s) => r == Ok(v, s) && forall x: string :: !Bound(w, x, v, s)
  }

  /** Assigning `v` to `x` works and leaves a value that is not None. */
  predicate Bound<V, S>(w: World<V, S>, x: string, v: V, s: S) {
    w.assign(x, v, s).Done? && w.present(x, w.assign(x, v, s).s)
  }

  /** `for x in it: body else: rest`, one round for each item until the iterator ends. */
  function ExecEach<V, S>(w: World<V, S>, p: Protocol<V, S>, it: V, x: string, body: Block, rest: Else, s: S, fuel: nat)
    : Out<S>
    decreases fuel
  {
    if fuel == 0 then Timeout else
    match p(it, s)
    case Broken(s1) => Halted(s1, true)
    case Finished(v, s1) =>
      (match w.assign(x, v, s1)
       case Fail(s2) => Halted(s2, true)
       case Done(s2) => ExecElse(w, rest, s2, fuel - 1))
    case Item(v, s1) =>
      match w.assign(x, v, s1)
      case Fail(s2) => Halted(s2, true)
      case Done(s2) =>
        match ExecBlock(w, body, s2, fuel - 1)
        case Normal(s3) => ExecEach(w, p, it, x, body, rest, s3, fuel - 1)
        case Continued(s3) => ExecEach(w, p, it, x, body, rest, s3, fuel - 1)
        case Broke(s3) => Normal(s3)
        case o => o
  }

  /** The items for which the body is entered, in `fuel` rounds of that loop. */
  function Rounds<V, S>(w: World<V, S>, p: Protocol<V, S>, it: V, x: string, body: Block, s: S, fuel: nat): seq<V>
    decreases fuel
  {
    if fuel == 0 then [] else
    match p(it, s)
    case Item(v, s1) =>
      if w.assign(x, v, s1).Fail? then [] else
        var more := match ExecBlock(w, body, w.assign(x, v, s1).s, fuel - 1) {
          case Normal(s3) => Rounds(w, p, it, x, body, s3, fuel - 1)
          case Continued(s3) => Rounds(w, p, it, x, body, s3, fuel - 1)
          case _ => []
        };
        [v] + more
    case _ => []
  }

  /** The items for which the engine enters the body, in `fuel` rounds of `ExecFor`. */
  function EngineRounds<V, S>(w: World<V, S>, it: V, x: string, body: Block, s: S, fuel: nat): seq<V>
    decreases fuel
  {
    if fuel == 0 then [] else
    match w.method_(it, "__next__", [], s)
    case Err(_) => []
    case Ok(v, s1) =>
      if !Bound(w, x, v, s1) then [] else
        var more := match ExecBlock(w, body, w.assign(x, v, s1).s, fuel - 1) {
          case Normal(s3) => EngineRounds(w, it, x, body, s3, fuel - 1)
          case Continued(s3) => EngineRounds(w, it, x, body, s3, fuel - 1)
          case _ => []
        };
        [v] + more
  }

  /** In those rounds no item is bound as None. */
  predicate NoNone<V, S>(w: World<V, S>, p: Protocol<V, S>, it: V, x: string, body: Block, s: S, fuel: nat)
    decreases fuel
  {
    fuel > 0 && p(it, s).Item? ==>
      var v, s1 := p(it, s).v, p(it, s).s;
      w.assign(x, v, s1).Done? ==>
        && w.present(x, w.assign(x, v, s1).s)
        && match ExecBlock(w, body, w.assign(x, v, s1).s, fuel - 1) {
             case Normal(s3) => NoNone(w, p, it, x, body, s3, fuel - 1)
             case Continued(s3) => NoNone(w, p, it, x, body, s3, fuel - 1)
             case _ => true
           }
  }

  /** Without None items the engine's loop is the loop over the items. */
  lemma {:induction false} ForAgrees<V(!new), S(!new)>(w: World<V, S>, p: Protocol<V, S>, it: V, x: string, body: Block, rest: Else, s: S,
                                           fuel: nat)
    requires Iterates(w, p) && NoNone(w, p, it, x, body, s, fuel)
    ensures ExecFor(w, it, x, body, rest, s, fuel) == ExecEach(w, p, it, x, body, rest, s, fuel)
    decreases fuel
  {
    hide ExecBlock, ExecElse;
    if fuel > 0 {
      assert Answers(w, p(it, s), w.method_(it, "__next__", [], s));
      if p(it, s).Item? && w.assign(x, p(it, s).v, p(it, s).s).Done? {
        var o := ExecBlock(w, body, w.assign(x, p(it, s).v, p(it, s).s).s, fuel - 1);
        if o.Normal? || o.Continued? {
          ForAgrees(w, p, it, x, body, rest, o.s, fuel - 1);
        }
      } else if p(it, s).Finished? {
        assert !Bound(w, x, p(it, s).v, p(it, s).s);
      }
    }
  }

  /** The engine never enters the body for other items, and it enters it for all of them exactly when none of them is
      bound as None: a None item ends its loop. */
  lemma {:induction false} RoundsExact<V(!new), S(!new)>(w: World<V, S>, p: Protocol<V, S>, it: V, x: string, body: Block, s: S, fuel: nat)
    requires Iterates(w, p)
    ensures EngineRounds(w, it, x, body, s, fuel) <= Rounds(w, p, it, x, body, s, fuel)
    ensures EngineRounds(w, it, x, body, s, fuel) == Rounds(w, p, it, x, body, s, fuel) <==> NoNone(w, p, it, x, body, s, fuel)
    decreases fuel
  {
    hide ExecBlock;
    if fuel > 0 {
      assert Answers(w, p(it, s), w.method_(it, "__next__", [], s));
      if p(it, s).Item? && Bound(w, x, p(it, s).v, p(it, s).s) {
        var o := ExecBlock(w, body, w.assign(x, p(it, s).v, p(it, s).s).s, fuel - 1);
        if o.Normal? || o.Continued? {
          RoundsExact(w, p, it, x, body, o.s, fuel - 1);
          var a, b := EngineRounds(w, it, x, body, o.s, fuel - 1), Rounds(w, p, it, x, body, o.s, fuel - 1);
          assert ([p(it, s).v] + a)[1..] == a && ([p(it, s).v] + b)[1..] == b;
        }
      } else if p(it, s).Finished? {
        assert !Bound(w, x, p(it, s).v, p(it, s).s);
      }
    }
  }
}
