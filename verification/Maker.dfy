/** `src/PikaCompiler.c`: compiling a module together with everything it imports. */
module Maker {
  import opened Bytecode

  datatype State = Nocompiled | Compiled | Failed | Cmodule

  datatype Kind = Py | Pyi | Pyo

  /** Which files exist for a module in the working directory. */
  datatype Files = Files(py: bool, pyi: bool, pyo: bool)

  /** The modules that a maker can find: what is on disk, what compiled code imports, what compiles. */
  datatype Sources = Sources(disk: map<string, Files>, imports: string -> seq<string>, compiles: string -> bool)

  /** `_checkModuleType`. */
  function ModuleType(src: Sources, name: string): Option<Kind> {
    if name !in src.disk then None
    else if src.disk[name].pyo then Some(Pyo)
    else if src.disk[name].py then Some(Py)
    else if src.disk[name].pyi then Some(Pyi)
    else None
  }

  function StateOf(k: Kind): State {
    match k
    case Py => Nocompiled
    case Pyi => Cmodule
    case Pyo => Compiled
  }

  /** A file `.py.o` of the module exists. */
  predicate HasCode(src: Sources, i: string) {
    i in src.disk && src.disk[i].pyo
  }

  /** The module is to be compiled from its `.py` file, whether or not there is a `.pyi` file. */
  predicate HasSource(src: Sources, i: string) {
    i in src.disk && src.disk[i].py && !src.disk[i].pyo
  }

  /** All there is of the module is a `.pyi` file. */
  predicate HasStub(src: Sources, i: string) {
    i in src.disk && src.disk[i].pyi && !src.disk[i].py && !src.disk[i].pyo
  }

  /** Some file of the module exists. */
  predicate Exists(src: Sources, i: string) {
    i in src.disk && (src.disk[i].py || src.disk[i].pyi || src.disk[i].pyo)
  }

  /** The table has the entry of a module that was looked up on disk for the first time. */
  ghost predicate Entered(src: Sources, state: map<string, State>, i: string) {
    && (HasCode(src, i) ==> i in state && state[i] == Compiled)
    && (HasSource(src, i) ==> i in state && state[i] == Nocompiled)
    && (HasStub(src, i) ==> i in state && state[i] == Cmodule)
    && (!Exists(src, i) ==> i !in state)
  }

  /** `m` imports the source module `i`. */
  ghost predicate Imports(src: Sources, m: string, i: string) {
    i in src.imports(m) && HasSource(src, i)
  }

  /** `x` is in every set that holds `roots` and the source modules its members import. */
  ghost predicate Needed(src: Sources, roots: set<string>, x: string) {
    forall t: iset<string> :: (forall r <- roots :: r in t) && ClosedSet(src, t) ==> x in t
  }

  ghost predicate ClosedSet(src: Sources, t: iset<string>) {
    forall m <- t, i | Imports(src, m, i) :: i in t
  }

  lemma NeededStep(src: Sources, roots: set<string>, m: string, i: string)
    requires Needed(src, roots, m) && Imports(src, m, i)
    ensures Needed(src, roots, i)
  {
  }

  ghost predicate Distinct(log: seq<string>) {
    forall i, j :: 0 <= i < j < |log| ==> log[i] != log[j]
  }

  /** The table agrees with the disk and with the list of modules handed to the compiler. */
  ghost predicate Consistent(src: Sources, state: map<string, State>, log: seq<string>) {
    && Distinct(log)
    && (forall k <- log :: k in state && (state[k] == Compiled || state[k] == Failed))
    && (forall k <- state ::
          match state[k]
          case Nocompiled => HasSource(src, k)
          case Failed => k in log
          case Compiled => k in log || HasCode(src, k)
          case Cmodule => HasStub(src, k))
  }

  /** The imports of `m` that exist are in the table. */
  ghost predicate Recorded(src: Sources, state: map<string, State>, m: string) {
    forall i <- src.imports(m) :: Exists(src, i) ==> i in state
  }

  /** Every module compiled from source has its imports recorded. */
  ghost predicate Complete(src: Sources, state: map<string, State>, log: seq<string>) {
    forall m <- log :: state.Keys >= {m} && state[m] == Compiled ==> Recorded(src, state, m)
  }

  /** Source modules that may still have to be compiled. */
  ghost function Open(src: Sources, state: map<string, State>): set<string> {
    set k | k in src.disk && (k !in state || state[k] == Nocompiled)
  }

  class PikaMaker {
    const src: Sources
    var state: map<string, State>
    ghost var log: seq<string>

    ghost predicate Valid()
      reads this
    {
      Consistent(src, state, log) && Complete(src, state, log)
    }

    constructor (sources: Sources)
      ensures Valid() && src == sources && state == map[] && log == []
    {
      src, state, log := sources, map[], [];
    }

    method CompileModule(name: string) returns (ok: bool)
      requires Consistent(src, state, log) && (name in state ==> state[name] == Nocompiled)
      modifies this
      ensures Consistent(src, state, log) && log == old(log) + [name]
      ensures ok == src.compiles(name) && state == old(state)[name := if ok then Compiled else Failed]
    {
      ok := src.compiles(name);
      state := state[name := if ok then Compiled else Failed];
      log := log + [name];
    }

    /** Enters the imports of a compiled module that are not in the table yet, each as its files say. */
    method GetDependencies(name: string)
      requires Consistent(src, state, log)
      modifies this`state
      ensures Consistent(src, state, log) && Recorded(src, state, name)
      ensures Grown(src, old(state), state, name)
      ensures forall i <- src.imports(name) :: i in old(state) || Entered(src, state, i)
    {
      var imports := src.imports(name);
      for n := 0 to |imports|
        invariant Consistent(src, state, log) && Grown(src, old(state), state, name)
        invariant forall i :: 0 <= i < n ==> imports[i] in old(state) || Entered(src, state, imports[i])
      {
        var imp := imports[n];
        if imp !in state {
          var kind := ModuleType(src, imp);
          if kind.Some? {
            state := state[imp := StateOf(kind.value)];
          }
        }
      }
    }

    /** Any module still to be compiled; the maker takes the first in the order of its table. */
    method GetFirstNocompiled() returns (name: Option<string>)
      ensures name.Some? ==> name.value in state && state[name.value] == Nocompiled
      ensures name.None? ==> forall k <- state :: state[k] != Nocompiled
    {
      if k :| k in state && state[k] == Nocompiled {
        name := Some(k);
      } else {
        name := None;
      }
    }

    /** Compiles one module and enters its imports. */
    method CompileOne(name: string, ghost roots: set<string>) returns (ok: bool)
      requires Valid() && (name in state ==> state[name] == Nocompiled)
      requires AllNeeded(src, roots, state) && Needed(src, roots, name)
      modifies this
      ensures Valid() && AllNeeded(src, roots, state)
      ensures log == old(log) + [name] && name in state && state[name] == if ok then Compiled else Failed
      ensures forall k <- old(state) :: k in state && (k == name || state[k] == old(state)[k])
      ensures Open(src, state) <= Open(src, old(state)) - {name}
    {
      ok := CompileModule(name);
      ghost var s1 := state;
      if ok {
        GetDependencies(name);
        CompleteGrown(src, old(state), state, old(log), name);
        NeededGrown(src, roots, s1, state, name);
      }
    }

    /**
     * `pikaMaker_compileModuleWithDepends`, which always ends. Only modules that the root, or a module left over
     * from a failed call, needs are compiled, each at most once; on success none is left over.
     */
    method CompileModuleWithDepends(root: string) returns (ok: bool)
      requires Valid()
      modifies this
      ensures Valid() && old(log) <= log
      ensures root in old(state) && old(state)[root] != Nocompiled ==> ok && state == old(state) && log == old(log)
      ensures !(root in old(state) && old(state)[root] != Nocompiled) ==>
        && Compilation(src, state, log, |old(log)|, root, {root} + Waiting(old(state)), ok)
        && (ok ==> forall k <- state :: state[k] != Nocompiled)
    {
      hide Consistent, Complete, Needed, Compilation;
      if root in state && state[root] != Nocompiled {
        return true;
      }
      ghost var roots := {root} + Waiting(state);
      NeededRoots(src, roots);
      ok := CompileOne(root, roots);
      CompilationStart(src, state, old(log), root, roots, ok);
      if !ok {
        return;
      }
      while true
        invariant Valid() && old(log) <= log && ok
        invariant AllNeeded(src, roots, state) && Compilation(src, state, log, |old(log)|, root, roots, true)
        decreases |Open(src, state)|
      {
        var uncompiled := GetFirstNocompiled();
        if uncompiled.None? {
          return;
        }
        ghost var s0, log0 := state, log;
        InDisk(src, state, log, uncompiled.value);
        ok := CompileOne(uncompiled.value, roots);
        CompilationStep(src, s0, state, log0, |old(log)|, root, roots, uncompiled.value, ok);
        if !ok {
          return;
        }
        Smaller(Open(src, state), Open(src, s0), uncompiled.value);
      }
    }
  }

  /** The modules handed to the compiler from position `n` on: the root first, then others that are needed, all
      compiled except that the last one may have failed. */
  ghost predicate Compilation(src: Sources, state: map<string, State>, log: seq<string>, n: nat, root: string,
                              roots: set<string>, ok: bool) {
    && n < |log| && log[n] == root
    && (forall x :: n <= x < |log| ==> Needed(src, roots, log[x]) && log[x] in state)
    && (forall x :: n <= x < |log| ==> state[log[x]] == if ok || x < |log| - 1 then Compiled else Failed)
  }

  lemma CompilationStart(src: Sources, state: map<string, State>, log: seq<string>, root: string, roots: set<string>, ok: bool)
    requires root in state && state[root] == (if ok then Compiled else Failed) && Needed(src, roots, root)
    ensures Compilation(src, state, log + [root], |log|, root, roots, ok)
  {
  }

  lemma CompilationStep(src: Sources, before: map<string, State>, after: map<string, State>, log: seq<string>, n: nat,
                        root: string, roots: set<string>, name: string, ok: bool)
    requires Compilation(src, before, log, n, root, roots, true) && Needed(src, roots, name)
    requires name in before && before[name] == Nocompiled
    requires name in after && after[name] == (if ok then Compiled else Failed)
    requires forall k <- before :: k in after && (k == name || after[k] == before[k])
    ensures Compilation(src, after, log + [name], n, root, roots, ok)
  {
    hide Needed;
  }

  lemma InDisk(src: Sources, state: map<string, State>, log: seq<string>, k: string)
    requires Consistent(src, state, log) && k in state && state[k] == Nocompiled
    ensures k in Open(src, state)
  {
  }

  ghost function Waiting(state: map<string, State>): set<string> {
    set k | k in state && state[k] == Nocompiled
  }

  /** Whatever waits to be compiled is needed. */
  ghost predicate AllNeeded(src: Sources, roots: set<string>, state: map<string, State>) {
    forall k <- state :: state[k] == Nocompiled ==> Needed(src, roots, k)
  }

  lemma NeededRoots(src: Sources, roots: set<string>)
    ensures forall r <- roots :: Needed(src, roots, r)
  {
  }

  lemma Smaller(a: set<string>, b: set<string>, x: string)
    requires a <= b - {x} && x in b
    ensures |a| < |b|
  {
    Subset(a, b - {x});
  }

  lemma Subset(a: set<string>, b: set<string>)
    requires a <= b
    ensures |a| <= |b|
  {
    if x :| x in a {
      Subset(a - {x}, b - {x});
    }
  }

  lemma CompleteGrown(src: Sources, before: map<string, State>, after: map<string, State>, log: seq<string>, name: string)
    requires Complete(src, before, log) && name !in log
    requires Grown(src, before[name := Compiled], after, name) && Recorded(src, after, name)
    requires forall m <- log :: m in before
    ensures Complete(src, after, log + [name])
  {
    forall m <- log + [name] | m in after && after[m] == Compiled
      ensures Recorded(src, after, m)
    {
      if m != name {
        assert m in log && before[m] == Compiled && Recorded(src, before, m);
      }
    }
  }

  lemma NeededGrown(src: Sources, roots: set<string>, before: map<string, State>, after: map<string, State>, name: string)
    requires AllNeeded(src, roots, before) && Needed(src, roots, name) && Grown(src, before, after, name)
    ensures AllNeeded(src, roots, after)
  {
    forall k <- after | after[k] == Nocompiled
      ensures Needed(src, roots, k)
    {
      if k !in before {
        NeededStep(src, roots, name, k);
      }
    }
  }

  /** Nothing that was in the table changed, and what is new are imports of `name`, entered as their files say. */
  ghost predicate Grown(src: Sources, before: map<string, State>, after: map<string, State>, name: string) {
    && (forall k <- before :: k in after && after[k] == before[k])
    && (forall k <- after :: k in before || (k in src.imports(name) && Entered(src, after, k)))
  }

  /** When nothing waits, the compiled modules are closed: a source module that one of them imports was compiled too. */
  lemma ClosedWhenDone(src: Sources, state: map<string, State>, log: seq<string>, m: string, i: string)
    requires Consistent(src, state, log) && Complete(src, state, log) && forall k <- state :: state[k] != Nocompiled
    requires m in log && state[m] == Compiled && Imports(src, m, i)
    ensures i in log
  {
    assert Recorded(src, state, m);
  }

  /** A maker that starts empty and succeeds has compiled exactly the modules that the root needs. */
  lemma CompiledIsNeeded(src: Sources, state: map<string, State>, log: seq<string>, root: string)
    requires Consistent(src, state, log) && Complete(src, state, log) && forall k <- state :: state[k] != Nocompiled
    requires Compilation(src, state, log, 0, root, {root}, true)
    ensures forall x :: x in log <==> Needed(src, {root}, x)
  {
    hide Consistent, Complete;
    var t := iset m | m in log;
    forall m <- t, i | Imports(src, m, i)
      ensures i in t
    {
      ClosedWhenDone(src, state, log, m, i);
    }
    assert ClosedSet(src, t) && root in t;
  }
}
