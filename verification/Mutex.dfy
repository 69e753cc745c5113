/** `src/PikaPlatform.c`: the recursive mutex behind the interpreter lock, as interleaved memory accesses. */
module Mutex {
  import opened Bytecode

  /** What a thread does next; `seen` is a value of `lock_times` already loaded into a register. */
  datatype Pc =
    | Idle
    | LoadInc | StoreInc(seen: int)
    | Acquire(trying: bool) | SetOwner | SetTimes
    | LoadDec | StoreDec(seen: int) | TestTimes | ClearOwner | Release

  /** What callers observe; `Locked` when a lock call returns 0, the others when the call decides. */
  datatype Event =
    | Locked(thread: nat)
    | Failed(thread: nat)
    | Unlocked(thread: nat)
    | Refused(thread: nat)

  /** The mutex, who holds the platform mutex, where each thread stands, and the calls decided so far. */
  datatype State = State(owner: nat, times: int, holder: Option<nat>, pcs: map<nat, Pc>, log: seq<Event>)

  // The abstract recursive lock

  /** How often `t` holds the lock after `log`. */
  function Depth(log: seq<Event>, t: nat): int {
    if log == [] then 0 else
      Depth(log[..|log| - 1], t) + Weight(log[|log| - 1], t)
  }

  function Weight(e: Event, t: nat): int {
    if e == Locked(t) then 1 else if e == Unlocked(t) then -1 else 0
  }

  /** Event `e` is one that a recursive lock may produce after `log`. */
  ghost predicate Allowed(log: seq<Event>, e: Event) {
    match e
    case Locked(t) => forall u: nat :: Depth(log, u) > 0 ==> u == t
    case Failed(t) => Depth(log, t) == 0
    case Unlocked(t) => Depth(log, t) > 0
    case Refused(t) => Depth(log, t) == 0
  }

  /** `log` is a history of a recursive lock. */
  ghost predicate Legal(log: seq<Event>) {
    forall i :: 0 <= i < |log| ==> Allowed(log[..i], log[i])
  }

  // The protocol

  ghost predicate Start(s: State) {
    && s.owner == 0 && s.times == 0 && s.holder == None && s.log == []
    && forall t <- s.pcs :: s.pcs[t] == Idle
  }

  function Go(s: State, t: nat, pc: Pc): State {
    s.(pcs := s.pcs[t := pc])
  }

  function Say(s: State, e: Event): State {
    s.(log := s.log + [e])
  }

  /** The test of `owner` at the start of `lock` and `trylock`. */
  function EnterLock(s: State, t: nat, trying: bool): State {
    Go(s, t, if s.owner == t then LoadInc else Acquire(trying))
  }

  /** The test of `owner` at the start of `unlock`. */
  function EnterUnlock(s: State, t: nat): State {
    if s.owner == t then Go(Say(s, Unlocked(t)), t, LoadDec) else Say(s, Refused(t))
  }

  /** One atomic step of thread `t`; a platform call may also fail. */
  ghost predicate Step(s: State, s': State, t: nat) {
    && t in s.pcs
    && match s.pcs[t]
       case Idle => s' == EnterLock(s, t, false) || s' == EnterLock(s, t, true) || s' == EnterUnlock(s, t)
       case LoadInc => s' == Go(s, t, StoreInc(s.times))
       case StoreInc(seen) => s' == Go(Say(s, Locked(t)), t, Idle).(times := seen + 1)
       case Acquire(trying) =>
         || (s.holder == None && s' == Go(s, t, SetOwner).(holder := Some(t)))
         || s' == Go(Say(s, Failed(t)), t, Idle)
       case SetOwner => s' == Go(s, t, SetTimes).(owner := t)
       case SetTimes => s' == Go(Say(s, Locked(t)), t, Idle).(times := 1)
       case LoadDec => s' == Go(s, t, StoreDec(s.times))
       case StoreDec(seen) => s' == Go(s, t, TestTimes).(times := seen - 1)
       case TestTimes => s' == Go(s, t, if s.times == 0 then ClearOwner else Idle)
       case ClearOwner => s' == Go(s, t, Release).(owner := 0)
       case Release => s' == Go(s, t, Idle).(holder := None)
  }

  ghost predicate Next(s: State, s': State) {
    exists t: nat :: Step(s, s', t)
  }

  /** A finite run of the protocol. */
  ghost predicate Run(run: seq<State>) {
    && run != []
    && Start(run[0])
    && forall i :: 0 <= i < |run| - 1 ==> Next(run[i], run[i + 1])
  }

  // The invariant

  predicate Leaving(pc: Pc) {
    pc.LoadDec? || pc.StoreDec?
  }

  /** Between taking and giving back the platform mutex, apart from the time between two calls. */
  predicate HandOver(pc: Pc) {
    pc.SetOwner? || pc.SetTimes? || Leaving(pc) || pc.TestTimes? || pc.ClearOwner? || pc.Release?
  }

  predicate ThreadInv(s: State, t: nat)
    requires t in s.pcs
  {
    var pc, d := s.pcs[t], Depth(s.log, t);
    && d >= 0
    && (s.holder == Some(t) <==> d > 0 || HandOver(pc))
    && (s.owner == t <==> d > 0 || (HandOver(pc) && !pc.SetOwner? && !pc.Release?))
    && (pc.Acquire? || pc.SetOwner? || pc.SetTimes? || pc.ClearOwner? || pc.Release? ==> d == 0)
    && (pc.LoadInc? || pc.StoreInc? ==> d > 0)
    && (pc.StoreInc? || pc.StoreDec? ==> pc.seen == s.times)
    && (s.owner == t && !pc.SetTimes? ==> s.times == if Leaving(pc) then d + 1 else d)
  }

  ghost predicate Inv(s: State) {
    && 0 !in s.pcs
    && (s.owner != 0 ==> s.owner in s.pcs)
    && (s.holder.Some? ==> s.holder.value in s.pcs)
    && (forall t <- s.pcs :: ThreadInv(s, t))
    && (forall t: nat :: t !in s.pcs ==> Depth(s.log, t) == 0)
    && Legal(s.log)
  }

  lemma StartInv(s: State)
    requires Start(s) && 0 !in s.pcs
    ensures Inv(s)
  {
  }

  lemma DepthSay(s: State, e: Event, t: nat)
    ensures Depth(Say(s, e).log, t) == Depth(s.log, t) + Weight(e, t)
  {
    assert (s.log + [e])[..|s.log|] == s.log;
  }

  lemma LegalSay(s: State, e: Event)
    requires Legal(s.log) && Allowed(s.log, e)
    ensures Legal(Say(s, e).log)
  {
    var log := s.log + [e];
    forall i | 0 <= i < |log|
      ensures Allowed(log[..i], log[i])
    {
      assert log[..i] == s.log[..i];
      assert i == |s.log| ==> s.log[..i] == s.log;
    }
  }

  /** The events a step can add: none, or one of the thread's own that the abstract lock allows. */
  lemma StepLog(s: State, s': State, t: nat) returns (e: Option<Event>)
    requires Inv(s) && Step(s, s', t)
    ensures e.None? ==> s'.log == s.log
    ensures e.Some? ==> e.value.thread == t && s'.log == s.log + [e.value] && Allowed(s.log, e.value)
  {
    assert ThreadInv(s, t);
    if s'.log == s.log {
      return None;
    }
    e := Some(s'.log[|s.log|]);
    if e.value.Locked? {
      forall u: nat | Depth(s.log, u) > 0
        ensures u == t
      {
        assert ThreadInv(s, u);
      }
    }
  }

  /** A step of `t` changes the depth of `t` only, by what it reports. */
  lemma StepDepth(s: State, s': State, t: nat, u: nat)
    requires Inv(s) && Step(s, s', t)
    ensures s'.log == s.log ||
      (|s'.log| == |s.log| + 1 && Depth(s'.log, u) == Depth(s.log, u) + Weight(s'.log[|s.log|], u))
    ensures u != t ==> Depth(s'.log, u) == Depth(s.log, u)
  {
    var e := StepLog(s, s', t);
    if e.Some? {
      DepthSay(s, e.value, u);
    }
  }

  lemma StepOther(s: State, s': State, t: nat, u: nat)
    requires Inv(s) && Step(s, s', t) && u in s.pcs && u != t
    ensures ThreadInv(s', u)
  {
    hide Depth, Legal, Allowed;
    StepDepth(s, s', t, u);
    assert ThreadInv(s, u) && ThreadInv(s, t);
  }

  lemma StepSelf(s: State, s': State, t: nat)
    requires Inv(s) && Step(s, s', t)
    ensures ThreadInv(s', t)
  {
    hide Depth, Legal, Allowed;
    assert ThreadInv(s, t);
    hide Inv;
    StepDepth(s, s', t, t);
  }

  /** What a step leaves of the invariant besides the threads' own part. */
  lemma StepFrame(s: State, s': State, t: nat)
    requires Inv(s) && Step(s, s', t)
    ensures s'.pcs.Keys == s.pcs.Keys && Legal(s'.log)
    ensures (s'.owner != 0 ==> s'.owner in s'.pcs) && (s'.holder.Some? ==> s'.holder.value in s'.pcs)
  {
    hide Depth, Legal, Allowed, ThreadInv;
    var e := StepLog(s, s', t);
    if e.Some? {
      LegalSay(s, e.value);
    }
  }

  lemma StepInv(s: State, s': State, t: nat)
    requires Inv(s) && Step(s, s', t)
    ensures Inv(s')
  {
    hide Depth, Legal, Allowed, ThreadInv, Step;
    StepFrame(s, s', t);
    forall u <- s'.pcs
      ensures ThreadInv(s', u)
    {
      if u == t {
        StepSelf(s, s', t);
      } else {
        StepOther(s, s', t, u);
      }
    }
    forall u: nat | u !in s'.pcs
      ensures Depth(s'.log, u) == 0
    {
      OutsiderDepth(s, s', t, u);
    }
  }

  lemma OutsiderDepth(s: State, s': State, t: nat, u: nat)
    requires Inv(s) && Step(s, s', t) && u !in s.pcs
    ensures Depth(s'.log, u) == 0
  {
    hide Depth, Legal, Allowed, ThreadInv;
    StepDepth(s, s', t, u);
  }

  lemma {:induction false} RunInv(run: seq<State>, i: nat)
    requires Run(run) && 0 !in run[0].pcs && i < |run|
    ensures Inv(run[i])
  {
    if i == 0 {
      StartInv(run[0]);
    } else {
      RunInv(run, i - 1);
      assert Next(run[i - 1], run[i - 1 + 1]);
      var t: nat :| Step(run[i - 1], run[i], t);
      StepInv(run[i - 1], run[i], t);
    }
  }

  /**
   * In every state of every run the calls decided so far are a history of a recursive lock: at most one thread
   * is inside, the recorded owner holds the platform mutex, and outside the two hand-over windows
   * `lock_times` is the owner's nesting depth.
   */
  lemma MutexSafe(run: seq<State>, i: nat)
    requires Run(run) && 0 !in run[0].pcs && i < |run|
    ensures var s := run[i];
      && Legal(s.log)
      && (forall t: nat, u: nat :: Depth(s.log, t) > 0 && Depth(s.log, u) > 0 ==> t == u)
      && (s.owner != 0 ==> s.owner in s.pcs && s.holder == Some(s.owner))
      && (s.owner != 0 && !s.pcs[s.owner].SetTimes? && !Leaving(s.pcs[s.owner]) ==> s.times == Depth(s.log, s.owner))
  {
    RunInv(run, i);
    var s := run[i];
    forall t: nat, u: nat | Depth(s.log, t) > 0 && Depth(s.log, u) > 0
      ensures t == u
    {
      assert ThreadInv(s, t) && ThreadInv(s, u);
    }
  }

  /**
   * The unprotected test of `owner` is exact for the thread that makes it: between its calls a thread is the owner,
   * and holds the platform mutex, exactly when it is inside. So a thread that gave back all it took leaves the
   * platform mutex free for others, and a thread never waits for a platform mutex of its own.
   */
  lemma OwnerTestExact(run: seq<State>, i: nat, t: nat)
    requires Run(run) && 0 !in run[0].pcs && i < |run| && t in run[i].pcs
    ensures var s := run[i];
      && (s.pcs[t].Idle? ==> (s.owner == t <==> Depth(s.log, t) > 0))
      && (s.pcs[t].Idle? ==> (s.holder == Some(t) <==> Depth(s.log, t) > 0))
      && (s.pcs[t].Acquire? ==> s.holder != Some(t))
  {
    RunInv(run, i);
    assert ThreadInv(run[i], t);
  }

  /** Thread number 0 would pass the owner test of a free mutex. */
  lemma ZeroIdUnsafe(s: State) returns (run: seq<State>)
    requires Start(s) && 0 in s.pcs
    ensures Run(run) && run[0] == s && !Legal(run[|run| - 1].log)
  {
    var s' := EnterUnlock(s, 0);
    run := [s, s'];
    assert Step(s, s', 0);
    assert !Allowed(s'.log[..0], s'.log[0]);
  }

  /** All runs are safe exactly when no thread has number 0. */
  lemma SafeIffNonZero(s: State)
    requires Start(s)
    ensures 0 !in s.pcs <==> forall run: seq<State>, i: nat :: Run(run) && run[0] == s && i < |run| ==> Legal(run[i].log)
  {
    if 0 in s.pcs {
      var run := ZeroIdUnsafe(s);
      assert Run(run) && !Legal(run[|run| - 1].log);
    } else {
      forall run: seq<State>, i: nat | Run(run) && run[0] == s && i < |run|
        ensures Legal(run[i].log)
      {
        MutexSafe(run, i);
      }
    }
  }

  // Every history happens

  /** `path` is made of steps of thread `t` alone. */
  ghost predicate Own(path: seq<State>, t: nat) {
    path != [] && forall i :: 0 <= i < |path| - 1 ==> Step(path[i], path[i + 1], t)
  }

  /** Thread `t` alone gets from `s` back to where every thread stood, and the calls decided meanwhile are `e`. */
  ghost predicate Calls(path: seq<State>, s: State, t: nat, e: Event) {
    && Own(path, t) && path[0] == s
    && var s' := path[|path| - 1]; s'.pcs == s.pcs && s'.log == s.log + [e]
  }

  /** Whenever the platform mutex is free, or the thread is inside already, `lock` and `trylock` can succeed. */
  lemma Locks(s: State, t: nat, trying: bool) returns (path: seq<State>)
    requires Inv(s) && t in s.pcs && s.pcs[t] == Idle && (s.holder == None || Depth(s.log, t) > 0)
    ensures Calls(path, s, t, Locked(t))
  {
    hide Depth, Legal, Allowed;
    assert ThreadInv(s, t);
    var a := EnterLock(s, t, trying);
    if s.owner == t {
      var b := Go(a, t, StoreInc(a.times));
      var c := Go(Say(b, Locked(t)), t, Idle).(times := a.times + 1);
      path := [s, a, b, c];
      assert c.pcs == s.pcs;
    } else {
      var b := Go(a, t, SetOwner).(holder := Some(t));
      var c := Go(b, t, SetTimes).(owner := t);
      var d := Go(Say(c, Locked(t)), t, Idle).(times := 1);
      path := [s, a, b, c, d];
      assert d.pcs == s.pcs;
    }
  }

  /** The platform call of a thread that is not inside can fail. */
  lemma Fails(s: State, t: nat, trying: bool) returns (path: seq<State>)
    requires Inv(s) && t in s.pcs && s.pcs[t] == Idle && Depth(s.log, t) == 0
    ensures Calls(path, s, t, Failed(t))
  {
    hide Depth, Legal, Allowed;
    assert ThreadInv(s, t);
    var a := EnterLock(s, t, trying);
    var b := Go(Say(a, Failed(t)), t, Idle);
    path := [s, a, b];
    assert b.pcs == s.pcs;
  }

  /** The steps of `unlock` up to its last test. */
  lemma Leaves(s: State, t: nat) returns (path: seq<State>)
    requires t in s.pcs && s.pcs[t] == Idle && s.owner == t
    ensures Own(path, t) && path[0] == s && |path| == 5
    ensures path[4] == Go(Say(s, Unlocked(t)), t, if s.times == 1 then ClearOwner else Idle).(times := s.times - 1)
  {
    var a := EnterUnlock(s, t);
    var b := Go(a, t, StoreDec(a.times));
    var c := Go(b, t, TestTimes).(times := a.times - 1);
    var d := Go(c, t, if c.times == 0 then ClearOwner else Idle);
    path := [s, a, b, c, d];
  }

  lemma OwnMore(path: seq<State>, t: nat, s': State)
    requires Own(path, t) && Step(path[|path| - 1], s', t)
    ensures Own(path + [s'], t)
  {
    hide Step;
  }

  /** A thread inside can unlock; giving back the last of its locks frees the platform mutex. */
  lemma Unlocks(s: State, t: nat) returns (path: seq<State>)
    requires Inv(s) && t in s.pcs && s.pcs[t] == Idle && Depth(s.log, t) > 0
    ensures Calls(path, s, t, Unlocked(t))
    ensures Depth(s.log, t) == 1 ==> var s' := path[|path| - 1]; s'.holder == None && s'.owner == 0
  {
    hide Depth, Legal, Allowed, Own;
    assert ThreadInv(s, t);
    hide Inv;
    path := Leaves(s, t);
    var d := path[4];
    if s.times == 1 {
      var e := Go(d, t, Release).(owner := 0);
      var f := Go(e, t, Idle).(holder := None);
      OwnMore(path, t, e);
      OwnMore(path + [e], t, f);
      path := path + [e] + [f];
      assert f.pcs == s.pcs;
    } else {
      assert d.pcs == s.pcs;
    }
  }

  /** `unlock` by a thread that is not inside is refused. */
  lemma Refuses(s: State, t: nat) returns (path: seq<State>)
    requires Inv(s) && t in s.pcs && s.pcs[t] == Idle && Depth(s.log, t) == 0
    ensures Calls(path, s, t, Refused(t))
  {
    hide Depth, Legal, Allowed;
    assert ThreadInv(s, t);
    path := [s, EnterUnlock(s, t)];
  }

  /** Between calls the platform mutex is held only by a thread inside. */
  lemma FreeWhenIdle(s: State)
    requires Inv(s) && forall t <- s.pcs :: s.pcs[t] == Idle
    ensures s.holder.Some? ==> Depth(s.log, s.holder.value) > 0
  {
    hide Depth, Legal, Allowed;
    if s.holder.Some? {
      assert ThreadInv(s, s.holder.value);
    }
  }

  /** Any event that the abstract lock allows can come next. */
  lemma Answers(s: State, e: Event) returns (path: seq<State>)
    requires Inv(s) && e.thread in s.pcs && (forall t <- s.pcs :: s.pcs[t] == Idle) && Allowed(s.log, e)
    ensures Calls(path, s, e.thread, e)
  {
    hide Depth, Legal, Inv, Calls;
    match e
    case Locked(t) =>
      FreeWhenIdle(s);
      path := Locks(s, t, false);
    case Failed(t) => path := Fails(s, t, true);
    case Unlocked(t) => path := Unlocks(s, t);
    case Refused(t) => path := Refuses(s, t);
  }

  lemma RunMore(run: seq<State>, path: seq<State>, t: nat)
    requires Run(run) && Own(path, t) && path[0] == run[|run| - 1]
    ensures Run(run + path[1..])
  {
    hide Step, Start;
    var all := run + path[1..];
    forall i | 0 <= i < |all| - 1
      ensures Next(all[i], all[i + 1])
    {
      if i >= |run| - 1 {
        var k := i - (|run| - 1);
        assert Step(path[k], path[k + 1], t);
        assert all[i] == path[k] && all[i + 1] == path[k + 1];
      }
    }
  }

  /** All of `log` is by threads of `s`. */
  predicate ByThreads(s: State, log: seq<Event>) {
    forall i :: 0 <= i < |log| ==> log[i].thread in s.pcs
  }

  /** Every history of a recursive lock is what some run decides, with all its calls returned. */
  lemma {:induction false} Realized(s: State, log: seq<Event>) returns (run: seq<State>)
    requires Start(s) && 0 !in s.pcs && Legal(log) && ByThreads(s, log)
    ensures Run(run) && run[0] == s && run[|run| - 1].log == log && run[|run| - 1].pcs == s.pcs
    decreases |log|
  {
    hide Depth, Inv, Step, Allowed;
    if log == [] {
      run := [s];
    } else {
      var init, e := log[..|log| - 1], log[|log| - 1];
      assert forall i :: 0 <= i < |init| ==> init[..i] == log[..i] && init[i] == log[i];
      var before := Realized(s, init);
      RunInv(before, |before| - 1);
      assert Allowed(log[..|log| - 1], log[|log| - 1]);
      var path := Answers(before[|before| - 1], e);
      RunMore(before, path, e.thread);
      run := before + path[1..];
      assert run[|run| - 1] == path[|path| - 1];
      assert init + [e] == log;
    }
  }

  lemma {:induction false} RunThreads(run: seq<State>, i: nat)
    requires Run(run) && 0 !in run[0].pcs && i < |run|
    ensures run[i].pcs.Keys == run[0].pcs.Keys && ByThreads(run[0], run[i].log)
  {
    hide Depth, Legal, Allowed, ThreadInv;
    if i > 0 {
      RunThreads(run, i - 1);
      RunInv(run, i - 1);
      assert Next(run[i - 1], run[i - 1 + 1]);
      var t: nat :| Step(run[i - 1], run[i], t);
      var e := StepLog(run[i - 1], run[i], t);
    }
  }

  /** What the runs decide are exactly the histories of a recursive lock among their threads. */
  lemma HistoriesExact(s: State, log: seq<Event>)
    requires Start(s) && 0 !in s.pcs
    ensures Legal(log) && ByThreads(s, log) <==> exists run: seq<State> :: Decides(run, s, log)
  {
    hide Legal, Run;
    if Legal(log) && ByThreads(s, log) {
      var run := Realized(s, log);
      NonEmptyRun(run);
      assert Decides(run, s, log);
    }
    if run: seq<State> :| Decides(run, s, log) {
      MutexSafe(run, |run| - 1);
      RunThreads(run, |run| - 1);
    }
  }

  /** A run from `s` that has decided `log`. */
  ghost predicate Decides(run: seq<State>, s: State, log: seq<Event>) {
    run != [] && Run(run) && run[0] == s && run[|run| - 1].log == log
  }

  lemma NonEmptyRun(run: seq<State>)
    requires Run(run)
    ensures run != []
  {
  }
}
