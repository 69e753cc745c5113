/** The garbage collector: object chain, marking, and sweeping through reference-count cascades. */
module Sweep {
  import opened Heap

  /** The part of the heap a sweep changes. `active` are the objects being freed, `pend` the strong
      references not yet released. */
  datatype View = View(live: set<Id>, refcnt: map<Id, nat>, inDel: set<Id>, active: set<Id>, pend: map<Id, seq<Id>>)

  predicate Shaped(h: View) {
    h.live <= h.pend.Keys && h.live <= h.refcnt.Keys
  }

  /** Strong references held by live objects outside `r`. */
  ghost function Held(h: View, r: set<Id>): multiset<Id>
    requires Shaped(h)
  {
    Pending(h.live - r, h.pend)
  }

  /** How far an eight-bit counter has been counted below zero. */
  function Used(n: nat): nat
    requires n < 256
  {
    if n == 0 then 0 else 256 - n
  }

  /** Invariant of a sweep that is to keep the objects of `r`: they are live, are not being freed, and
      their counts exceed the references that other objects hold on them; other objects have counts of
      at least 1; an object being freed cannot reach 0 again. */
  ghost predicate Inv(h: View, refs: map<Id, seq<Ref>>, r: set<Id>) {
    && Shaped(h) && h.live <= refs.Keys
    && r <= h.live && h.active <= h.live && h.active !! r && h.inDel * h.live <= h.active
    && (forall x :: x in h.live ==> h.refcnt[x] < 256 && Held(h, r)[x] < 256)
    && (forall x :: x in h.live && x !in h.active ==> h.pend[x] == Strong(refs[x]))
    && (forall x :: x in h.live && x !in h.active && x !in r ==> h.refcnt[x] >= 1)
    && (forall x :: x in r ==> h.refcnt[x] > Held(h, r)[x])
    && (forall x :: x in h.active && x !in h.inDel ==> Used(h.refcnt[x]) + Held(h, r)[x] < 256)
  }

  /** Releasing a reference to `x` is allowed: the released reference is no longer held. */
  ghost predicate MayRelease(h: View, r: set<Id>, x: Id)
    requires Shaped(h)
  {
    && (x in r && x in h.live ==> h.refcnt[x] > Held(h, r)[x] + 1)
    && (x in h.active && x in h.live && x !in h.inDel ==> h.refcnt[x] < 256 && Used(h.refcnt[x]) + Held(h, r)[x] < 255)
  }

  /** What a cascade of releases does: only objects outside `r` disappear, the objects in `gone` are no
      longer being freed, the references of those in `keep` are untouched, and the count of an
      object that stays goes down exactly with the references held on it from outside `r`, and by `n`
      more for the released `x`. */
  ghost predicate Cascade(h: View, h': View, r: set<Id>, keep: set<Id>, gone: set<Id>, x: Id, n: nat)
    requires Shaped(h) && Shaped(h')
  {
    && h'.active == h.active - gone && h'.live <= h.live - gone && h'.inDel * keep == h.inDel * keep
    && |Held(h', r)| <= |Held(h, r)|
    && (forall y :: y in keep && y in h.live && y in h'.live ==> h'.pend[y] == h.pend[y])
    && (forall y :: y in r && y in h.live ==> y in h'.live)
    && (forall y :: y in h'.live && y !in h.active ==> Tally(h, h', r, x, n, y))
  }

  /** The count of `y` went down by the references to it that are no longer held, and by `n` if it is `x`. */
  ghost predicate Tally(h: View, h': View, r: set<Id>, x: Id, n: nat, y: Id)
    requires Shaped(h) && Shaped(h') && y in h.refcnt && y in h'.refcnt
  {
    && h'.refcnt[y] <= h.refcnt[y]
    && h'.refcnt[y] + Held(h, r)[y] + (if y == x then n else 0) == h.refcnt[y] + Held(h', r)[y]
  }

  /** `h` after `x` drops the first of its remaining references. */
  function Popped(h: View, x: Id): View
    requires x in h.pend && h.pend[x] != []
  {
    h.(pend := h.pend[x := h.pend[x][1..]])
  }

  lemma HeldPopped(h: View, r: set<Id>, x: Id)
    requires Shaped(h) && x in h.live && x !in r && h.pend[x] != []
    ensures Shaped(Popped(h, x)) && Held(h, r) == Held(Popped(h, x), r) + multiset{h.pend[x][0]}
    ensures forall y :: Held(h, r)[y] == Held(Popped(h, x), r)[y] + (if y == h.pend[x][0] then 1 else 0)
  {
    var p, s := h.pend, h.live - r;
    var p' := Popped(h, x).pend;
    PendingPick(s, p, x);
    PendingPick(s, p', x);
    PendingSame(s - {x}, p, p');
    assert p[x] == [p[x][0]] + p[x][1..];
  }

  /** Dropping a reference makes its release legal. */
  lemma PopInv(h: View, refs: map<Id, seq<Ref>>, r: set<Id>, x: Id)
    requires Inv(h, refs, r) && x in h.active && h.pend[x] != []
    ensures Inv(Popped(h, x), refs, r) && MayRelease(Popped(h, x), r, h.pend[x][0])
  {
    hide Held;
    HeldPopped(h, r, x);
  }

  /** One less in eight bits. */
  function Dec(n: nat): nat {
    if n == 0 then 255 else n - 1
  }

  /** `h` after the counter of `x` went down by one. */
  function Lowered(h: View, x: Id): View
    requires x in h.refcnt
  {
    h.(refcnt := h.refcnt[x := Dec(h.refcnt[x])])
  }

  lemma LowerInv(h: View, refs: map<Id, seq<Ref>>, r: set<Id>, x: Id)
    requires Inv(h, refs, r) && MayRelease(h, r, x) && x in h.live && x !in h.inDel
    ensures var h' := Lowered(h, x);
            && (h'.refcnt[x] != 0 ==> Inv(h', refs, r))
            && (h'.refcnt[x] == 0 ==> x !in r && x !in h.active && Inv(h'.(active := h.active + {x}), refs, r))
  {
    hide Held;
    HeldLowered(h, r, x);
  }

  lemma HeldLowered(h: View, r: set<Id>, x: Id)
    requires Shaped(h) && x in h.live
    ensures Held(Lowered(h, x), r) == Held(h, r)
    ensures Held(Lowered(h, x).(active := h.active + {x}), r) == Held(h, r)
  {
    hide Pending;
  }

  /** `h` after the freed object `x` left the chain. */
  function Removed(h: View, x: Id): View {
    h.(live := h.live - {x}, active := h.active - {x})
  }

  lemma RemoveInv(h: View, refs: map<Id, seq<Ref>>, r: set<Id>, x: Id)
    requires Inv(h, refs, r) && x in h.active && h.pend[x] == []
    ensures Inv(Removed(h, x), refs, r) && Held(Removed(h, x), r) == Held(h, r)
  {
    PendingPick(h.live - r, h.pend, x);
    assert h.live - r - {x} == h.live - {x} - r;
    assert Held(Removed(h, x), r) == Held(h, r);
    hide Held;
  }

  // ---- counts between collections ----

  /** No object is being freed. */
  ghost predicate Quiet(h: View, refs: map<Id, seq<Ref>>) {
    && Shaped(h) && h.live <= refs.Keys && h.active == {} && h.inDel !! h.live
    && forall x :: x in h.live ==> h.pend[x] == Strong(refs[x])
  }

  /** References that should be counted for `x`: the counted ones to it, and one more for a root. */
  ghost function Due(h: View, roots: set<Id>, x: Id): nat
    requires Shaped(h)
  {
    Pending(h.live, h.pend)[x] + if x in roots then 1 else 0
  }

  /** Eight-bit counts that are at least what they should be. */
  ghost predicate Counted(h: View, roots: set<Id>)
    requires Shaped(h)
  {
    forall x :: x in h.live ==> Due(h, roots, x) <= h.refcnt[x] && 1 <= h.refcnt[x] < 256
  }

  /** Counts that are exactly what they should be. */
  ghost predicate Exact(h: View, roots: set<Id>)
    requires Shaped(h)
  {
    Counted(h, roots) && forall x :: x in h.live ==> h.refcnt[x] == Due(h, roots, x)
  }

  /** Every object of `s` is a root or the target of a counted reference from `s`. */
  ghost predicate Supported(refs: map<Id, seq<Ref>>, roots: set<Id>, s: set<Id>) {
    s <= refs.Keys && forall x :: x in s ==> x in roots || HasOwner(refs, s, x)
  }

  ghost predicate HasOwner(refs: map<Id, seq<Ref>>, s: set<Id>, x: Id)
    requires s <= refs.Keys
  {
    exists y :: y in s && x in Strong(refs[y])
  }

  /** A counted reference of some object in `s` leads to `x`. */
  lemma {:induction false} PendingFrom(s: set<Id>, pend: map<Id, seq<Id>>, x: Id)
    requires s <= pend.Keys
    ensures Pending(s, pend)[x] > 0 <==> exists y :: y in s && x in pend[y]
    decreases s
  {
    if s != {} {
      var z :| z in s;
      PendingPick(s, pend, z);
      PendingFrom(s - {z}, pend, x);
    }
  }

  /** What should be counted for `x`, split by whether it comes from inside `r`. */
  lemma DueSplit(h: View, refs: map<Id, seq<Ref>>, roots: set<Id>, r: set<Id>, x: Id)
    requires Quiet(h, refs) && r <= h.live
    ensures Due(h, roots, x) == Pending(r, h.pend)[x] + Held(h, r)[x] + if x in roots then 1 else 0
    ensures Pending(r, h.pend)[x] > 0 <==> HasOwner(refs, r, x)
  {
    PendingSplit(r, h.live - r, h.pend);
    assert r + (h.live - r) == h.live;
    PendingFrom(r, h.pend, x);
  }

  /** Counts that are large enough establish the invariant for every supported set. */
  lemma CountsSuffice(h: View, refs: map<Id, seq<Ref>>, roots: set<Id>, r: set<Id>)
    requires Quiet(h, refs) && Counted(h, roots) && r <= h.live && Supported(refs, roots, r)
    ensures Inv(h, refs, r)
  {
    hide Held, HasOwner;
    forall x | x in h.live
      ensures Held(h, r)[x] < 256 && (x in r ==> h.refcnt[x] > Held(h, r)[x])
    {
      DueSplit(h, refs, roots, r, x);
    }
  }

  /** With exact counts the invariant holds for no other set. */
  lemma InvIffSupported(h: View, refs: map<Id, seq<Ref>>, roots: set<Id>, r: set<Id>)
    requires Quiet(h, refs) && Exact(h, roots) && r <= h.live
    ensures Inv(h, refs, r) <==> Supported(refs, roots, r)
  {
    hide Held, HasOwner, Due;
    if Inv(h, refs, r) {
      forall x | x in r
        ensures x in roots || HasOwner(refs, r, x)
      {
        DueSplit(h, refs, roots, r, x);
      }
    } else if Supported(refs, roots, r) {
      CountsSuffice(h, refs, roots, r);
    }
  }

  /** `x` is in some supported part of `r`. */
  ghost predicate Lasts(refs: map<Id, seq<Ref>>, roots: set<Id>, r: set<Id>, x: Id) {
    exists s: set<Id> :: x in s && s <= r && Supported(refs, roots, s)
  }

  /** The objects of `r` that a collection cannot take away. */
  ghost function Lasting(refs: map<Id, seq<Ref>>, roots: set<Id>, r: set<Id>): set<Id> {
    set x | x in r && Lasts(refs, roots, r, x)
  }

  /** They are the greatest supported part of `r`. */
  lemma LastingIsGreatest(refs: map<Id, seq<Ref>>, roots: set<Id>, r: set<Id>)
    requires r <= refs.Keys
    ensures Lasting(refs, roots, r) <= r && Supported(refs, roots, Lasting(refs, roots, r))
    ensures forall s: set<Id> :: s <= r && Supported(refs, roots, s) ==> s <= Lasting(refs, roots, r)
    ensures Supported(refs, roots, r) <==> Lasting(refs, roots, r) == r
  {
    var k := Lasting(refs, roots, r);
    forall s: set<Id> | s <= r && Supported(refs, roots, s)
      ensures s <= k
    {
      assert forall x :: x in s ==> Lasts(refs, roots, r, x);
    }
    forall x | x in k
      ensures x in roots || HasOwner(refs, k, x)
    {
      var s: set<Id> :| x in s && s <= r && Supported(refs, roots, s);
      if x !in roots {
        var y :| y in s && x in Strong(refs[y]);
        assert s <= k && y in k;
      }
    }
  }

  // ---- composing cascades ----

  lemma LowerCascade(h: View, refs: map<Id, seq<Ref>>, r: set<Id>, x: Id)
    requires Inv(h, refs, r) && MayRelease(h, r, x) && x in h.live && x !in h.inDel && Lowered(h, x).refcnt[x] != 0
    ensures Cascade(h, Lowered(h, x), r, h.active, {}, x, 1)
  {
    assert Held(Lowered(h, x), r) == Held(h, r);
    hide Held;
  }

  lemma FreedCascade(h: View, h': View, refs: map<Id, seq<Ref>>, r: set<Id>, x: Id)
    requires Inv(h, refs, r) && x in h.live && x !in r && x !in h.active && Shaped(h')
    requires Cascade(Lowered(h, x).(active := h.active + {x}), h', r, h.active, {x}, x, 0)
    ensures Cascade(h, h', r, h.active, {}, x, 1)
  {
    var h1 := Lowered(h, x).(active := h.active + {x});
    assert Held(h1, r) == Held(h, r);
    hide Held;
  }

  /** One turn of the loop that releases the references of `x`. */
  lemma ReleaseCascade(h0: View, h: View, h': View, r: set<Id>, x: Id)
    requires Shaped(h0) && Shaped(h) && Shaped(h') && x in h.live && x in h'.live && x !in r && h.pend[x] != []
    requires x in h.active && h.active <= h'.live && r <= h0.live && r <= h.live
    requires Cascade(h0, h, r, h0.active - {x}, {}, x, 0)
    requires Cascade(Popped(h, x), h', r, h.active, {}, h.pend[x][0], 1)
    ensures Cascade(h0, h', r, h0.active - {x}, {}, x, 0) && h'.pend[x] == h.pend[x][1..]
  {
    HeldPopped(h, r, x);
    hide Held, Shaped, Tally;
    SameDel(h0.inDel, h.inDel, h'.inDel, h0.active - {x}, h.active);
    forall y | y in h'.live && y !in h0.active
      ensures Tally(h0, h', r, x, 0, y)
    {
      TallyRelease(h0, h, h', r, x, y);
    }
  }

  lemma TallyRelease(h0: View, h: View, h': View, r: set<Id>, x: Id, y: Id)
    requires Shaped(h0) && Shaped(h) && Shaped(h') && x in h.live && x !in r && h.pend[x] != []
    requires y in h0.refcnt && y in h.refcnt && y in h'.refcnt
    requires Tally(h0, h, r, x, 0, y) && Tally(Popped(h, x), h', r, h.pend[x][0], 1, y)
    ensures Tally(h0, h', r, x, 0, y)
  {
    HeldPopped(h, r, x);
  }

  lemma SameDel(a: set<Id>, b: set<Id>, c: set<Id>, keep: set<Id>, active: set<Id>)
    requires b * keep == a * keep && c * active == b * active && keep <= active
    ensures c * keep == a * keep
  {
    forall z | z in keep
      ensures z in c <==> z in a
    {
      assert z in c * active <==> z in b * active;
      assert z in b * keep <==> z in a * keep;
    }
  }

  /** A dropped reference makes the cascade smaller. */
  lemma PopSmaller(h0: View, h: View, r: set<Id>, x: Id)
    requires Shaped(h0) && Shaped(h) && x in h.live && x !in r && h.pend[x] != []
    requires Cascade(h0, h, r, h0.active - {x}, {}, x, 0)
    ensures Shaped(Popped(h, x)) && |Held(Popped(h, x), r)| < |Held(h0, r)|
  {
    HeldPopped(h, r, x);
    hide Held;
  }

  lemma KeptActive(h: View, h': View, r: set<Id>, x: Id)
    requires Shaped(h) && Shaped(h') && Cascade(h, h', r, h.active, {}, x, 1)
    ensures h'.active == h.active
  {
    hide Held;
  }

  lemma RemoveCascade(h0: View, h: View, refs: map<Id, seq<Ref>>, r: set<Id>, x: Id)
    requires Inv(h0, refs, r) && Inv(h, refs, r) && x in h.active && h.pend[x] == []
    requires Cascade(h0, h, r, h0.active - {x}, {}, x, 0)
    ensures Inv(Removed(h, x), refs, r) && Cascade(h0, Removed(h, x), r, h0.active - {x}, {x}, x, 0)
  {
    hide Held, Inv;
    InvFacts(h0, refs, r);
    InvFacts(h, refs, r);
    RemoveInv(h, refs, r, x);
  }

  lemma DelCascade(h: View, refs: map<Id, seq<Ref>>, r: set<Id>, x: Id)
    requires Inv(h, refs, r) && x in h.active
    ensures var h' := h.(inDel := h.inDel + {x});
            Inv(h', refs, r) && Cascade(h, h', r, h.active - {x}, {}, x, 0) && Cascade(h, h, r, h.active - {x}, {}, x, 0)
  {
    var h' := h.(inDel := h.inDel + {x});
    assert Held(h', r) == Held(h, r);
    hide Held;
  }

  lemma InvFacts(h: View, refs: map<Id, seq<Ref>>, r: set<Id>)
    requires Inv(h, refs, r)
    ensures Shaped(h) && h.live <= refs.Keys && r <= h.live && h.active <= h.live && h.active !! r
    ensures h.inDel * h.live <= h.active
    ensures forall x :: x in h.live && x !in h.active ==> h.pend[x] == Strong(refs[x]) && 1 <= h.refcnt[x] < 256
  {
    hide Held;
  }

  lemma NoCascade(h: View, r: set<Id>, x: Id)
    requires Shaped(h) && x !in r && (x in h.live ==> x in h.active)
    ensures Cascade(h, h, r, h.active, {}, x, 1) && Cascade(h, h, r, h.active - {x}, {}, x, 0)
  {
    hide Held;
  }

  // ---- whole passes ----

  /** Effect of any number of releases of objects outside `r`, the objects of `k` being protected: no object of `k` is
      lost, no count goes up, and the count of an object of `r` that stays, minus the references held on it
      from outside `k`, is the same. */
  ghost predicate Swept(h0: View, h: View, r: set<Id>, k: set<Id>) {
    && Shaped(h0) && Shaped(h) && k <= h.live <= h0.live && h.active == {}
    && (forall y :: y in h.live ==> h.refcnt[y] <= h0.refcnt[y])
    && (forall y :: y in h.live && y in r ==> h.refcnt[y] + Held(h0, k)[y] == h0.refcnt[y] + Held(h, k)[y])
  }

  lemma SweptStep(h0: View, h: View, h': View, refs: map<Id, seq<Ref>>, r: set<Id>, k: set<Id>, x: Id)
    requires Swept(h0, h, r, k) && Inv(h, refs, k) && Inv(h', refs, k) && x !in r && Cascade(h, h', k, h.active, {}, x, 1)
    ensures Swept(h0, h', r, k)
  {
    hide Held;
  }

  /** Effect of releasing each object of `list` once: the count of every object that stays went down by the references
      to it that are no longer held from outside `k`, and by one more if it is in the list. */
  ghost predicate Released(h0: View, h: View, k: set<Id>, list: seq<Id>) {
    && Shaped(h0) && Shaped(h) && h.live <= h0.live
    && forall y :: y in h.live ==> h.refcnt[y] + Held(h0, k)[y] + multiset(list)[y] == h0.refcnt[y] + Held(h, k)[y]
  }

  lemma ReleasedNone(h: View, k: set<Id>)
    requires Shaped(h)
    ensures Released(h, h, k, [])
  {
    hide Held;
  }

  lemma ReleasedStep(h0: View, h: View, h': View, k: set<Id>, list: seq<Id>, x: Id)
    requires Released(h0, h, k, list) && h.active == {} && Shaped(h') && Cascade(h, h', k, h.active, {}, x, 1)
    ensures Released(h0, h', k, list + [x])
  {
    hide Held;
    forall y | y in h'.live
      ensures h'.refcnt[y] + Held(h0, k)[y] + multiset(list + [x])[y] == h0.refcnt[y] + Held(h', k)[y]
    {
      assert Tally(h, h', k, x, 1, y);
      assert multiset(list + [x])[y] == multiset(list)[y] + if y == x then 1 else 0;
    }
  }

  lemma SweptStart(h: View, refs: map<Id, seq<Ref>>, r: set<Id>, k: set<Id>)
    requires Inv(h, refs, k) && h.active == {}
    ensures Swept(h, h, r, k)
  {
    hide Held;
  }

  lemma SweptTrans(h0: View, h1: View, h2: View, r: set<Id>, k: set<Id>)
    requires Swept(h0, h1, r, k) && Swept(h1, h2, r, k)
    ensures Swept(h0, h2, r, k)
  {
    hide Held;
  }

  lemma CascadeDown(h: View, h': View, r: set<Id>, x: Id)
    requires Shaped(h) && Shaped(h') && Cascade(h, h', r, h.active, {}, x, 1)
    ensures h'.active == h.active && h'.live <= h.live
    ensures forall y :: y in h'.live && y !in h.active ==> h'.refcnt[y] <= h.refcnt[y]
  {
    hide Held;
  }

  lemma MayReleaseFree(h: View, r: set<Id>, x: Id)
    requires Shaped(h) && h.active == {} && x !in r
    ensures MayRelease(h, r, x)
  {
    hide Held;
  }

  lemma RootsKept(h0: View, h: View, roots: set<Id>, r: set<Id>, k: set<Id>)
    requires Swept(h0, h, r, k) && roots * h0.live <= k
    ensures roots * h.live == roots * h0.live
  {
    hide Held;
  }

  /** A pass that lowered or freed an object `x` made the sum of all counts smaller. */
  lemma SweptLess(h0: View, h: View, refs: map<Id, seq<Ref>>, r: set<Id>, k: set<Id>, x: Id)
    requires Swept(h0, h, r, k) && Inv(h0, refs, k) && h0.active == {} && x in h0.live
    requires x !in h.live || h.refcnt[x] < h0.refcnt[x]
    ensures Counts(h.live, h.refcnt) < Counts(h0.live, h0.refcnt)
  {
    InvFacts(h0, refs, k);
    hide Held;
    CountsLess(h0.live, h0.refcnt, h.live, h.refcnt);
  }

  /** When nothing outside `r` is left, nothing is held from outside. */
  lemma SweptAll(h0: View, h: View, r: set<Id>)
    requires Swept(h0, h, r, r) && h.live == r
    ensures forall y :: y in r ==> h.refcnt[y] + Held(h0, r)[y] == h0.refcnt[y]
  {
    assert h.live - r == {};
  }

  lemma QuietAgain(h: View, refs: map<Id, seq<Ref>>, r: set<Id>)
    requires Inv(h, refs, r) && h.active == {}
    ensures Quiet(h, refs)
  {
    hide Held;
  }

  /** Between what should be counted for `x` before and after lies what the sweep took off its count. */
  lemma DueSwept(h0: View, h: View, refs: map<Id, seq<Ref>>, roots: set<Id>, r: set<Id>, k: set<Id>, x: Id)
    requires Quiet(h0, refs) && Quiet(h, refs) && Swept(h0, h, r, k) && x in h.live && x in r
    ensures h.refcnt[x] + Due(h0, roots, x) == h0.refcnt[x] + Due(h, roots, x)
  {
    hide Due, Held, HasOwner;
    DueSplit(h0, refs, roots, k, x);
    DueSplit(h, refs, roots, k, x);
    PendingSame(k, h0.pend, h.pend);
  }

  /** Right counts stay right, exact ones exact. */
  lemma CountedAgain(h0: View, h: View, refs: map<Id, seq<Ref>>, roots: set<Id>, r: set<Id>, k: set<Id>)
    requires Quiet(h0, refs) && Counted(h0, roots) && Inv(h, refs, k) && Swept(h0, h, r, k) && h.live <= r
    ensures Quiet(h, refs) && Counted(h, roots) && (Exact(h0, roots) ==> Exact(h, roots))
  {
    hide Due, Held;
    QuietAgain(h, refs, k);
    forall x | x in h.live
      ensures h.refcnt[x] + Due(h0, roots, x) == h0.refcnt[x] + Due(h, roots, x)
    {
      DueSwept(h0, h, refs, roots, r, k, x);
    }
  }

  /** With exact counts, every heap without objects being freed is supported as a whole. */
  lemma ExactSupported(h: View, refs: map<Id, seq<Ref>>, roots: set<Id>)
    requires Quiet(h, refs) && Exact(h, roots)
    ensures Supported(refs, roots, h.live)
  {
    hide Due, Held, HasOwner;
    forall x | x in h.live
      ensures x in roots || HasOwner(refs, h.live, x)
    {
      DueSplit(h, refs, roots, h.live, x);
      NothingOutside(h, x);
    }
  }

  lemma NothingOutside(h: View, x: Id)
    requires Shaped(h)
    ensures Held(h, h.live)[x] == 0
  {
    assert h.live - h.live == {};
  }
}

module Collector {
  import opened Heap
  import opened Sweep

  const FREE_LIST_SIZE := 16

  /** The objects of `chain` that are not in `marked`, in order. */
  function Unmarked(chain: seq<Id>, marked: set<Id>): seq<Id> {
    if chain == [] then []
    else Unmarked(chain[..|chain| - 1], marked) + if chain[|chain| - 1] in marked then [] else [chain[|chain| - 1]]
  }

  function First<T>(s: seq<T>, n: nat): seq<T> {
    if |s| <= n then s else s[..n]
  }

  lemma UnmarkedStep(chain: seq<Id>, marked: set<Id>, i: nat)
    requires i < |chain|
    ensures Unmarked(chain[..i + 1], marked) == Unmarked(chain[..i], marked) + if chain[i] in marked then [] else [chain[i]]
  {
    assert chain[..i + 1][..i] == chain[..i];
  }

  /** The unmarked objects of a part of the chain come first. */
  lemma {:induction false} UnmarkedSplit(chain: seq<Id>, marked: set<Id>, i: nat)
    requires i <= |chain|
    ensures Unmarked(chain[..i], marked) <= Unmarked(chain, marked)
    ensures i < |chain| && chain[i] !in marked ==> |Unmarked(chain[..i], marked)| < |Unmarked(chain, marked)|
  {
    if i == |chain| {
      assert chain[..i] == chain;
    } else {
      var init := chain[..|chain| - 1];
      UnmarkedSplit(init, marked, i);
      assert init[..i] == chain[..i];
    }
  }

  lemma {:induction false} UnmarkedExact(chain: seq<Id>, marked: set<Id>, x: Id)
    ensures x in Unmarked(chain, marked) <==> x in chain && x !in marked
  {
    if chain != [] {
      UnmarkedExact(chain[..|chain| - 1], marked, x);
      assert chain == chain[..|chain| - 1] + [chain[|chain| - 1]];
    }
  }

  /** What was picked is unmarked, and nothing was picked only if everything is marked. */
  lemma PickedExact(chain: seq<Id>, marked: set<Id>)
    ensures var picked := First(Unmarked(chain, marked), 16);
      && (forall x :: x in picked ==> x in chain && x !in marked)
      && (picked == [] <==> forall x :: x in chain ==> x in marked)
  {
    var all := Unmarked(chain, marked);
    forall x
      ensures x in all <==> x in chain && x !in marked
    {
      UnmarkedExact(chain, marked, x);
    }
    assert all != [] ==> all[0] in all;
  }

  class GC {
    /** References held by each object, in the order in which freeing the object releases them. */
    const refs: map<Id, seq<Ref>>
    /** Lists, tuples and dicts: a native `__del__` releases their contents. */
    const containers: set<Id>
    /** Objects carrying the GC-root flag. */
    const roots: set<Id>

    var chain: seq<Id>           // all live objects
    var refcnt: map<Id, nat>     // eight-bit counters
    var marked: set<Id>
    var inDel: set<Id>           // objects inside `__del__`
    ghost var active: set<Id>
    ghost var pend: map<Id, seq<Id>>

    constructor (refs: map<Id, seq<Ref>>, containers: set<Id>, roots: set<Id>, chain: seq<Id>, refcnt: map<Id, nat>)
      ensures this.refs == refs && this.containers == containers && this.roots == roots && this.chain == chain
      ensures Abs() == View((set x | x in chain), refcnt, {}, {}, map x | x in refs :: Strong(refs[x]))
    {
      this.refs, this.containers, this.roots, this.chain, this.refcnt := refs, containers, roots, chain, refcnt;
      marked, inDel, active := {}, {}, {};
      pend := map x | x in refs :: Strong(refs[x]);
    }

    ghost function Abs(): View
      reads this
    {
      View((set x | x in chain), refcnt, inDel, active, pend)
    }

    ghost predicate Distinct()
      reads this`chain
    {
      forall i, j :: 0 <= i < j < |chain| ==> chain[i] != chain[j]
    }

    // ---- marking ----

    /** Marks `x` and, through its attributes and contents, everything it reaches. */
    method MarkObj(x: Id, ghost heap: set<Id>)
      requires x in heap && ClosedUnder(refs, heap)
      modifies this`marked
      ensures old(marked) <= marked <= old(marked) + heap && x in marked
      ensures forall y, k :: y in marked && y !in old(marked) && 0 <= k < |refs[y]| && refs[y][k].followed ==>
        refs[y][k].target in marked
      ensures forall y :: y in marked && y !in old(marked) ==> Reaches(refs, x, y)
      decreases heap - marked
    {
      if x in marked {
        return;
      }
      marked := marked + {x};
      ReachesSelf(refs, x);
      for i := 0 to |refs[x]|
        invariant old(marked) + {x} <= marked <= old(marked) + heap
        invariant forall k :: 0 <= k < i && refs[x][k].followed ==> refs[x][k].target in marked
        invariant forall y, k :: y in marked && y !in old(marked) && y != x && 0 <= k < |refs[y]| && refs[y][k].followed ==>
                    refs[y][k].target in marked
        invariant forall y :: y in marked && y !in old(marked) ==> Reaches(refs, x, y)
      {
        if refs[x][i].followed {
          ghost var before := marked;
          var c := refs[x][i].target;
          MarkObj(c, heap);
          forall y | y in marked && y !in before ensures Reaches(refs, x, y) {
            PointsAt(refs[x], i);
            ReachesStep(refs, x, c, y);
          }
        }
      }
    }

    /** Clears the marks, then marks from every root on the chain: afterwards exactly the reachable
        objects are marked. */
    method Mark(ghost heap: set<Id>)
      requires ClosedUnder(refs, heap) && forall x :: x in chain && x in roots ==> x in heap
      modifies this`marked
      ensures marked <= heap
      ensures forall y :: y in marked <==> Reachable(refs, roots * Abs().live, y)
    {
      marked := {};
      ghost var live := Abs().live;
      for i := 0 to |chain|
        invariant marked <= heap && ClosedUnder(refs, marked)
        invariant forall k :: 0 <= k < i && chain[k] in roots ==> chain[k] in marked
        invariant forall y :: y in marked ==> Reachable(refs, roots * live, y)
      {
        if chain[i] in roots {
          MarkObj(chain[i], heap);
        }
      }
      MarkedIsReachable(refs, roots * live, marked);
    }

    // ---- sweeping ----

    /** Whether `x` is on the chain. */
    method CheckAlive(x: Id) returns (ok: bool)
      ensures ok == (x in chain)
    {
      for i := 0 to |chain|
        invariant x !in chain[..i]
      {
        if chain[i] == x {
          return true;
        }
      }
      ok := false;
    }

    method RemoveGcChain(x: Id)
      requires x in chain && Distinct()
      modifies this`chain
      ensures Distinct() && (set y | y in chain) == (set y | y in old(chain)) - {x}
      ensures exists i :: 0 <= i < |old(chain)| && old(chain)[i] == x && chain == old(chain)[..i] + old(chain)[i + 1..]
    {
      var i := 0;
      while chain[i] != x
        invariant 0 <= i < |chain| && x in chain[i..]
        decreases |chain| - i
      {
        i := i + 1;
      }
      chain := chain[..i] + chain[i + 1..];
      assert forall y :: y in old(chain) && y != x ==> y in chain;
    }

    /** A reference to `x` is released. Nothing happens if `x` is not on the chain or inside its `__del__`; otherwise its
        count goes down by one in eight bits, and the object is freed exactly when the count becomes 0. */
    method ObjGC(x: Id, ghost r: set<Id>)
      requires Distinct() && Inv(Abs(), refs, r) && MayRelease(Abs(), r, x)
      modifies this`chain, this`refcnt, this`inDel, this`active, this`pend
      ensures Distinct() && Inv(Abs(), refs, r) && Cascade(old(Abs()), Abs(), r, old(active), {}, x, 1)
      ensures x !in old(chain) || x in old(inDel) ==> Abs() == old(Abs())
      ensures x in old(chain) && x !in old(inDel) && old(refcnt[x]) != 1 ==> Abs() == Lowered(old(Abs()), x)
      ensures x in old(chain) && x !in old(inDel) && old(refcnt[x]) == 1 ==> x !in chain
      ensures x in old(chain) && x !in old(inDel) && x !in active ==> x !in chain || refcnt[x] < old(refcnt[x])
      ensures old(inDel) <= inDel <= old(inDel) + containers
      decreases |Held(Abs(), r)|, 2
    {
      hide Inv, Cascade, MayRelease;
      ghost var h := Abs();
      InvFacts(h, refs, r);
      var alive := CheckAlive(x);
      if !alive || x in inDel {
        NoCascade(h, r, x);
        return;
      }
      LowerInv(h, refs, r, x);
      refcnt := refcnt[x := if refcnt[x] == 0 then 255 else refcnt[x] - 1];
      if refcnt[x] == 0 {
        active := active + {x};
        assert Abs() == Lowered(h, x).(active := h.active + {x});
        ObjDeinit(x, r);
        assert old(active) + {x} - {x} == old(active);
        FreedCascade(h, Abs(), refs, r, x);
      } else {
        LowerCascade(h, refs, r, x);
      }
    }

    /** Frees `x`: releases all its references, then takes it off the chain. */
    method ObjDeinit(x: Id, ghost r: set<Id>)
      requires Distinct() && Inv(Abs(), refs, r) && x in active && pend[x] == Strong(refs[x])
      modifies this`chain, this`refcnt, this`inDel, this`active, this`pend
      ensures Distinct() && Inv(Abs(), refs, r) && Shaped(Abs())
      ensures Cascade(old(Abs()), Abs(), r, old(active) - {x}, {x}, x, 0) && x !in chain
      ensures old(inDel) <= inDel <= old(inDel) + containers && (x in containers ==> x in inDel)
      decreases |Held(Abs(), r)|, 1
    {
      hide Inv, Cascade, MayRelease, Held;
      ReleaseAll(x, r);
      InvFacts(Abs(), refs, r);
      ghost var h := Abs();
      RemoveCascade(old(Abs()), h, refs, r, x);
      RemoveGcChain(x);
      active := active - {x};
      assert Abs() == Removed(h, x);
    }

    /** Releases the references of `x`, a container being flagged as inside `__del__` meanwhile. */
    method ReleaseAll(x: Id, ghost r: set<Id>)
      requires Distinct() && Inv(Abs(), refs, r) && x in active && pend[x] == Strong(refs[x])
      modifies this`chain, this`refcnt, this`inDel, this`active, this`pend
      ensures Distinct() && Shaped(Abs()) && Inv(Abs(), refs, r) && x in active && x in pend && pend[x] == []
      ensures Cascade(old(Abs()), Abs(), r, old(active) - {x}, {}, x, 0)
      ensures old(inDel) <= inDel <= old(inDel) + containers && (x in containers ==> x in inDel)
      decreases |Held(Abs(), r)|, 0
    {
      hide Inv, Cascade, MayRelease, Held;
      InvFacts(Abs(), refs, r);
      DelCascade(Abs(), refs, r, x);
      if x in containers {
        inDel := inDel + {x};
      }
      var todo := Strong(refs[x]);
      while todo != []
        invariant Distinct() && Shaped(Abs()) && Inv(Abs(), refs, r) && x in active && x in pend && pend[x] == todo
        invariant Cascade(old(Abs()), Abs(), r, old(active) - {x}, {}, x, 0)
        invariant old(inDel) <= inDel <= old(inDel) + containers && (x in containers ==> x in inDel)
        decreases |todo|
      {
        ghost var h := Abs();
        var t := todo[0];
        InvFacts(h, refs, r);
        PopInv(h, refs, r, x);
        PopSmaller(old(Abs()), h, r, x);
        todo := todo[1..];
        pend := pend[x := todo];
        assert Abs() == Popped(h, x);
        ObjGC(t, r);
        InvFacts(Abs(), refs, r);
        KeptActive(Popped(h, x), Abs(), r, t);
        ReleaseCascade(old(Abs()), h, Abs(), r, x);
      }
    }

    // ---- collection ----

    /** Between collector steps: `r` is the set of objects reachable from the roots, and the counts
        protect the part `k` of it. */
    ghost predicate Sound(r: set<Id>, k: set<Id>)
      reads this
    {
      && Distinct() && Inv(Abs(), refs, k) && active == {}
      && k <= r <= refs.Keys && roots * Abs().live <= k
      && (forall x :: x in r <==> Reachable(refs, roots * Abs().live, x))
    }

    /** Releases the picked objects, some of which an earlier release may have freed already. */
    method FreeAll(freeList: seq<Id>, ghost r: set<Id>, ghost k: set<Id>)
      requires Distinct() && Inv(Abs(), refs, k) && active == {} && k <= r
      requires forall x :: x in freeList ==> x in chain && x !in r
      modifies this`chain, this`refcnt, this`inDel, this`active, this`pend
      ensures Distinct() && Shaped(Abs()) && Inv(Abs(), refs, k) && active == {}
      ensures Swept(old(Abs()), Abs(), r, k) && Released(old(Abs()), Abs(), k, freeList)
      ensures freeList == [] ==> Abs() == old(Abs())
      ensures freeList != [] ==>
        var x := freeList[0]; x !in chain || (x in refcnt && x in old(refcnt) && refcnt[x] < old(refcnt)[x])
    {
      hide Inv, Swept, Cascade, Released, Held;
      ghost var h0 := Abs();
      InvFacts(h0, refs, k);
      ReleasedNone(h0, k);
      SweptStart(h0, refs, r, k);
      for i := 0 to |freeList|
        invariant Distinct() && Shaped(Abs()) && Inv(Abs(), refs, k) && active == {}
        invariant Swept(h0, Abs(), r, k) && Released(h0, Abs(), k, freeList[..i])
        invariant i == 0 ==> Abs() == h0
        invariant i > 0 ==> freeList[0] !in chain || refcnt[freeList[0]] < h0.refcnt[freeList[0]]
      {
        ghost var h := Abs();
        InvFacts(h, refs, k);
        MayReleaseFree(h, k, freeList[i]);
        ObjGC(freeList[i], k);
        SweptStep(h0, h, Abs(), refs, r, k, freeList[i]);
        InvFacts(Abs(), refs, k);
        ReleasedStep(h0, h, Abs(), k, freeList[..i], freeList[i]);
        assert freeList[..i + 1] == freeList[..i] + [freeList[i]];
        CascadeDown(h, Abs(), k, freeList[i]);
      }
      assert freeList[..|freeList|] == freeList;
    }

    /** One pass: mark, pick the first 16 unmarked objects, release each of them once. */
    method MarkSweepOnce(ghost r: set<Id>, ghost k: set<Id>) returns (count: nat)
      requires Sound(r, k)
      modifies this
      ensures Sound(r, k) && Swept(old(Abs()), Abs(), r, k)
      ensures count == |First(Unmarked(old(chain), r), 16)| && (count == 0 <==> old(Abs()).live <= r)
      ensures Released(old(Abs()), Abs(), k, First(Unmarked(old(chain), r), 16))
      ensures count == 0 ==> Abs() == old(Abs())
      ensures count > 0 ==> Counts(Abs().live, refcnt) < Counts(old(Abs()).live, old(refcnt))
    {
      hide Inv, Swept, Cascade, Reachable, Released, Held;
      ghost var h0 := Abs();
      InvFacts(h0, refs, k);
      ReachableClosed(refs, roots * h0.live, r);
      Mark(r);
      assert marked == r && Abs() == h0;
      var freeList := PickUnmarked();
      PickedExact(chain, marked);
      count := |freeList|;
      assert count == 0 <==> h0.live <= r;
      FreeAll(freeList, r, k);
      RootsKept(h0, Abs(), roots, r, k);
      if count > 0 {
        SweptLess(h0, Abs(), refs, r, k, freeList[0]);
      }
    }

    /** The first 16 unmarked objects of the chain in its order, or all of them when there are fewer. */
    method PickUnmarked() returns (freeList: seq<Id>)
      ensures freeList == First(Unmarked(chain, marked), 16)
    {
      freeList := [];
      for i := 0 to |chain|
        invariant |freeList| <= FREE_LIST_SIZE && freeList == Unmarked(chain[..i], marked)
      {
        UnmarkedSplit(chain, marked, i);
        UnmarkedStep(chain, marked, i);
        if chain[i] !in marked {
          if |freeList| > FREE_LIST_SIZE - 1 {
            return;
          }
          freeList := freeList + [chain[i]];
        }
      }
      assert chain[..|chain|] == chain;
    }

    /** Passes until one finds nothing to free. */
    method Passes(ghost r: set<Id>, ghost k: set<Id>) returns (count: nat)
      requires Sound(r, k)
      modifies this
      ensures Sound(r, k) && Swept(old(Abs()), Abs(), r, k) && Abs().live <= r
      ensures count == 0 <==> old(Abs()).live <= r
    {
      hide Swept, Reachable, Inv;
      count := 0;
      ghost var h0 := Abs();
      SweptStart(h0, refs, r, k);
      while true
        invariant Sound(r, k) && Swept(h0, Abs(), r, k)
        invariant count == 0 ==> Abs() == h0
        invariant count > 0 ==> !(h0.live <= r)
        decreases SumOf(Abs())
      {
        ghost var h := Abs();
        InvFacts(h, refs, k);
        var n := MarkSweepOnce(r, k);
        InvFacts(Abs(), refs, k);
        SweptTrans(h0, h, Abs(), r, k);
        if n == 0 {
          break;
        }
        count := count + 1;
      }
    }

    /**
     * A whole collection ends and leaves only reachable objects on the chain; right counts stay right, and the number
     * of passes is 0 exactly when there was nothing to free. If each
     * reachable object is a root or the target of a counted reference from a reachable object, all of them stay
     * and each count goes down by exactly the references that garbage held. With exact counts the objects
     * that stay are exactly the lasting ones, so all reachable objects stay only if that condition holds.
     */
    method MarkSweep(ghost r: set<Id>) returns (count: nat)
      requires Distinct() && Quiet(Abs(), refs) && Counted(Abs(), roots)
      requires r <= Abs().live && forall x :: x in r <==> Reachable(refs, roots * Abs().live, x)
      modifies this
      ensures Distinct() && Quiet(Abs(), refs) && Counted(Abs(), roots)
      ensures Lasting(refs, roots, r) <= Abs().live <= r && (count == 0 <==> old(Abs()).live <= r)
      ensures Supported(refs, roots, r) ==>
        Abs().live == r && forall y :: y in r ==> refcnt[y] + Held(old(Abs()), r)[y] == old(refcnt)[y]
      ensures Exact(old(Abs()), roots) ==>
        && Exact(Abs(), roots) && Abs().live == Lasting(refs, roots, r)
        && (Abs().live == r <==> Supported(refs, roots, r))
    {
      hide Swept, Reachable, Inv, Counted, Exact, Supported, Lasting, Held;
      ghost var h0, k := Abs(), Lasting(refs, roots, r);
      LastingIsGreatest(refs, roots, r);
      CountsSuffice(h0, refs, roots, k);
      RootsLast(refs, roots, h0.live, r);
      count := Passes(r, k);
      CountedAgain(h0, Abs(), refs, roots, r, k);
      KeptLive(Abs(), refs, k);
      if k == r {
        SweptAll(h0, Abs(), r);
      }
      if Exact(h0, roots) {
        ExactSupported(Abs(), refs, roots);
      }
    }
  }

  ghost function SumOf(h: View): nat {
    if h.live <= h.refcnt.Keys then Counts(h.live, h.refcnt) else 0
  }

  lemma KeptLive(h: View, refs: map<Id, seq<Ref>>, k: set<Id>)
    requires Inv(h, refs, k)
    ensures k <= h.live
  {
    hide Held;
  }

  lemma RootsLast(refs: map<Id, seq<Ref>>, roots: set<Id>, live: set<Id>, r: set<Id>)
    requires live <= refs.Keys && forall x :: x in r <==> Reachable(refs, roots * live, x)
    requires forall s: set<Id> :: s <= r && Supported(refs, roots, s) ==> s <= Lasting(refs, roots, r)
    ensures roots * live <= Lasting(refs, roots, r)
  {
    hide Lasting, Reaches;
    forall x | x in roots * live
      ensures x in r
    {
      ReachesSelf(refs, x);
    }
    assert Supported(refs, roots, roots * live);
  }

  // ---- a reachable object that is lost ----

  /** A root 1 that refers weakly to 2, and garbage 3 that holds counted references to itself and to 2. */
  const WEAK_REFS: map<Id, seq<Ref>> :=
    map[1 := [Ref(2, false, true)], 2 := [], 3 := [Ref(2, true, true), Ref(3, true, true)]]

  const WEAK_HEAP: View := View({1, 2, 3}, map[1 := 1, 2 := 1, 3 := 1], {}, {}, map[1 := [], 2 := [], 3 := [2, 3]])

  lemma WeakStrong()
    ensures Strong(WEAK_REFS[1]) == [] && Strong(WEAK_REFS[2]) == [] && Strong(WEAK_REFS[3]) == [2, 3]
  {
    assert WEAK_REFS[1][1..] == [] && WEAK_REFS[3][1..][1..] == [];
    assert Strong(WEAK_REFS[3][1..]) == [3];
  }

  lemma WeakPending()
    ensures Pending(WEAK_HEAP.live, WEAK_HEAP.pend) == multiset{2, 3}
  {
    hide Pending;
    var p := WEAK_HEAP.pend;
    PendingPick({1, 2, 3}, p, 3);
    assert {1, 2, 3} - {3} == {1, 2};
    PendingPick({1, 2}, p, 2);
    assert {1, 2} - {2} == {1};
    PendingPick({1}, p, 1);
    assert {1} - {1} == {};
    PendingNone(p);
  }

  lemma PendingNone(pend: map<Id, seq<Id>>)
    ensures Pending({}, pend) == multiset{}
  {
  }

  lemma WeakReach()
    ensures forall x :: x in {1, 2} <==> Reachable(WEAK_REFS, {1}, x)
  {
    PointsAt(WEAK_REFS[1], 0);
    ReachesSelf(WEAK_REFS, 1);
    ReachesOn(WEAK_REFS, 1, 1, 2);
    forall x | Reachable(WEAK_REFS, {1}, x)
      ensures x in {1, 2}
    {
      var p :| Path(WEAK_REFS, p) && p[0] == 1 && p[|p| - 1] == x;
      PathStays(WEAK_REFS, {1, 2}, p);
    }
  }

  lemma WeakExact()
    ensures Quiet(WEAK_HEAP, WEAK_REFS) && Exact(WEAK_HEAP, {1})
  {
    hide Pending;
    WeakStrong();
    WeakPending();
  }

  lemma WeakOwner(s: set<Id>)
    requires 2 in s && s <= {1, 2}
    ensures !Supported(WEAK_REFS, {1}, s)
  {
    hide Strong;
    WeakStrong();
  }

  /** All counts are exact, 1 and 2 are the reachable objects, and 2 has no owner among them. */
  lemma WeakAlone()
    ensures Quiet(WEAK_HEAP, WEAK_REFS) && Exact(WEAK_HEAP, {1})
    ensures forall x :: x in {1, 2} <==> Reachable(WEAK_REFS, {1}, x)
    ensures !Supported(WEAK_REFS, {1}, {1, 2}) && 2 !in Lasting(WEAK_REFS, {1}, {1, 2})
  {
    hide Reachable, Quiet, Exact, Supported;
    WeakExact();
    WeakReach();
    forall s: set<Id> | 2 in s && s <= {1, 2}
      ensures !Supported(WEAK_REFS, {1}, s)
    {
      WeakOwner(s);
    }
  }

  /** Collecting this heap takes the reachable object 2 away. */
  method LoseWeak() returns (gc: GC)
    ensures Reachable(WEAK_REFS, {1}, 2) && gc.refs == WEAK_REFS && gc.roots == {1} && 2 !in gc.chain
  {
    hide Reachable, Exact, Counted, Supported, Lasting, Quiet;
    gc := new GC(WEAK_REFS, {}, {1}, [1, 2, 3], map[1 := 1, 2 := 1, 3 := 1]);
    WeakAlone();
    WeakView();
    assert gc.Abs() == WEAK_HEAP && {1} * WEAK_HEAP.live == {1};
    ExactCounted(WEAK_HEAP, {1});
    var passes := gc.MarkSweep({1, 2});
    assert 2 !in gc.Abs().live;
  }

  lemma WeakView()
    ensures View((set x | x in [1, 2, 3]), map[1 := 1, 2 := 1, 3 := 1], {}, {}, map x | x in WEAK_REFS :: Strong(WEAK_REFS[x]))
      == WEAK_HEAP
  {
    WeakStrong();
    assert (set x | x in [1, 2, 3]) == {1, 2, 3};
  }

  lemma ExactCounted(h: View, roots: set<Id>)
    requires Shaped(h) && Exact(h, roots)
    ensures Counted(h, roots)
  {
  }

  // ---- counters that have wrapped ----

  /** A reachable object whose counter is no more than what is held on it from outside `k`, and that nothing in `r`
      outside `k` owns, has not survived the sweep. */
  lemma Uncovered(h0: View, h: View, refs: map<Id, seq<Ref>>, r: set<Id>, k: set<Id>, x: Id)
    requires Swept(h0, h, r, k) && Inv(h, refs, k) && h.live <= r && x in r && x !in k && r <= refs.Keys
    requires x in h0.refcnt && h0.refcnt[x] <= Held(h0, k)[x] && !HasOwner(refs, r - k, x)
    ensures x !in h.live
  {
    PendingFrom(h.live - k, h.pend, x);
    hide Pending;
  }

  /** A root 1 with `n` counted references to 2, and garbage 3 that holds counted references to itself and to 2. */
  function WrapRefs(n: nat): map<Id, seq<Ref>> {
    map[1 := seq(n, _ => Ref(2, true, true)), 2 := [], 3 := [Ref(2, true, true), Ref(3, true, true)]]
  }

  function WrapHeap(n: nat): View {
    View({1, 2, 3}, map[1 := 1, 2 := (n + 1) % 256, 3 := 1], {}, {}, map x | x in WrapRefs(n) :: Strong(WrapRefs(n)[x]))
  }

  lemma {:induction false} StrongMany(rs: seq<Ref>)
    requires forall i :: 0 <= i < |rs| ==> rs[i] == Ref(2, true, true)
    ensures multiset(Strong(rs))[2] == |rs| && forall y :: y != 2 ==> multiset(Strong(rs))[y] == 0
  {
    if rs != [] {
      StrongMany(rs[1..]);
      assert Strong(rs) == [2] + Strong(rs[1..]);
    }
  }

  lemma StrongGarbage(n: nat)
    ensures Strong(WrapRefs(n)[2]) == [] && Strong(WrapRefs(n)[3]) == [2, 3]
  {
    var rs := WrapRefs(n)[3];
    assert rs[1..][1..] == [];
    assert Strong(rs[1..]) == [3];
  }

  /** What objects other than the root hold. */
  lemma WrapHeld(n: nat)
    ensures Held(WrapHeap(n), {1}) == multiset{2, 3}
  {
    hide Pending, Strong;
    var h := WrapHeap(n);
    StrongGarbage(n);
    assert h.live - {1} == {2, 3};
    PendingPick({2, 3}, h.pend, 3);
    assert {2, 3} - {3} == {2};
    PendingPick({2}, h.pend, 2);
    assert {2} - {2} == {};
    PendingNone(h.pend);
  }

  /** Every counter is what should be counted, modulo 256. */
  lemma WrapCounts(n: nat)
    ensures Quiet(WrapHeap(n), WrapRefs(n))
    ensures Due(WrapHeap(n), {1}, 1) == 1 && Due(WrapHeap(n), {1}, 2) == n + 1 && Due(WrapHeap(n), {1}, 3) == 1
  {
    hide Pending, Strong, Held;
    var h := WrapHeap(n);
    WrapHeld(n);
    StrongMany(WrapRefs(n)[1]);
    PendingPick(h.live, h.pend, 1);
    HeldIs(h, {1});
  }

  lemma HeldIs(h: View, r: set<Id>)
    requires Shaped(h)
    ensures Held(h, r) == Pending(h.live - r, h.pend)
  {
  }

  lemma WrapReach(n: nat)
    requires n > 0
    ensures forall x :: x in {1, 2} <==> Reachable(WrapRefs(n), {1}, x)
  {
    var refs := WrapRefs(n);
    PointsAt(refs[1], 0);
    ReachesSelf(refs, 1);
    ReachesOn(refs, 1, 1, 2);
    forall x | Reachable(refs, {1}, x)
      ensures x in {1, 2}
    {
      var p :| Path(refs, p) && p[0] == 1 && p[|p| - 1] == x;
      PathStays(refs, {1, 2}, p);
    }
  }

  lemma WrapInv(n: nat)
    requires n % 256 == 0
    ensures Inv(WrapHeap(n), WrapRefs(n), {1})
  {
    hide Held, Strong;
    WrapHeld(n);
  }

  /** With a multiple of 256 references to 2 its counter has wrapped, and collecting takes it away although it is
      reachable. */
  method LoseWrapped(n: nat) returns (gc: GC)
    requires n > 0 && n % 256 == 0
    ensures Reachable(WrapRefs(n), {1}, 2) && gc.refs == WrapRefs(n) && gc.roots == {1} && 2 !in gc.chain
  {
    hide Reachable, Inv, Strong, Held, Swept, HasOwner;
    gc := new GC(WrapRefs(n), {}, {1}, [1, 2, 3], map[1 := 1, 2 := (n + 1) % 256, 3 := 1]);
    ghost var h := WrapHeap(n);
    assert (set x | x in [1, 2, 3]) == {1, 2, 3};
    assert gc.Abs() == h && {1} * h.live == {1};
    WrapInv(n);
    WrapReach(n);
    var passes := gc.Passes({1, 2}, {1});
    WrapHeld(n);
    NoOwner(n);
    Uncovered(h, gc.Abs(), WrapRefs(n), {1, 2}, {1}, 2);
  }

  lemma NoOwner(n: nat)
    ensures !HasOwner(WrapRefs(n), {1, 2} - {1}, 2)
  {
    StrongGarbage(n);
  }
}
