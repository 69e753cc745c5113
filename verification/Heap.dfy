/** Mark and sweep over reference counts. */
module Heap {

  type Id = nat

  /** A reference from one object to another. An attribute or an item of a list, tuple or dict is counted, released
      with its owner and followed by marking. A weak one is followed but not counted; one in a loop register is
      counted but not followed. */
  datatype Ref = Ref(target: Id, counted: bool, followed: bool)

  /** The targets of the counted references. */
  function Strong(refs: seq<Ref>): seq<Id> {
    if refs == [] then []
    else (if refs[0].counted then [refs[0].target] else []) + Strong(refs[1..])
  }

  /** It takes the references one by one, each counted one as its target and no other. */
  lemma {:induction false} StrongExact(a: seq<Ref>, r: Ref, b: seq<Ref>)
    ensures Strong(a + [r] + b) == Strong(a) + (if r.counted then [r.target] else []) + Strong(b)
  {
    if a == [] {
      assert a + [r] + b == [r] + b && ([r] + b)[1..] == b;
    } else {
      assert (a + [r] + b)[0] == a[0] && (a + [r] + b)[1..] == a[1..] + [r] + b;
      StrongExact(a[1..], r, b);
    }
  }

  // ---- sums over sets of objects ----

  /** All references still held by the objects in `s`. */
  ghost function Pending(s: set<Id>, pend: map<Id, seq<Id>>): multiset<Id>
    requires s <= pend.Keys
  {
    if s == {} then multiset{}
    else var x :| x in s; multiset(pend[x]) + Pending(s - {x}, pend)
  }

  lemma {:induction false} PendingPick(s: set<Id>, pend: map<Id, seq<Id>>, x: Id)
    requires s <= pend.Keys && x in s
    ensures Pending(s, pend) == multiset(pend[x]) + Pending(s - {x}, pend)
    decreases s
  {
    var y :| y in s && Pending(s, pend) == multiset(pend[y]) + Pending(s - {y}, pend);
    if x != y {
      PendingPick(s - {y}, pend, x);
      PendingPick(s - {x}, pend, y);
      assert s - {y} - {x} == s - {x} - {y};
    }
  }

  lemma {:induction false} PendingSame(s: set<Id>, pend: map<Id, seq<Id>>, pend': map<Id, seq<Id>>)
    requires s <= pend.Keys && s <= pend'.Keys && forall x :: x in s ==> pend[x] == pend'[x]
    ensures Pending(s, pend) == Pending(s, pend')
    decreases s
  {
    if s != {} {
      var x :| x in s;
      PendingPick(s, pend, x);
      PendingPick(s, pend', x);
      PendingSame(s - {x}, pend, pend');
    }
  }

  lemma {:induction false} PendingSplit(s: set<Id>, t: set<Id>, pend: map<Id, seq<Id>>)
    requires s !! t && s + t <= pend.Keys
    ensures Pending(s + t, pend) == Pending(s, pend) + Pending(t, pend)
    decreases s
  {
    if s == {} {
      assert s + t == t;
    } else {
      var x :| x in s;
      PendingPick(s, pend, x);
      PendingPick(s + t, pend, x);
      assert s + t - {x} == (s - {x}) + t;
      PendingSplit(s - {x}, t, pend);
    }
  }

  /** Sum of the counts of the objects in `s`. */
  ghost function Counts(s: set<Id>, refcnt: map<Id, nat>): nat
    requires s <= refcnt.Keys
  {
    if s == {} then 0
    else var x :| x in s; refcnt[x] + Counts(s - {x}, refcnt)
  }

  lemma {:induction false} CountsPick(s: set<Id>, refcnt: map<Id, nat>, x: Id)
    requires s <= refcnt.Keys && x in s
    ensures Counts(s, refcnt) == refcnt[x] + Counts(s - {x}, refcnt)
    decreases s
  {
    var y :| y in s && Counts(s, refcnt) == refcnt[y] + Counts(s - {y}, refcnt);
    if x != y {
      CountsPick(s - {y}, refcnt, x);
      CountsPick(s - {x}, refcnt, y);
      assert s - {y} - {x} == s - {x} - {y};
    }
  }

  lemma {:induction false} CountsLess(s: set<Id>, refcnt: map<Id, nat>, t: set<Id>, refcnt': map<Id, nat>)
    requires s <= refcnt.Keys && t <= refcnt'.Keys && t <= s && forall x :: x in t ==> refcnt'[x] <= refcnt[x]
    ensures Counts(t, refcnt') <= Counts(s, refcnt)
    ensures (exists x :: x in s && refcnt[x] > if x in t then refcnt'[x] else 0) ==> Counts(t, refcnt') < Counts(s, refcnt)
    decreases s
  {
    if s != {} {
      var x :| x in s && ((exists y :: y in s && refcnt[y] > if y in t then refcnt'[y] else 0)
                          ==> refcnt[x] > if x in t then refcnt'[x] else 0);
      CountsPick(s, refcnt, x);
      CountsLess(s - {x}, refcnt, t - {x}, refcnt');
      if x in t {
        CountsPick(t, refcnt', x);
      } else {
        assert t - {x} == t;
      }
    }
  }

  // ---- reachability ----

  /** Marking gets from an object with references `rs` to `t`. */
  predicate Points(rs: seq<Ref>, t: Id) {
    exists k :: 0 <= k < |rs| && rs[k].followed && rs[k].target == t
  }

  /** `p` follows references from object to object. */
  ghost predicate Path(refs: map<Id, seq<Ref>>, p: seq<Id>) {
    |p| > 0 && forall i :: 0 <= i < |p| - 1 ==> p[i] in refs && Points(refs[p[i]], p[i + 1])
  }

  ghost predicate Reaches(refs: map<Id, seq<Ref>>, x: Id, y: Id) {
    exists p :: Path(refs, p) && p[0] == x && p[|p| - 1] == y
  }

  ghost predicate Reachable(refs: map<Id, seq<Ref>>, roots: set<Id>, y: Id) {
    exists x :: x in roots && Reaches(refs, x, y)
  }

  predicate ClosedUnder(refs: map<Id, seq<Ref>>, s: set<Id>) {
    s <= refs.Keys && forall x, k :: x in s && 0 <= k < |refs[x]| && refs[x][k].followed ==> refs[x][k].target in s
  }

  lemma ReachesSelf(refs: map<Id, seq<Ref>>, x: Id)
    ensures Reaches(refs, x, x)
  {
    assert Path(refs, [x]) && [x][0] == x;
  }

  lemma ReachesStep(refs: map<Id, seq<Ref>>, x: Id, c: Id, y: Id)
    requires x in refs && Points(refs[x], c) && Reaches(refs, c, y)
    ensures Reaches(refs, x, y)
  {
    var p :| Path(refs, p) && p[0] == c && p[|p| - 1] == y;
    var q := [x] + p;
    forall i | 0 <= i < |q| - 1 ensures q[i] in refs && Points(refs[q[i]], q[i + 1]) {
      if i > 0 {
        assert q[i] == p[i - 1] && q[i + 1] == p[i];
      }
    }
    assert Path(refs, q) && q[|q| - 1] == y;
  }

  lemma ReachesOn(refs: map<Id, seq<Ref>>, x: Id, y: Id, t: Id)
    requires Reaches(refs, x, y) && y in refs && Points(refs[y], t)
    ensures Reaches(refs, x, t)
  {
    var p :| Path(refs, p) && p[0] == x && p[|p| - 1] == y;
    var q := p + [t];
    forall i | 0 <= i < |q| - 1 ensures q[i] in refs && Points(refs[q[i]], q[i + 1]) {
      if i < |p| - 1 {
        assert q[i] == p[i] && q[i + 1] == p[i + 1];
      }
    }
    assert Path(refs, q) && q[0] == x && q[|q| - 1] == t;
  }

  /** A set that contains `x` and is closed under references contains what `x` reaches. */
  lemma {:induction false} PathStays(refs: map<Id, seq<Ref>>, s: set<Id>, p: seq<Id>)
    requires ClosedUnder(refs, s) && Path(refs, p) && p[0] in s
    ensures p[|p| - 1] in s
    decreases |p|
  {
    if |p| > 1 {
      var q := p[..|p| - 1];
      assert Path(refs, q);
      PathStays(refs, s, q);
      assert Points(refs[p[|p| - 2]], p[|p| - 2 + 1]);
    }
  }

  /** The set of reachable objects is closed under references and contains the roots. */
  lemma ReachableClosed(refs: map<Id, seq<Ref>>, roots: set<Id>, r: set<Id>)
    requires r <= refs.Keys && forall y :: y in r <==> Reachable(refs, roots, y)
    ensures ClosedUnder(refs, r) && roots <= r
  {
    hide Reaches, Points;
    forall x | x in roots ensures x in r { ReachesSelf(refs, x); }
    forall y, k | y in r && 0 <= k < |refs[y]| && refs[y][k].followed ensures refs[y][k].target in r {
      var x :| x in roots && Reaches(refs, x, y);
      PointsAt(refs[y], k);
      ReachesOn(refs, x, y, refs[y][k].target);
    }
  }

  lemma PointsAt(rs: seq<Ref>, k: nat)
    requires k < |rs| && rs[k].followed
    ensures Points(rs, rs[k].target)
  {
  }

  /** Marking is exact: the set of marked objects contains the roots, is closed under references and
      holds nothing that a root does not reach, so it is the set of reachable objects. */
  lemma MarkedIsReachable(refs: map<Id, seq<Ref>>, roots: set<Id>, marked: set<Id>)
    requires roots <= marked && ClosedUnder(refs, marked)
    requires forall y :: y in marked ==> Reachable(refs, roots, y)
    ensures forall y :: y in marked <==> Reachable(refs, roots, y)
  {
    forall y | Reachable(refs, roots, y) ensures y in marked {
      var x :| x in roots && Reaches(refs, x, y);
      var p :| Path(refs, p) && p[0] == x && p[|p| - 1] == y;
      PathStays(refs, marked, p);
    }
  }
}
