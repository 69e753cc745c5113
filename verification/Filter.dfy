/** `src/PikaObj.c`: recognizing messages in the bytes typed at the shell. */
module Filter {
  import opened Bytes

  datatype Message = Message(bytes: seq<Byte>, anyCase: bool, visible: bool)

  /** What happens to input bytes: passed on one by one, or removed as a message. */
  datatype Piece = Passed(byte: Byte) | Removed(bytes: seq<Byte>)

  datatype Verdict = NoResult | FailDropOne | Success(k: nat)

  /** Input split into pieces, and the bytes still undecided. */
  datatype Split = Split(pieces: seq<Piece>, rest: seq<Byte>)

  function Lower(b: Byte): Byte {
    if 'A' as int <= b <= 'Z' as int then b + ('a' as int - 'A' as int) else b
  }

  /** Byte `p` of the message accepts `b`. */
  predicate Same(m: Message, p: nat, b: Byte)
    requires p < |m.bytes|
  {
    if m.anyCase then Lower(m.bytes[p]) == Lower(b) else m.bytes[p] == b
  }

  /** The first `n` bytes of `q` agree with the message. */
  predicate Agrees(m: Message, q: seq<Byte>, n: nat)
    requires n <= |q| && n <= |m.bytes|
  {
    forall p :: 0 <= p < n ==> Same(m, p, q[p])
  }

  lemma AgreesMore(m: Message, q: seq<Byte>, n: nat)
    requires n < |q| && n < |m.bytes| && Agrees(m, q, n) && Same(m, n, q[n])
    ensures Agrees(m, q, n + 1)
  {
  }

  lemma Disagrees(m: Message, q: seq<Byte>, n: nat)
    requires n < |q| && n < |m.bytes| && !Same(m, n, q[n])
    ensures !Full(m, q) && !Partial(m, q)
  {
  }

  predicate Full(m: Message, q: seq<Byte>) {
    0 < |m.bytes| <= |q| && Agrees(m, q, |m.bytes|)
  }

  predicate Partial(m: Message, q: seq<Byte>) {
    |q| < |m.bytes| && Agrees(m, q, |q|)
  }

  /** The two bytes are equal or the two forms of one ASCII letter. */
  predicate OneLetter(a: Byte, b: Byte) {
    || a == b
    || ('A' as int <= a <= 'Z' as int && b == a + 32)
    || ('A' as int <= b <= 'Z' as int && a == b + 32)
  }

  lemma LowerExact(a: Byte, b: Byte)
    ensures Lower(a) == Lower(b) <==> OneLetter(a, b)
  {
  }

  /** A message with the flag `anyCase` accepts every spelling of its letters, one without it only its own bytes. */
  lemma AgreesExact(m: Message, q: seq<Byte>, n: nat)
    requires n <= |q| && n <= |m.bytes|
    ensures !m.anyCase ==> (Agrees(m, q, n) <==> m.bytes[..n] == q[..n])
    ensures m.anyCase ==> (Agrees(m, q, n) <==> forall p :: 0 <= p < n ==> OneLetter(m.bytes[p], q[p]))
  {
    hide Lower, OneLetter;
    if m.anyCase {
      forall p | 0 <= p < n
        ensures Same(m, p, q[p]) <==> OneLetter(m.bytes[p], q[p])
      {
        LowerExact(m.bytes[p], q[p]);
      }
    } else {
      assert forall p :: 0 <= p < n ==> m.bytes[..n][p] == m.bytes[p] && q[..n][p] == q[p];
      if Agrees(m, q, n) {
        assert forall p :: 0 <= p < n ==> Same(m, p, q[p]);
      }
    }
  }

  /** When a message stands at the start of `q`, and when it may still come to stand there, on the bytes alone. */
  lemma FullExact(m: Message, q: seq<Byte>)
    ensures !m.anyCase ==> (Full(m, q) <==> m.bytes != [] && m.bytes <= q)
    ensures !m.anyCase ==> (Partial(m, q) <==> q < m.bytes)
    ensures m.anyCase ==> (Full(m, q) <==>
      0 < |m.bytes| <= |q| && forall p :: 0 <= p < |m.bytes| ==> OneLetter(m.bytes[p], q[p]))
    ensures m.anyCase ==> (Partial(m, q) <==>
      |q| < |m.bytes| && forall p :: 0 <= p < |q| ==> OneLetter(m.bytes[p], q[p]))
  {
    hide Agrees, OneLetter;
    var n := if |q| < |m.bytes| then |q| else |m.bytes|;
    AgreesExact(m, q, n);
    assert m.bytes[..|m.bytes|] == m.bytes && q[..|q|] == q;
  }

  /** The first message that stands at the start of `q`; else whether one may still come to stand there. */
  function Judge(table: seq<Message>, q: seq<Byte>, from: nat := 0, result: Verdict := FailDropOne): Verdict
    requires from <= |table|
    decreases |table| - from
  {
    if from == |table| then result
    else if Full(table[from], q) then Success(from)
    else Judge(table, q, from + 1, if Partial(table[from], q) then NoResult else result)
  }

  /** Both tables, one after the other. A message of the first one decides; otherwise a byte is dropped unless both
      tables wait, since the second verdict only replaces the first when it says so. */
  function Decide(table: seq<Message>, user: seq<Message>, q: seq<Byte>): Verdict {
    var first := Judge(table, q);
    if first.Success? || user == [] then first else
    match Judge(user, q)
    case Success(k) => Success(|table| + k)
    case NoResult => first
    case FailDropOne => FailDropOne
  }

  /** Some message of the table stands at the start of `q`. */
  predicate AnyFull(table: seq<Message>, q: seq<Byte>) {
    exists j :: 0 <= j < |table| && Full(table[j], q)
  }

  /** Some message of the table may still come to stand there. */
  predicate AnyPartial(table: seq<Message>, q: seq<Byte>) {
    exists j :: 0 <= j < |table| && Partial(table[j], q)
  }

  /** The table has nothing against waiting. */
  predicate Waits(table: seq<Message>, q: seq<Byte>) {
    table == [] || AnyPartial(table, q)
  }

  lemma JudgeCases(table: seq<Message>, q: seq<Byte>)
    ensures var v := Judge(table, q);
      && (v.Success? <==> AnyFull(table, q))
      && (v.NoResult? <==> !AnyFull(table, q) && AnyPartial(table, q))
      && (v.Success? ==> v.k < |table| && Full(table[v.k], q) && forall j :: 0 <= j < v.k ==> !Full(table[j], q))
  {
    hide Judge;
    JudgeMeans(table, q, 0, FailDropOne);
  }

  /** A message of either table is recognized, the first table and the first message going first; without one the
      bytes wait exactly when a message of the first table may still come and the user table, if there is one,
      waits as well; otherwise one byte is dropped. */
  lemma DecideMeans(table: seq<Message>, user: seq<Message>, q: seq<Byte>)
    ensures var v, all := Decide(table, user, q), table + user;
      && (v.Success? <==> AnyFull(table, q) || AnyFull(user, q))
      && (v.Success? ==> v.k < |all| && Full(all[v.k], q) && forall j :: 0 <= j < v.k ==> !Full(all[j], q))
      && (v.NoResult? <==> !AnyFull(table, q) && !AnyFull(user, q) && AnyPartial(table, q) && Waits(user, q))
      && (v.FailDropOne? <==> !AnyFull(table, q) && !AnyFull(user, q) && !(AnyPartial(table, q) && Waits(user, q)))
  {
    hide Judge, Full, Partial;
    JudgeCases(table, q);
    JudgeCases(user, q);
  }

  /** What keeps bytes waiting is a message of one of the tables. */
  lemma WaitingFor(table: seq<Message>, user: seq<Message>, q: seq<Byte>) returns (j: nat)
    requires AnyPartial(table, q)
    ensures j < |table + user| && Partial((table + user)[j], q)
  {
    hide Partial;
    j :| j < |table| && Partial(table[j], q);
  }

  /** The loop of the shell after a byte arrived; it also ends when a hidden message was removed. */
  function Drain(table: seq<Message>, q: seq<Byte>, user: seq<Message> := []): Split
    decreases |q|
  {
    if q == [] then Split([], []) else
    match Decide(table, user, q)
    case NoResult => Split([], q)
    case FailDropOne =>
      var s := Drain(table, q[1..], user);
      Split([Passed(q[0])] + s.pieces, s.rest)
    case Success(k) =>
      DecideMeans(table, user, q);
      var m := (table + user)[k];
      var n := |m.bytes|;
      if m.visible then
        var s := Drain(table, q[n..], user);
        Split(Pass(q[..n]) + s.pieces, s.rest)
      else Split([Removed(q[..n])], q[n..])
  }

  function Pass(q: seq<Byte>): seq<Piece> {
    seq(|q|, i requires 0 <= i < |q| => Passed(q[i]))
  }

  /** What `Judge` decides, message by message. */
  lemma {:induction false} JudgeMeans(table: seq<Message>, q: seq<Byte>, from: nat, result: Verdict)
    requires from <= |table| && !result.Success?
    ensures var v := Judge(table, q, from, result);
      match v
      case Success(k) => from <= k < |table| && Full(table[k], q) && forall j :: from <= j < k ==> !Full(table[j], q)
      case NoResult =>
        && (forall j :: from <= j < |table| ==> !Full(table[j], q))
        && (result == NoResult || exists j :: from <= j < |table| && Partial(table[j], q))
      case FailDropOne =>
        result == FailDropOne && forall j :: from <= j < |table| ==> !Full(table[j], q) && !Partial(table[j], q)
    decreases |table| - from
  {
    if from < |table| && !Full(table[from], q) {
      var next := if Partial(table[from], q) then NoResult else result;
      JudgeMeans(table, q, from + 1, next);
    }
  }

  // Nothing is lost

  function Joined(pieces: seq<Piece>): seq<Byte> {
    if pieces == [] then [] else
    (match pieces[0] case Passed(b) => [b] case Removed(m) => m) + Joined(pieces[1..])
  }

  lemma {:induction false} JoinedConcat(a: seq<Piece>, b: seq<Piece>)
    ensures Joined(a + b) == Joined(a) + Joined(b)
  {
    if a == [] {
      assert a + b == b;
    } else {
      assert (a + b)[0] == a[0] && (a + b)[1..] == a[1..] + b;
      JoinedConcat(a[1..], b);
      var first := match a[0] { case Passed(c) => [c] case Removed(m) => m };
      assert first + (Joined(a[1..]) + Joined(b)) == (first + Joined(a[1..])) + Joined(b);
    }
  }

  /** The bytes that are passed on. */
  function Passing(pieces: seq<Piece>): seq<Byte> {
    if pieces == [] then [] else
    (match pieces[0] case Passed(b) => [b] case Removed(m) => []) + Passing(pieces[1..])
  }

  lemma {:induction false} PassingConcat(a: seq<Piece>, b: seq<Piece>)
    ensures Passing(a + b) == Passing(a) + Passing(b)
  {
    if a == [] {
      assert a + b == b;
    } else {
      assert (a + b)[0] == a[0] && (a + b)[1..] == a[1..] + b;
      PassingConcat(a[1..], b);
      var first := match a[0] { case Passed(c) => [c] case Removed(m) => [] };
      assert first + (Passing(a[1..]) + Passing(b)) == (first + Passing(a[1..])) + Passing(b);
    }
  }

  lemma {:induction false} JoinedPass(q: seq<Byte>)
    ensures Joined(Pass(q)) == q
  {
    if q != [] {
      JoinedPass(q[1..]);
      assert Pass(q)[1..] == Pass(q[1..]);
      assert q == [q[0]] + q[1..];
    }
  }

  function Longest(table: seq<Message>): nat {
    if table == [] then 0 else
    var n, m := Longest(table[..|table| - 1]), |table[|table| - 1].bytes|;
    if n < m then m else n
  }

  lemma {:induction false} LongestBounds(table: seq<Message>, k: nat)
    requires k < |table|
    ensures |table[k].bytes| <= Longest(table)
  {
    if k < |table| - 1 {
      LongestBounds(table[..|table| - 1], k);
    }
  }

  /** One round of `Drain`, case by case. */
  lemma DrainCases(table: seq<Message>, q: seq<Byte>, user: seq<Message>)
    requires q != []
    ensures var v, d, all := Decide(table, user, q), Drain(table, q, user), table + user;
      && (v.NoResult? ==> d == Split([], q))
      && (v.FailDropOne? ==> d == Before([Passed(q[0])], Drain(table, q[1..], user)))
      && (v.Success? ==> v.k < |all| && 0 < |all[v.k].bytes| <= |q|)
      && (v.Success? && all[v.k].visible ==>
            d == Before(Pass(q[..|all[v.k].bytes|]), Drain(table, q[|all[v.k].bytes|..], user)))
      && (v.Success? && !all[v.k].visible ==>
            d == Split([Removed(q[..|all[v.k].bytes|])], q[|all[v.k].bytes|..]))
  {
    hide Decide, Pass;
    DecideMeans(table, user, q);
  }

  /** Pieces and rest, put back in order, are the input; the rest is shorter than the longest message or the input. */
  lemma {:induction false} DrainKeeps(table: seq<Message>, q: seq<Byte>, user: seq<Message>)
    ensures var s := Drain(table, q, user);
      Joined(s.pieces) + s.rest == q && (|s.rest| < Longest(table + user) || |s.rest| < |q| || q == [])
    decreases |q|, 1
  {
    hide Joined, Decide, Longest, Pass, Drain, Full, Partial, AnyFull, AnyPartial;
    if q == [] {
      DrainNone(table, user);
      JoinedNone();
    } else {
      var v, all := Decide(table, user, q), table + user;
      DecideMeans(table, user, q);
      DrainCases(table, q, user);
      if v.NoResult? {
        var j := WaitingFor(table, user, q);
        LongestBounds(all, j);
        PartialShorter(all[j], q);
        JoinedNone();
      } else if v.FailDropOne? {
        DrainKeeps(table, q[1..], user);
        JoinedFirst(Passed(q[0]), Drain(table, q[1..], user).pieces);
        assert q == [q[0]] + q[1..];
      } else {
        TakenOut(table, q, user, |all[v.k].bytes|, all[v.k].visible);
      }
    }
  }

  lemma PartialShorter(m: Message, q: seq<Byte>)
    requires Partial(m, q)
    ensures |q| < |m.bytes|
  {
  }

  lemma {:induction false} TakenOut(table: seq<Message>, q: seq<Byte>, user: seq<Message>, n: nat, visible: bool)
    requires 0 < n <= |q|
    requires Drain(table, q, user) ==
      if visible then Before(Pass(q[..n]), Drain(table, q[n..], user)) else Split([Removed(q[..n])], q[n..])
    ensures var s := Drain(table, q, user); Joined(s.pieces) + s.rest == q && |s.rest| < |q|
    decreases |q|, 0
  {
    hide Joined, Longest, Pass, Drain;
    assert q == q[..n] + q[n..];
    if visible {
      DrainKeeps(table, q[n..], user);
      JoinedPass(q[..n]);
      JoinedConcat(Pass(q[..n]), Drain(table, q[n..], user).pieces);
      assert |Drain(table, q[n..], user).rest| <= |q[n..]|;
    } else {
      JoinedFirst(Removed(q[..n]), []);
      JoinedNone();
      assert [Removed(q[..n])] + [] == [Removed(q[..n])] && q[..n] + [] == q[..n];
    }
  }

  lemma JoinedFirst(e: Piece, pieces: seq<Piece>)
    ensures Joined([e] + pieces) == (match e case Passed(b) => [b] case Removed(m) => m) + Joined(pieces)
  {
    assert ([e] + pieces)[1..] == pieces;
  }

  lemma JoinedNone()
    ensures Joined([]) == []
  {
  }

  // Byte by byte

  /** The shell fed with `input` one byte at a time. */
  function Fed(table: seq<Message>, input: seq<Byte>, user: seq<Message> := []): Split {
    if input == [] then Split([], []) else
    var s := Fed(table, input[..|input| - 1], user);
    var d := Drain(table, s.rest + [input[|input| - 1]], user);
    Split(s.pieces + d.pieces, d.rest)
  }

  /** For any tables and any input, nothing is lost, doubled or reordered, and what is kept back is shorter than
      the longest message. */
  lemma {:induction false} FedKeeps(table: seq<Message>, input: seq<Byte>, user: seq<Message>)
    ensures var s := Fed(table, input, user);
      Joined(s.pieces) + s.rest == input && (|s.rest| < Longest(table + user) || s.rest == [])
  {
    hide Joined, Drain, Longest;
    if input == [] {
      JoinedNone();
    } else {
      var init, c := input[..|input| - 1], input[|input| - 1];
      FedKeeps(table, init, user);
      var s := Fed(table, init, user);
      var d := Drain(table, s.rest + [c], user);
      DrainKeeps(table, s.rest + [c], user);
      JoinedConcat(s.pieces, d.pieces);
      assert input == init + [c];
      assert Joined(s.pieces) + Joined(d.pieces) + d.rest == Joined(s.pieces) + (s.rest + [c]);
    }
  }

  predicate AllVisible(table: seq<Message>) {
    forall j :: 0 <= j < |table| ==> table[j].visible
  }

  predicate NoneRemoved(pieces: seq<Piece>) {
    forall i :: 0 <= i < |pieces| ==> pieces[i].Passed?
  }

  lemma {:induction false} DrainVisible(table: seq<Message>, q: seq<Byte>, user: seq<Message>)
    requires AllVisible(table + user)
    ensures NoneRemoved(Drain(table, q, user).pieces)
    decreases |q|
  {
    hide Decide, Drain, Full;
    if q == [] {
      DrainNone(table, user);
    } else {
      DrainCases(table, q, user);
      var v := Decide(table, user, q);
      if v.FailDropOne? {
        DrainVisible(table, q[1..], user);
      } else if v.Success? {
        DrainVisible(table, q[|(table + user)[v.k].bytes|..], user);
      }
    }
  }

  /** Visible messages are passed on: with no others in the tables, no byte of any input is taken out. */
  lemma {:induction false} VisiblePassed(table: seq<Message>, input: seq<Byte>, user: seq<Message>)
    requires AllVisible(table + user)
    ensures NoneRemoved(Fed(table, input, user).pieces)
  {
    hide Drain;
    if input != [] {
      var s := Fed(table, input[..|input| - 1], user);
      VisiblePassed(table, input[..|input| - 1], user);
      DrainVisible(table, s.rest + [input[|input| - 1]], user);
    }
  }

  // The simple form: split the whole input from left to right

  function Batch(table: seq<Message>, q: seq<Byte>, user: seq<Message> := []): Split
    decreases |q|
  {
    if q == [] then Split([], []) else
    match Decide(table, user, q)
    case NoResult => Split([], q)
    case FailDropOne => Before([Passed(q[0])], Batch(table, q[1..], user))
    case Success(k) =>
      DecideMeans(table, user, q);
      var m := (table + user)[k];
      var n := |m.bytes|;
      Before(if m.visible then Pass(q[..n]) else [Removed(q[..n])], Batch(table, q[n..], user))
  }

  function Before(pieces: seq<Piece>, s: Split): Split {
    Split(pieces + s.pieces, s.rest)
  }

  /** No input can agree with `m` at offset `k` and with all of `w` at once. */
  ghost predicate Clash(m: Message, k: nat, w: Message) {
    exists p: nat :: ClashAt(m, k, w, p)
  }

  ghost predicate ClashAt(m: Message, k: nat, w: Message, p: nat) {
    p < |w.bytes| && k + p < |m.bytes| && forall b: Byte :: !(Same(m, k + p, b) && Same(w, p, b))
  }

  /** No message begins another one that stands before it in the table. */
  ghost predicate Distinct(table: seq<Message>) {
    forall i, j :: 0 <= i < j < |table| ==> Clash(table[i], 0, table[j])
  }

  /** No message occurs inside another one, unless it ends where that one ends. */
  ghost predicate Solid(table: seq<Message>) {
    forall i, j, k: nat :: 0 <= i < |table| && 0 <= j < |table| && k + |table[j].bytes| < |table[i].bytes| ==>
      Clash(table[i], k, table[j])
  }

  /** More input does not change a decision. */
  lemma {:induction false} JudgeMore(table: seq<Message>, a: seq<Byte>, b: seq<Byte>)
    requires Distinct(table) && !Judge(table, a).NoResult?
    ensures Judge(table, a + b) == Judge(table, a)
  {
    JudgeMeans(table, a, 0, FailDropOne);
    JudgeMeans(table, a + b, 0, FailDropOne);
    forall j | 0 <= j < |table|
      ensures Full(table[j], a) ==> Full(table[j], a + b)
      ensures Full(table[j], a + b) ==> Full(table[j], a) || Partial(table[j], a)
      ensures Partial(table[j], a + b) ==> Partial(table[j], a)
    {
      FullMore(table[j], a, b);
    }
    if Judge(table, a).Success? {
      var k := Judge(table, a).k;
      forall j | 0 <= j < k
        ensures !Full(table[j], a + b)
      {
        assert Clash(table[j], 0, table[k]);
        ClashExcludes(table[j], table[k], a + b);
      }
    }
  }

  lemma FullMore(m: Message, a: seq<Byte>, b: seq<Byte>)
    ensures Full(m, a) ==> Full(m, a + b)
    ensures Full(m, a + b) ==> Full(m, a) || Partial(m, a)
    ensures Partial(m, a + b) ==> Partial(m, a)
  {
    assert forall p :: 0 <= p < |a| ==> (a + b)[p] == a[p];
  }

  lemma ClashExcludes(m: Message, w: Message, q: seq<Byte>)
    requires Clash(m, 0, w) && Full(w, q)
    ensures !Full(m, q)
  {
    var p: nat :| ClashAt(m, 0, w, p);
    assert Same(w, p, q[p]);
  }

  lemma {:induction false} BatchOfDrain(table: seq<Message>, a: seq<Byte>, b: seq<Byte>)
    requires Distinct(table)
    ensures var d := Drain(table, a); Batch(table, a + b) == Before(d.pieces, Batch(table, d.rest + b))
    decreases |a|
  {
    hide Distinct, Judge, Batch, Drain;
    if a == [] {
      assert a + b == b;
      DrainNone(table, []);
    } else if Judge(table, a).NoResult? {
      DrainWaits(table, a);
    } else {
      JudgeMore(table, a, b);
      if Judge(table, a).FailDropOne? {
        BatchOfDrain(table, a[1..], b);
        DrainFails(table, a, b);
      } else {
        JudgeMeans(table, a, 0, FailDropOne);
        var k := Judge(table, a).k;
        BatchOfDrain(table, a[|table[k].bytes|..], b);
        DrainSucceeds(table, a, b, k);
      }
    }
  }

  lemma DrainNone(table: seq<Message>, user: seq<Message>)
    ensures Drain(table, [], user) == Split([], [])
  {
  }

  lemma DrainWaits(table: seq<Message>, a: seq<Byte>)
    requires a != [] && Judge(table, a).NoResult?
    ensures Drain(table, a) == Split([], a)
  {
  }

  lemma DrainFails(table: seq<Message>, a: seq<Byte>, b: seq<Byte>)
    requires a != [] && Judge(table, a).FailDropOne? && Judge(table, a + b) == Judge(table, a)
    ensures Drain(table, a) == Before([Passed(a[0])], Drain(table, a[1..]))
    ensures Batch(table, a + b) == Before([Passed(a[0])], Batch(table, a[1..] + b))
  {
    hide Judge;
    assert (a + b)[1..] == a[1..] + b;
  }

  lemma DrainSucceeds(table: seq<Message>, a: seq<Byte>, b: seq<Byte>, k: nat)
    requires a != [] && Judge(table, a) == Success(k) && Judge(table, a + b) == Judge(table, a)
    requires k < |table| && Full(table[k], a)
    ensures var n := |table[k].bytes|; var pieces := if table[k].visible then Pass(a[..n]) else [Removed(a[..n])];
      && Drain(table, a) == (if table[k].visible then Before(pieces, Drain(table, a[n..])) else Split(pieces, a[n..]))
      && Batch(table, a + b) == Before(pieces, Batch(table, a[n..] + b))
  {
    hide Judge;
    var n := |table[k].bytes|;
    assert (a + b)[n..] == a[n..] + b && (a + b)[..n] == a[..n];
  }

  /** Feeding byte by byte and then splitting what is left gives the split of the whole input. */
  lemma {:induction false} FedThenBatch(table: seq<Message>, input: seq<Byte>, b: seq<Byte>)
    requires Distinct(table)
    ensures var s := Fed(table, input); Batch(table, input + b) == Before(s.pieces, Batch(table, s.rest + b))
  {
    hide Distinct, Judge, Batch, Drain;
    if input == [] {
      assert input + b == b;
    } else {
      var init, c := input[..|input| - 1], input[|input| - 1];
      assert input + b == init + ([c] + b);
      FedThenBatch(table, init, [c] + b);
      var s := Fed(table, init);
      assert s.rest + ([c] + b) == (s.rest + [c]) + b;
      BatchOfDrain(table, s.rest + [c], b);
    }
  }

  /** `p` agrees with a part of some message that ends before the message does. */
  ghost predicate Inside(table: seq<Message>, p: seq<Byte>) {
    p == [] || exists i, k: nat :: Fits(table, p, i, k)
  }

  predicate Fits(table: seq<Message>, p: seq<Byte>, i: nat, k: nat) {
    i < |table| && k + |p| < |table[i].bytes| && forall t :: 0 <= t < |p| ==> Same(table[i], k + t, p[t])
  }

  ghost predicate Settled(table: seq<Message>, q: seq<Byte>) {
    q == [] || Judge(table, q) == NoResult
  }

  lemma SettledInside(table: seq<Message>, q: seq<Byte>)
    requires Settled(table, q)
    ensures Inside(table, q)
  {
    if q != [] {
      JudgeMeans(table, q, 0, FailDropOne);
      var j :| 0 <= j < |table| && Partial(table[j], q);
      assert Fits(table, q, j, 0);
    }
  }

  lemma InsideTail(table: seq<Message>, p: seq<Byte>)
    requires Inside(table, p) && p != []
    ensures Inside(table, p[1..])
  {
    var i: nat, k: nat :| Fits(table, p, i, k);
    forall t | 0 <= t < |p| - 1
      ensures Same(table[i], k + 1 + t, p[1..][t])
    {
      assert Same(table[i], k + (t + 1), p[t + 1]);
    }
    assert Fits(table, p[1..], i, k + 1);
  }

  lemma InnerClash(table: seq<Message>, p: seq<Byte>, c: Byte, i: nat, k: nat, w: Message)
    requires Fits(table, p, i, k) && |w.bytes| <= |p| && Clash(table[i], k, w)
    ensures !Full(w, p + [c])
  {
    var t: nat :| ClashAt(table[i], k, w, t);
    assert (p + [c])[t] == p[t];
    assert Same(table[i], k + t, p[t]);
  }

  /** A message that was just completed is all there is. */
  lemma CompletedIsAll(table: seq<Message>, p: seq<Byte>, c: Byte, j: nat)
    requires Solid(table) && Inside(table, p) && j < |table| && Full(table[j], p + [c])
    ensures |table[j].bytes| == |p| + 1
  {
    if |table[j].bytes| <= |p| {
      var i: nat, k: nat :| Fits(table, p, i, k);
      InnerClash(table, p, c, i, k, table[j]);
    }
  }

  lemma {:induction false} DrainSettles(table: seq<Message>, p: seq<Byte>, c: Byte)
    requires Solid(table) && Inside(table, p)
    ensures Settled(table, Drain(table, p + [c]).rest)
    decreases |p|
  {
    var q := p + [c];
    JudgeMeans(table, q, 0, FailDropOne);
    match Judge(table, q) {
      case NoResult =>
      case FailDropOne =>
        if p == [] {
          assert q[1..] == [];
        } else {
          InsideTail(table, p);
          DrainSettles(table, p[1..], c);
          assert q[1..] == p[1..] + [c];
        }
      case Success(k) =>
        CompletedIsAll(table, p, c, k);
    }
  }

  lemma {:induction false} FedSettles(table: seq<Message>, input: seq<Byte>)
    requires Solid(table)
    ensures Settled(table, Fed(table, input).rest)
  {
    hide Solid, Drain, Settled, Inside;
    if input == [] {
      SettledNone(table);
    } else {
      FedSettles(table, input[..|input| - 1]);
      SettledInside(table, Fed(table, input[..|input| - 1]).rest);
      DrainSettles(table, Fed(table, input[..|input| - 1]).rest, input[|input| - 1]);
    }
  }

  lemma SettledNone(table: seq<Message>)
    ensures Settled(table, [])
  {
  }

  /** With a table like the default one, the shell splits its input exactly as the left-to-right split does. */
  lemma StreamingIsBatch(table: seq<Message>, input: seq<Byte>)
    requires Distinct(table) && Solid(table)
    ensures Fed(table, input) == Batch(table, input)
  {
    hide Distinct, Solid, Fed, Judge;
    FedThenBatch(table, input, []);
    FedSettles(table, input);
    var s := Fed(table, input);
    assert s.rest + [] == s.rest && input + [] == input && s.pieces + [] == s.pieces;
  }

  // The default table

  const GREETING: seq<Byte> := Chars("###Hi Pika")

  const DEFAULT_MESSAGES: seq<Message> := [
    Message(GREETING, false, false),
    Message(Chars("###bye pika"), true, false)
  ]

  lemma DefaultTable()
    ensures Distinct(DEFAULT_MESSAGES) && Solid(DEFAULT_MESSAGES) && Longest(DEFAULT_MESSAGES) == 11
  {
    var hi, bye := DEFAULT_MESSAGES[0], DEFAULT_MESSAGES[1];
    assert hi.bytes[3] == 'H' as int && bye.bytes[3] == 'b' as int;
    assert ClashAt(hi, 0, bye, 3) && ClashAt(bye, 0, hi, 3);
    assert Longest([hi]) == 10;
    assert DEFAULT_MESSAGES[..1] == [hi];
  }

  /** `q` is `text` in capitals, small letters or any mixture. */
  predicate Spells(q: seq<Byte>, text: string) {
    |q| == |text| && forall p :: 0 <= p < |q| ==> OneLetter(text[p] as int % 256, q[p])
  }

  lemma DefaultFull(q: seq<Byte>)
    ensures Full(DEFAULT_MESSAGES[0], q) <==> Chars("###Hi Pika") <= q
    ensures Full(DEFAULT_MESSAGES[1], q) <==> 11 <= |q| && Spells(q[..11], "###bye pika")
    ensures Partial(DEFAULT_MESSAGES[1], q) <==> |q| < 11 && Spells(q, "###bye pika"[..|q|])
  {
    hide Full, Partial, OneLetter;
    FullExact(DEFAULT_MESSAGES[0], q);
    FullExact(DEFAULT_MESSAGES[1], q);
  }

  /** A spelling of the farewell has no `H` in the place of the greeting's. */
  lemma NotGreeting(q: seq<Byte>, n: nat)
    requires 4 <= n <= 11 && Spells(q, "###bye pika"[..n])
    ensures q[3] != 'H' as int
  {
    assert OneLetter('b' as int, q[3]);
  }

  lemma SpellsPart(q: seq<Byte>, n: nat)
    requires n <= 11 && Spells(q, "###bye pika")
    ensures |q| == 11 && Spells(q[..n], "###bye pika"[..n])
  {
    hide OneLetter;
  }

  lemma FarewellHidden(q: seq<Byte>)
    requires |q| == 11 && Spells(q, "###bye pika")
    ensures HiddenMessage(DEFAULT_MESSAGES, q)
  {
    hide Judge, Full, Partial, Spells;
    forall i | 1 <= i <= 11
      ensures !Full(DEFAULT_MESSAGES[0], q[..i])
    {
      DefaultFull(q[..i]);
      if i >= 10 {
        SpellsPart(q, i);
        NotGreeting(q[..i], i);
        assert Chars("###Hi Pika")[3] == 'H' as int;
      }
    }
    forall i | 1 <= i < 11
      ensures Judge(DEFAULT_MESSAGES, q[..i]) == NoResult
    {
      DefaultFull(q[..i]);
      SpellsPart(q, i);
      JudgeMeans(DEFAULT_MESSAGES, q[..i], 0, FailDropOne);
      assert !Full(DEFAULT_MESSAGES[1], q[..i]) && Partial(DEFAULT_MESSAGES[1], q[..i]);
    }
    assert q[..11] == q;
    DefaultFull(q);
    JudgeMeans(DEFAULT_MESSAGES, q, 0, FailDropOne);
  }

  /** The first piece of a split input. */
  lemma BatchFirst(table: seq<Message>, q: seq<Byte>)
    ensures var v, b := Decide(table, [], q), Batch(table, q).pieces;
      && (q == [] || v.NoResult? ==> b == [])
      && (q != [] && v.FailDropOne? ==> |b| > 0 && b[0] == Passed(q[0]))
      && (q != [] && v.Success? ==> v.k < |table| && Full(table[v.k], q))
      && (q != [] && v.Success? && !table[v.k].visible ==> |b| > 0 && b[0] == Removed(q[..|table[v.k].bytes|]))
  {
    hide Decide, Full, Pass;
    assert table + [] == table;
    DecideMeans(table, [], q);
  }

  /** What is taken out as a whole is a hidden message of the table, of its length. */
  lemma RemovedIsMessage(table: seq<Message>, q: seq<Byte>) returns (k: nat)
    requires Batch(table, q) == Split([Removed(q)], []) && AllHidden(table)
    ensures k < |table| && Full(table[k], q) && |table[k].bytes| == |q|
  {
    hide Decide, Full, Batch;
    BatchFirst(table, q);
    k := Decide(table, [], q).k;
    FullLength(table[k], q);
    assert q[..|table[k].bytes|] == q;
  }

  lemma FullLength(m: Message, q: seq<Byte>)
    requires Full(m, q)
    ensures |m.bytes| <= |q|
  {
  }

  lemma DefaultWhole(q: seq<Byte>, k: nat)
    requires k < 2 && Full(DEFAULT_MESSAGES[k], q) && |q| == |DEFAULT_MESSAGES[k].bytes|
    ensures q == Chars("###Hi Pika") || Spells(q, "###bye pika")
  {
    hide Full, Partial, Spells;
    DefaultFull(q);
    assert q[..|q|] == q;
  }

  /** Typed byte by byte at a shell with the default table, an input is taken out as one message if and only if it is
      the greeting as written or the farewell in any spelling. */
  lemma DefaultMessagesExact(q: seq<Byte>)
    ensures Fed(DEFAULT_MESSAGES, q) == Split([Removed(q)], []) <==> q == Chars("###Hi Pika") || Spells(q, "###bye pika")
  {
    hide Fed, Batch, Judge, Spells, HiddenMessage, Full, Partial;
    DefaultTable();
    StreamingIsBatch(DEFAULT_MESSAGES, q);
    if q == Chars("###Hi Pika") {
      GreetingHidden();
      Recognized(DEFAULT_MESSAGES, q, []);
    } else if Spells(q, "###bye pika") {
      SpellsPart(q, 11);
      FarewellHidden(q);
      Recognized(DEFAULT_MESSAGES, q, []);
    } else if Fed(DEFAULT_MESSAGES, q) == Split([Removed(q)], []) {
      var k := RemovedIsMessage(DEFAULT_MESSAGES, q);
      DefaultWhole(q, k);
    }
  }

  // A second table

  lemma FedStep(table: seq<Message>, input: seq<Byte>, c: Byte, user: seq<Message>)
    ensures var s := Fed(table, input, user); var d := Drain(table, s.rest + [c], user);
      Fed(table, input + [c], user) == Split(s.pieces + d.pieces, d.rest)
  {
    assert (input + [c])[..|input|] == input;
  }

  /** What was passed on stays passed on. */
  lemma {:induction false} FedGrows(table: seq<Message>, input: seq<Byte>, user: seq<Message>, n: nat)
    requires n <= |input|
    ensures Fed(table, input[..n], user).pieces <= Fed(table, input, user).pieces
    decreases |input|
  {
    hide Drain;
    if n < |input| {
      var init := input[..|input| - 1];
      FedGrows(table, init, user, n);
      assert init[..n] == input[..n];
    } else {
      assert input[..n] == input;
    }
  }

  /** While both tables wait, everything is kept back. */
  lemma {:induction false} FedWaits(table: seq<Message>, q: seq<Byte>, user: seq<Message>, n: nat)
    requires n <= |q| && forall i :: 1 <= i <= n ==> Decide(table, user, q[..i]) == NoResult
    ensures Fed(table, q[..n], user) == Split([], q[..n])
  {
    hide Decide, Fed, Drain;
    if n == 0 {
      FedNone(table, user);
    } else {
      FedWaits(table, q, user, n - 1);
      assert q[..n] == q[..n - 1] + [q[n - 1]];
      FedStep(table, q[..n - 1], q[n - 1], user);
      BothWait(table, q[..n], user);
    }
  }

  lemma FedNone(table: seq<Message>, user: seq<Message>)
    ensures Fed(table, [], user) == Split([], [])
  {
  }

  lemma BothWait(table: seq<Message>, q: seq<Byte>, user: seq<Message>)
    requires q != [] && Decide(table, user, q) == NoResult
    ensures Drain(table, q, user) == Split([], q)
  {
    hide Decide;
  }

  /** The user table is empty or waits too at every beginning of `q`. */
  predicate UserWaits(user: seq<Message>, q: seq<Byte>) {
    user == [] || forall i :: 1 <= i < |q| ==> Judge(user, q[..i]) == NoResult
  }

  /** `q` is a hidden message of `table` for which the table waits until it is complete. */
  predicate HiddenMessage(table: seq<Message>, q: seq<Byte>) {
    && q != [] && (forall i :: 1 <= i < |q| ==> Judge(table, q[..i]) == NoResult)
    && var v := Judge(table, q);
       v.Success? && v.k < |table| && |table[v.k].bytes| == |q| && !table[v.k].visible
  }

  /** A message of the first table, typed byte by byte, is removed if and only if the user table waits with it. */
  lemma RecognizedIff(table: seq<Message>, q: seq<Byte>, user: seq<Message>)
    requires HiddenMessage(table, q)
    ensures Fed(table, q, user) == Split([Removed(q)], []) <==> UserWaits(user, q)
  {
    hide Judge, Fed, Drain;
    if UserWaits(user, q) {
      Recognized(table, q, user);
    } else {
      var n := FirstRefusal(user, q);
      Spoiled(table, q, user, n);
    }
  }

  lemma Recognized(table: seq<Message>, q: seq<Byte>, user: seq<Message>)
    requires HiddenMessage(table, q) && UserWaits(user, q)
    ensures Fed(table, q, user) == Split([Removed(q)], [])
  {
    hide Judge, Fed;
    var n := |q| - 1;
    FedWaits(table, q, user, n);
    assert q == q[..n] + [q[n]];
    FedStep(table, q[..n], q[n], user);
    assert q[..|q|] == q && q[|q|..] == [];
  }

  /** The first beginning of `q` at which the user table does not wait. */
  lemma FirstRefusal(user: seq<Message>, q: seq<Byte>) returns (n: nat)
    requires !UserWaits(user, q)
    ensures user != [] && 1 <= n < |q| && Judge(user, q[..n]) != NoResult
    ensures forall i :: 1 <= i < n ==> Judge(user, q[..i]) == NoResult
  {
    hide Judge;
    n := 1;
    while Judge(user, q[..n]) == NoResult
      invariant 1 <= n < |q| && forall i :: 1 <= i < n ==> Judge(user, q[..i]) == NoResult
      decreases |q| - n
    {
      n := n + 1;
    }
  }

  lemma Spoiled(table: seq<Message>, q: seq<Byte>, user: seq<Message>, n: nat)
    requires HiddenMessage(table, q) && user != [] && 1 <= n < |q| && Judge(user, q[..n]) != NoResult
    requires forall i :: 1 <= i < n ==> Judge(user, q[..i]) == NoResult
    ensures Fed(table, q, user) != Split([Removed(q)], [])
  {
    hide Judge, Fed, Drain;
    FedWaits(table, q, user, n - 1);
    assert q[..n] == q[..n - 1] + [q[n - 1]];
    FedStep(table, q[..n - 1], q[n - 1], user);
    FirstPiece(table, q[..n], user);
    var d := Drain(table, q[..n], user).pieces;
    assert Fed(table, q[..n], user).pieces == [] + d == d;
    FedGrows(table, q, user, n);
    assert Fed(table, q, user).pieces[0] == d[0];
  }

  /** A decided input begins with a piece that is no longer than the input. */
  lemma FirstPiece(table: seq<Message>, q: seq<Byte>, user: seq<Message>)
    requires q != [] && !Decide(table, user, q).NoResult?
    ensures var d := Drain(table, q, user).pieces; |d| > 0 && (d[0].Removed? ==> |d[0].bytes| <= |q|)
  {
    hide Decide;
    DecideMeans(table, user, q);
  }

  lemma GreetingHidden()
    ensures HiddenMessage(DEFAULT_MESSAGES, GREETING)
  {
    hide Judge;
    forall i | 1 <= i < |GREETING|
      ensures Judge(DEFAULT_MESSAGES, GREETING[..i]) == NoResult
    {
      JudgeMeans(DEFAULT_MESSAGES, GREETING[..i], 0, FailDropOne);
      assert Partial(DEFAULT_MESSAGES[0], GREETING[..i]);
    }
    JudgeMeans(DEFAULT_MESSAGES, GREETING, 0, FailDropOne);
    assert Full(DEFAULT_MESSAGES[0], GREETING);
  }

  /** So with a user table in which no message begins with `#` the greeting is no longer recognized, although the
      split of the whole input recognizes it. */
  lemma SecondTableSpoils(user: seq<Message>)
    requires user != [] && forall j :: 0 <= j < |user| && user[j].bytes != [] ==> !Same(user[j], 0, '#' as int)
    ensures Batch(DEFAULT_MESSAGES, GREETING, user) == Split([Removed(GREETING)], [])
    ensures Fed(DEFAULT_MESSAGES, GREETING, user) != Batch(DEFAULT_MESSAGES, GREETING, user)
  {
    hide *;
    GreetingWhole(user);
    GreetingHidden();
    GreetingRefused(user);
    RecognizedIff(DEFAULT_MESSAGES, GREETING, user);
  }

  lemma GreetingWhole(user: seq<Message>)
    ensures Batch(DEFAULT_MESSAGES, GREETING, user) == Split([Removed(GREETING)], [])
  {
    assert Full(DEFAULT_MESSAGES[0], GREETING);
    assert Decide(DEFAULT_MESSAGES, user, GREETING) == Success(0);
    assert GREETING[..10] == GREETING && GREETING[10..] == [];
  }

  lemma GreetingRefused(user: seq<Message>)
    requires user != [] && forall j :: 0 <= j < |user| && user[j].bytes != [] ==> !Same(user[j], 0, '#' as int)
    ensures !UserWaits(user, GREETING)
  {
    hide Judge;
    var q := GREETING[..1];
    JudgeMeans(user, q, 0, FailDropOne);
    forall j | 0 <= j < |user|
      ensures !Partial(user[j], q)
    {
      if user[j].bytes != [] {
        Disagrees(user[j], q, 0);
      }
    }
  }

  // Which pairs of tables work together

  /** At every input that no message has decided yet, the two tables wait together or not at all. */
  ghost predicate Together(table: seq<Message>, user: seq<Message>) {
    user == [] || forall q: seq<Byte> :: !Apart(table, user, q)
  }

  /** Exactly one of the tables waits at `q`. */
  predicate Apart(table: seq<Message>, user: seq<Message>, q: seq<Byte>) {
    q != [] && !AnyFull(table, q) && !AnyFull(user, q) && AnyPartial(table, q) != AnyPartial(user, q)
  }

  lemma AnyJoined(table: seq<Message>, user: seq<Message>, q: seq<Byte>)
    ensures AnyFull(table + user, q) <==> AnyFull(table, q) || AnyFull(user, q)
    ensures AnyPartial(table + user, q) <==> AnyPartial(table, q) || AnyPartial(user, q)
  {
    hide Full, Partial;
    var all := table + user;
    assert forall j :: 0 <= j < |table| ==> all[j] == table[j];
    assert forall j :: 0 <= j < |user| ==> all[|table| + j] == user[j];
    assert forall j :: |table| <= j < |all| ==> all[j] == user[j - |table|];
  }

  /** Tables that wait together act as one table. */
  lemma DecideIsJudge(table: seq<Message>, user: seq<Message>, q: seq<Byte>)
    requires q != [] && Together(table, user)
    ensures Decide(table, user, q) == Decide(table + user, [], q)
  {
    hide Judge, Decide, Full, Partial, AnyFull, AnyPartial;
    AnyJoined(table, user, q);
    DecideMeans(table, user, q);
    DecideMeans(table + user, [], q);
    AnyNone(q);
    assert (table + user) + [] == table + user;
    assert user != [] ==> !Apart(table, user, q);
  }

  lemma AnyNone(q: seq<Byte>)
    ensures !AnyFull([], q) && !AnyPartial([], q)
  {
  }

  lemma {:induction false} DrainJoined(table: seq<Message>, user: seq<Message>, q: seq<Byte>)
    requires Together(table, user)
    ensures Drain(table, q, user) == Drain(table + user, q, [])
    decreases |q|
  {
    hide Decide, Together;
    if q != [] {
      DecideIsJudge(table, user, q);
      DecideMeans(table, user, q);
      assert (table + user) + [] == table + user;
      var v := Decide(table, user, q);
      if v.FailDropOne? {
        DrainJoined(table, user, q[1..]);
      } else if v.Success? {
        DrainJoined(table, user, q[|(table + user)[v.k].bytes|..]);
      }
    }
  }

  lemma {:induction false} BatchJoined(table: seq<Message>, user: seq<Message>, q: seq<Byte>)
    requires Together(table, user)
    ensures Batch(table, q, user) == Batch(table + user, q, [])
    decreases |q|
  {
    hide Decide, Together;
    if q != [] {
      DecideIsJudge(table, user, q);
      DecideMeans(table, user, q);
      assert (table + user) + [] == table + user;
      var v := Decide(table, user, q);
      if v.FailDropOne? {
        BatchJoined(table, user, q[1..]);
      } else if v.Success? {
        BatchJoined(table, user, q[|(table + user)[v.k].bytes|..]);
      }
    }
  }

  lemma {:induction false} FedJoined(table: seq<Message>, user: seq<Message>, input: seq<Byte>)
    requires Together(table, user)
    ensures Fed(table, input, user) == Fed(table + user, input, [])
  {
    hide Drain, Together;
    if input != [] {
      FedJoined(table, user, input[..|input| - 1]);
      DrainJoined(table, user, Fed(table, input[..|input| - 1], user).rest + [input[|input| - 1]]);
    }
  }

  predicate AllHidden(table: seq<Message>) {
    forall j :: 0 <= j < |table| ==> !table[j].visible
  }

  /** The bytes of a message, completed from a beginning `q` of it. */
  function Completed(m: Message, q: seq<Byte>): (w: seq<Byte>)
    requires Partial(m, q)
    ensures |w| == |m.bytes| && q <= w && Full(m, w)
  {
    q + m.bytes[|q|..]
  }

  lemma NoClash(m: Message, w: Message, q: seq<Byte>, n: nat)
    requires n <= |q| && Full(m, q[..n]) && Partial(w, q)
    ensures !Clash(m, 0, w) && !Clash(w, 0, m)
  {
    forall p: nat
      ensures !ClashAt(m, 0, w, p) && !ClashAt(w, 0, m, p)
    {
      if p < |m.bytes| && p < |w.bytes| {
        assert Same(m, p, q[..n][p]) && Same(w, p, q[p]);
      }
    }
  }

  /** No message stands at the start of a beginning of another one. */
  lemma NoFullInside(all: seq<Message>, j: nat, q: seq<Byte>, n: nat)
    requires Distinct(all) && j < |all| && Partial(all[j], q) && n <= |q|
    ensures !AnyFull(all, q[..n])
  {
    hide Clash;
    forall i | 0 <= i < |all|
      ensures !Full(all[i], q[..n])
    {
      if Full(all[i], q[..n]) {
        NoClash(all[i], all[j], q, n);
      }
    }
  }

  lemma PartialStart(m: Message, q: seq<Byte>, n: nat)
    requires Partial(m, q) && n <= |q|
    ensures Partial(m, q[..n])
  {
  }

  /** A beginning of a hidden message at which the tables first come apart is not kept back, so the message is missed. */
  lemma ApartSpoils(table: seq<Message>, user: seq<Message>, q: seq<Byte>, j: nat) returns (w: seq<Byte>)
    requires user != [] && Distinct(table + user) && AllHidden(table + user)
    requires Apart(table, user, q) && j < |table + user| && Partial((table + user)[j], q)
    requires forall n :: 1 <= n < |q| ==> !Apart(table, user, q[..n])
    ensures Fed(table, w, user) != Batch(table, w, user)
  {
    hide *;
    w := Completed((table + user)[j], q);
    WholeRemoved(table, user, j, w);
    KeptApart(table, user, q, j);
    CompletedLonger((table + user)[j], q);
    assert w[..|q|] == q;
    FedGrows(table, w, user, |q|);
    assert Fed(table, w, user).pieces[0] == Fed(table, q, user).pieces[0];
    FirstRemoved(table, user, w);
  }

  lemma CompletedLonger(m: Message, q: seq<Byte>)
    requires Partial(m, q)
    ensures |q| < |m.bytes|
  {
  }

  /** The bytes of a hidden message are removed as a whole. */
  lemma WholeRemoved(table: seq<Message>, user: seq<Message>, j: nat, w: seq<Byte>)
    requires Distinct(table + user) && AllHidden(table + user) && j < |table + user|
    requires Full((table + user)[j], w) && |w| == |(table + user)[j].bytes|
    ensures var b := Batch(table, w, user).pieces; |b| > 0 && b[0] == Removed(w)
  {
    assert w != [];
    hide Decide, Full;
    var all := table + user;
    DecideMeans(table, user, w);
    AnyJoined(table, user, w);
    assert AnyFull(all, w);
    var k := Decide(table, user, w).k;
    if k < j {
      ClashExcludes(all[k], all[j], w);
    }
    assert k == j && w[..|w|] == w;
  }

  lemma FirstRemoved(table: seq<Message>, user: seq<Message>, w: seq<Byte>)
    requires var b := Batch(table, w, user).pieces; |b| > 0 && b[0] == Removed(w)
    requires var f := Fed(table, w, user).pieces; |f| > 0 && f[0].Passed?
    ensures Fed(table, w, user) != Batch(table, w, user)
  {
    hide *;
  }

  lemma KeptApart(table: seq<Message>, user: seq<Message>, q: seq<Byte>, j: nat)
    requires user != [] && Distinct(table + user)
    requires Apart(table, user, q) && j < |table + user| && Partial((table + user)[j], q)
    requires forall n :: 1 <= n < |q| ==> !Apart(table, user, q[..n])
    ensures var f := Fed(table, q, user).pieces; |f| > 0 && f[0].Passed?
  {
    hide Decide, Full, Partial, AnyFull, AnyPartial, Distinct, Fed, Drain;
    forall n | 1 <= n < |q|
      ensures Decide(table, user, q[..n]) == NoResult
    {
      NoFullInside(table + user, j, q, n);
      PartialStart((table + user)[j], q, n);
      PartialIs(table + user, j, q[..n]);
      AnyJoined(table, user, q[..n]);
      DecideMeans(table, user, q[..n]);
    }
    FedWaits(table, q, user, |q| - 1);
    assert q == q[..|q| - 1] + [q[|q| - 1]];
    FedStep(table, q[..|q| - 1], q[|q| - 1], user);
    DecideMeans(table, user, q);
    DropsFirst(table, user, q);
  }

  lemma PartialIs(table: seq<Message>, j: nat, q: seq<Byte>)
    requires j < |table| && Partial(table[j], q)
    ensures AnyPartial(table, q)
  {
  }

  lemma DropsFirst(table: seq<Message>, user: seq<Message>, q: seq<Byte>)
    requires q != [] && Decide(table, user, q) == FailDropOne
    ensures var d := Drain(table, q, user).pieces; |d| > 0 && d[0] == Passed(q[0])
  {
    hide Decide;
  }

  /** The shortest beginning at which the tables come apart. */
  lemma {:induction false} FirstApart(table: seq<Message>, user: seq<Message>, q: seq<Byte>) returns (n: nat)
    requires Apart(table, user, q)
    ensures n <= |q| && Apart(table, user, q[..n]) && forall i :: 1 <= i < n ==> !Apart(table, user, q[..n][..i])
  {
    hide AnyFull, AnyPartial;
    n := 1;
    assert q[..|q|] == q;
    while !Apart(table, user, q[..n])
      invariant 1 <= n <= |q| && forall i :: 1 <= i < n ==> !Apart(table, user, q[..i])
      decreases |q| - n
    {
      n := n + 1;
    }
    assert forall i :: 1 <= i < n ==> q[..n][..i] == q[..i];
  }

  /** Two tables of hidden messages that do not begin or contain each other split every input as the left-to-right
      split does if and only if they wait together. */
  lemma TwoTablesIff(table: seq<Message>, user: seq<Message>)
    requires Distinct(table + user) && Solid(table + user) && AllHidden(table + user)
    ensures (forall input: seq<Byte> :: Fed(table, input, user) == Batch(table, input, user)) <==> Together(table, user)
  {
    hide Distinct, Solid, AllHidden, Fed, Batch, Apart;
    if Together(table, user) {
      forall input: seq<Byte>
        ensures Fed(table, input, user) == Batch(table, input, user)
      {
        FedJoined(table, user, input);
        BatchJoined(table, user, input);
        StreamingIsBatch(table + user, input);
      }
    } else {
      var q: seq<Byte> :| Apart(table, user, q);
      var n := FirstApart(table, user, q);
      var j := SomeWaits(table, user, q[..n]);
      var w := ApartSpoils(table, user, q[..n], j);
    }
  }

  lemma SomeWaits(table: seq<Message>, user: seq<Message>, q: seq<Byte>) returns (j: nat)
    requires Apart(table, user, q)
    ensures j < |table + user| && Partial((table + user)[j], q)
  {
    AnyJoined(table, user, q);
    hide Partial, Full;
    j :| j < |table + user| && Partial((table + user)[j], q);
  }
}
