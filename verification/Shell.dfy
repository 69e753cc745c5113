/** `src/PikaObj.c`: the shell's input path, a queue in front of the line editor. */
module Shell {
  import opened Bytes
  import opened Bytecode
  import opened Filter
  import opened Ring

  class Shell {
    const queue: ByteQueue
    const table: seq<Message>
    /** Messages registered by the user; empty if there are none. */
    const user: seq<Message>
    /** Bytes handed to the line editor. */
    var line: seq<Byte>
    /** Bytes handed to the line editor and messages taken out, in order. */
    ghost var events: seq<Piece>
    ghost var input: seq<Byte>

    /** Everything received so far was split as `Fed` says, and the queue has room for one more byte. */
    ghost predicate Valid()
      reads this, queue, queue.buffer
    {
      && queue.Valid()
      && 0 < queue.buffer.Length && Longest(table + user) <= queue.buffer.Length
      && Fed(table, input, user) == Split(events, queue.Contents())
      && line == Passing(events)
    }

    constructor (messages: seq<Message>, registered: seq<Message>, size: nat)
      requires 0 < size && Longest(messages + registered) <= size
      ensures Valid() && fresh(queue) && fresh(queue.buffer) && input == [] && events == []
      ensures table == messages && user == registered
    {
      queue := new ByteQueue(size);
      table, user, line, events, input := messages, registered, [], [], [];
    }

    /** The comparison loop: peeks at the queue until the message ends, the queue ends or they differ. */
    method Compare(m: Message) returns (full: bool, partial: bool)
      requires queue.Valid()
      modifies queue
      ensures queue.Valid() && queue.Contents() == old(queue.Contents())
      ensures full == Full(m, queue.Contents()) && partial == Partial(m, queue.Contents())
      ensures full ==> queue.Peeked() == |m.bytes|
    {
      if |m.bytes| == 0 {
        return false, false;
      }
      ghost var q := queue.Contents();
      queue.ResetPeek();
      var n := 0;
      while n < |m.bytes|
        invariant queue.Valid() && queue.Contents() == q
        invariant n <= |m.bytes| && n <= |q| && queue.Peeked() == n && Agrees(m, q, n)
      {
        hide Same, Agrees, Cyclic;
        var peeked := queue.PeekOne();
        if peeked.None? {
          return false, true;
        }
        var letter, byte: int := m.bytes[n], peeked.value;
        SameBytes(m, n, peeked.value);
        if m.anyCase {
          if 'A' as int <= letter <= 'Z' as int {
            letter := letter + ('a' as int - 'A' as int);
          }
          if 'A' as int <= byte <= 'Z' as int {
            byte := byte + ('a' as int - 'A' as int);
          }
        }
        if letter != byte {
          Disagrees(m, q, n);
          return false, false;
        }
        AgreesMore(m, q, n);
        n := n + 1;
      }
      full, partial := true, false;
    }

    /** `_do_message_filter` over the whole table. */
    method MessageFilter(messages: seq<Message>) returns (result: Verdict)
      requires queue.Valid()
      modifies queue
      ensures queue.Valid() && queue.Contents() == old(queue.Contents())
      ensures result == Judge(messages, queue.Contents())
      ensures result.Success? ==> result.k < |messages| && queue.Peeked() == |messages[result.k].bytes| <= queue.count
    {
      result := FailDropOne;
      var i := 0;
      while i < |messages|
        invariant i <= |messages| && queue.Valid() && queue.Contents() == old(queue.Contents())
        invariant !result.Success?
        invariant Judge(messages, queue.Contents(), i, result) == Judge(messages, queue.Contents())
      {
        var full, partial := Compare(messages[i]);
        if full {
          return Success(i);
        }
        if partial {
          result := NoResult;
        }
        i := i + 1;
      }
    }

    /** Takes a recognized message out of the queue if it is hidden; a visible one goes to the line editor. */
    method Recognized(m: Message) returns (byte_count: nat)
      requires queue.Valid() && queue.Peeked() == |m.bytes| <= queue.count
      modifies queue, this`events
      ensures queue.Valid() && Passing(events) == old(Passing(events))
      ensures Consumed(m, old(queue.Contents()), old(events), byte_count, queue.Contents(), events)
    {
      if m.visible {
        return |m.bytes|;
      }
      ghost var bytes := queue.Contents()[..|m.bytes|];
      queue.DropAllPeeked();
      PassingSnoc(events, Removed(bytes));
      events := events + [Removed(bytes)];
      byte_count := 0;
    }

    /** `_do_stream_filter`: how many bytes go to the line editor. The verdict on the user's messages, if there are any,
        comes second; it overrides a pending one only to drop a byte. */
    method StreamFilter() returns (byte_count: nat)
      requires queue.Valid()
      modifies queue, this`events
      ensures queue.Valid() && Passing(events) == old(Passing(events))
      ensures Filtered(table, user, old(queue.Contents()), old(events), byte_count, queue.Contents(), events)
    {
      hide Judge, Consumed, Passing;
      var drop_count := 0;
      var result := MessageFilter(table);
      match result {
        case NoResult =>
        case FailDropOne => drop_count := 1;
        case Success(k) =>
          byte_count := Recognized(table[k]);
          return;
      }
      if user != [] {
        result := MessageFilter(user);
        match result {
          case NoResult =>
          case FailDropOne => drop_count := 1;
          case Success(k) =>
            byte_count := Recognized(user[k]);
            return;
        }
      }
      byte_count := drop_count;
    }

    /** Reads `n` bytes and hands them to the line editor. */
    method Deliver(n: nat)
      requires queue.Valid() && n <= queue.count && line == Passing(events)
      modifies queue, this`line, this`events
      ensures queue.Valid() && queue.Contents() == old(queue.Contents())[n..] && (n > 0 ==> queue.Peeked() == 0)
      ensures events == old(events) + Pass(old(queue.Contents())[..n]) && line == Passing(events)
    {
      hide Cyclic, Wrap, Passing;
      ghost var q := queue.Contents();
      var i := 0;
      while i < n
        invariant i <= n && queue.Valid() && queue.Contents() == q[i..] && (i > 0 ==> queue.Peeked() == 0)
        invariant events == old(events) + Pass(q[..i]) && line == Passing(events)
      {
        var inputChar := queue.ReadOne();
        PassingPass(q, i);
        PassingSnoc(events, Passed(inputChar.value));
        line := line + [inputChar.value];
        events := events + [Passed(inputChar.value)];
        i := i + 1;
      }
    }

    /** `_do_obj_runChar`: the byte is never refused, and the split of the input stays as `Fed` says. */
    method RunChar(inputChar: Byte)
      requires Valid()
      modifies this, queue, queue.buffer
      ensures Valid() && input == old(input) + [inputChar]
    {
      hide Fed, Drain, Filtered, Passing, Longest, Cyclic, Wrap;
      FedKeeps(table, input, user);
      ghost var s := Fed(table, input, user);
      var result := queue.WriteOne(inputChar);
      assert result;
      ghost var q := queue.Contents();
      ghost var d := Drain(table, q, user);
      var byte_count := 1;
      while byte_count != 0
        invariant queue.Valid() && line == Passing(events) && input == old(input)
        invariant queue.peek_count == 0 ==> queue.Contents() == [] || byte_count == 0
        invariant byte_count != 0 ==>
          var r := Drain(table, queue.Contents(), user); events + r.pieces == s.pieces + d.pieces && r.rest == d.rest
        invariant byte_count == 0 ==> events == s.pieces + d.pieces && queue.Contents() == d.rest
        decreases byte_count != 0, queue.count
      {
        if queue.peek_count == 0 {
          DrainNone(table, user);
          assert events + [] == events;
          break;
        }
        ghost var before, held := events, queue.Contents();
        byte_count := StreamFilter();
        Round(table, user, held, before, byte_count, queue.Contents(), events);
        Deliver(byte_count);
      }
      FedStep(table, input, inputChar, user);
      input := input + [inputChar];
    }
  }

  /** The comparison the loop makes: letters are folded only for a message that allows any case. */
  lemma SameBytes(m: Message, p: nat, b: Byte)
    requires p < |m.bytes|
    ensures Same(m, p, b) <==>
      var a := m.bytes[p];
      if m.anyCase
      then (if 'A' as int <= a <= 'Z' as int then a + 32 else a) == (if 'A' as int <= b <= 'Z' as int then b + 32 else b)
      else a == b
  {
  }

  /** What happens to message `m` at the front of `q`. */
  ghost predicate Consumed(m: Message, q: seq<Byte>, before: seq<Piece>, n: nat, q': seq<Byte>, after: seq<Piece>) {
    && |m.bytes| <= |q|
    && if m.visible then n == |m.bytes| && q' == q && after == before
       else n == 0 && q' == q[|m.bytes|..] && after == before + [Removed(q[..|m.bytes|])]
  }

  /** The effect of one call of the stream filter. */
  ghost predicate Filtered(table: seq<Message>, user: seq<Message>, q: seq<Byte>, before: seq<Piece>, n: nat, q': seq<Byte>,
                           after: seq<Piece>) {
    match Decide(table, user, q)
    case NoResult => n == 0 && q' == q && after == before
    case FailDropOne => n == 1 && q' == q && after == before
    case Success(k) => k < |table + user| && Consumed((table + user)[k], q, before, n, q', after)
  }

  /** A call of the stream filter and the delivery after it are one round of `Drain`. */
  lemma Round(table: seq<Message>, user: seq<Message>, q: seq<Byte>, before: seq<Piece>, n: nat, q': seq<Byte>, after: seq<Piece>)
    requires q != [] && Filtered(table, user, q, before, n, q', after)
    ensures n <= |q'| && (n > 0 ==> q' == q)
    ensures n > 0 ==> var d := Drain(table, q'[n..], user);
      before + Drain(table, q, user).pieces == after + Pass(q'[..n]) + d.pieces && Drain(table, q, user).rest == d.rest
    ensures n == 0 ==> before + Drain(table, q, user).pieces == after && Drain(table, q, user).rest == q'
  {
    hide Decide;
    DecideMeans(table, user, q);
    if Decide(table, user, q).FailDropOne? {
      assert Pass(q[..1]) == [Passed(q[0])];
    }
  }

  lemma PassingPass(q: seq<Byte>, i: nat)
    requires i < |q|
    ensures Pass(q[..i + 1]) == Pass(q[..i]) + [Passed(q[i])]
  {
  }

  lemma PassingSnoc(events: seq<Piece>, e: Piece)
    ensures Passing(events + [e]) == Passing(events) + (if e.Passed? then [e.byte] else [])
  {
    PassingConcat(events, [e]);
    assert [e][1..] == [];
  }
}
