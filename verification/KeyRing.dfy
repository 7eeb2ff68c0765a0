/** The key ring between the keyboard interrupt and the main loop: one producer and one consumer that
    interleave at every load and store. */
module KeyRing {

  const CAP: nat := 64

  type Byte = b: int | 0 <= b < 256

  /** `rb_push`, between its atomic steps. */
  datatype Producer =
    | PIdle
    | LoadedHead(b: Byte, head: nat)
    | FoundRoom(b: Byte, head: nat, next: nat)
    | Wrote(b: Byte, next: nat)

  /** One turn of the `drain` loop, between its atomic steps. */
  datatype Consumer =
    | CIdle
    | LoadedTail(tail: nat)
    | FoundByte(tail: nat)
    | Read(tail: nat, b: Byte)

  /** Shared memory, both program counters, and the bytes accepted and delivered so far. */
  datatype State = State(
    buf: seq<Byte>, head: nat, tail: nat, prod: Producer, cons: Consumer,
    accepted: seq<Byte>, delivered: seq<Byte>)

  datatype Step =
    | BeginPush(b: Byte) | LoadTail | StoreByte | StoreHead
    | BeginTurn | LoadHead | LoadByte | StoreTail

  function Next(i: nat): nat {
    (i + 1) % CAP
  }

  predicate Enabled(s: State, e: Step) {
    match e
    case BeginPush(_) => s.prod.PIdle?
    case LoadTail => s.prod.LoadedHead?
    case StoreByte => s.prod.FoundRoom?
    case StoreHead => s.prod.Wrote?
    case BeginTurn => s.cons.CIdle?
    case LoadHead => s.cons.LoadedTail?
    case LoadByte => s.cons.FoundByte?
    case StoreTail => s.cons.Read?
  }

  /** An index outside the buffer would be stuck; `StepRefines` shows none ever is. */
  function Do(s: State, e: Step): State
    requires Enabled(s, e)
  {
    match e
    case BeginPush(b) => s.(prod := LoadedHead(b, s.head))
    case LoadTail =>
      var next := Next(s.prod.head);
      s.(prod := if next == s.tail then PIdle else FoundRoom(s.prod.b, s.prod.head, next))
    case StoreByte =>
      if s.prod.head < |s.buf| then s.(buf := s.buf[s.prod.head := s.prod.b], prod := Wrote(s.prod.b, s.prod.next)) else s
    case StoreHead => s.(head := s.prod.next, prod := PIdle, accepted := s.accepted + [s.prod.b])
    case BeginTurn => s.(cons := LoadedTail(s.tail))
    case LoadHead => s.(cons := if s.cons.tail == s.head then CIdle else FoundByte(s.cons.tail))
    case LoadByte =>
      if s.cons.tail < |s.buf| then s.(cons := Read(s.cons.tail, s.buf[s.cons.tail])) else s
    case StoreTail => s.(tail := Next(s.cons.tail), cons := CIdle, delivered := s.delivered + [s.cons.b])
  }

  const START := State(seq(CAP, i => 0), 0, 0, PIdle, CIdle, [], [])

  // ---- the queue behind the ring ----

  /** The slot i places after the tail. */
  function Slot(tail: nat, i: nat): nat {
    if tail + i < CAP then tail + i else (tail + i) - CAP
  }

  /** The bytes accepted and not yet delivered. */
  function Queue(s: State): seq<Byte>
    requires |s.delivered| <= |s.accepted|
  {
    s.accepted[|s.delivered|..]
  }

  ghost predicate Holds(buf: seq<Byte>, tail: nat, q: seq<Byte>) {
    && |buf| == CAP && tail < CAP && |q| < CAP
    && forall i {:trigger Slot(tail, i)} :: 0 <= i < |q| ==> buf[Slot(tail, i)] == q[i]
  }

  ghost predicate Inv(s: State) {
    && s.delivered <= s.accepted
    && Holds(s.buf, s.tail, Queue(s))
    && s.head == Slot(s.tail, |Queue(s)|)
    && (match s.prod
        case PIdle => true
        case LoadedHead(_, h) => h == s.head
        case FoundRoom(_, h, n) => h == s.head && n == Next(h) && |Queue(s)| <= CAP - 2
        case Wrote(b, n) => n == Next(s.head) && |Queue(s)| <= CAP - 2 && s.buf[s.head] == b)
    && (match s.cons
        case CIdle => true
        case LoadedTail(t) => t == s.tail
        case FoundByte(t) => t == s.tail && Queue(s) != []
        case Read(t, b) => t == s.tail && Queue(s) != [] && b == Queue(s)[0])
  }

  /** What a bounded first-in first-out queue may do in one step. */
  datatype QueueEvent = Enqueued(b: Byte) | Dequeued(b: Byte) | Dropped(b: Byte) | Silent

  predicate Legal(q: seq<Byte>, e: QueueEvent) {
    match e
    case Enqueued(_) => |q| < 63
    case Dequeued(b) => q != [] && b == q[0]
    case Dropped(_) => |q| == 63
    case Silent => true
  }

  function After(q: seq<Byte>, e: QueueEvent): seq<Byte>
    requires Legal(q, e)
  {
    match e
    case Enqueued(b) => q + [b]
    case Dequeued(_) => q[1..]
    case _ => q
  }

  /** Each atomic step of the ring is one step of the queue. */
  function Meaning(s: State, e: Step): QueueEvent
    requires Enabled(s, e)
  {
    match e
    case LoadTail => if Next(s.prod.head) == s.tail then Dropped(s.prod.b) else Silent
    case StoreHead => Enqueued(s.prod.b)
    case StoreTail => Dequeued(s.cons.b)
    case _ => Silent
  }

  lemma StartInv()
    ensures Inv(START)
  {
  }

  /** One step of the producer or the consumer keeps the invariant, is one queue step, never overwrites
      an unread slot and never reads an unwritten one. */
  lemma StepRefines(s: State, e: Step)
    requires Inv(s) && Enabled(s, e)
    ensures Inv(Do(s, e))
    ensures Legal(Queue(s), Meaning(s, e)) && Queue(Do(s, e)) == After(Queue(s), Meaning(s, e))
    ensures e.StoreByte? ==> s.prod.head < |s.buf| && forall i :: 0 <= i < |Queue(s)| ==> s.prod.head != Slot(s.tail, i)
    ensures e.LoadByte? ==> s.cons.tail < |s.buf| && Queue(s) != [] && s.cons.tail == Slot(s.tail, 0) && s.buf[s.cons.tail] == Queue(s)[0]
  {
    var s' := Do(s, e);
    match e
    case LoadTail => HeadMeetsTail(s.tail, |Queue(s)|);
    case StoreByte => ByteStored(s);
    case StoreHead => HeadStored(s);
    case LoadByte => assert s.buf[Slot(s.tail, 0)] == Queue(s)[0];
    case StoreTail => TailStored(s);
    case _ =>
  }

  lemma HeadMeetsTail(tail: nat, n: nat)
    requires tail < CAP && n < CAP
    ensures Next(Slot(tail, n)) == tail <==> n == CAP - 1
    ensures n < CAP - 1 ==> Next(Slot(tail, n)) == Slot(tail, n + 1)
  {
  }

  lemma ByteStored(s: State)
    requires Inv(s) && s.prod.FoundRoom?
    ensures Inv(Do(s, StoreByte))
    ensures forall i :: 0 <= i < |Queue(s)| ==> s.prod.head != Slot(s.tail, i)
  {
  }

  lemma HeadStored(s: State)
    requires Inv(s) && s.prod.Wrote?
    ensures Inv(Do(s, StoreHead)) && Queue(Do(s, StoreHead)) == Queue(s) + [s.prod.b]
  {
    HeadMeetsTail(s.tail, |Queue(s)|);
    assert Queue(Do(s, StoreHead)) == Queue(s) + [s.prod.b];
  }

  lemma TailStored(s: State)
    requires Inv(s) && s.cons.Read?
    ensures Inv(Do(s, StoreTail)) && Queue(Do(s, StoreTail)) == Queue(s)[1..]
  {
    var s', q := Do(s, StoreTail), Queue(s);
    assert Queue(s') == q[1..];
    HoldsPop(s.buf, s.tail, q);
    hide Holds;
    assert Slot(s'.tail, |q| - 1) == Slot(s.tail, |q|);
  }

  lemma HoldsPop(buf: seq<Byte>, tail: nat, q: seq<Byte>)
    requires Holds(buf, tail, q) && q != []
    ensures Holds(buf, Next(tail), q[1..])
  {
    forall i | 0 <= i < |q[1..]|
      ensures buf[Slot(Next(tail), i)] == q[1..][i]
    {
      assert Slot(Next(tail), i) == Slot(tail, i + 1);
    }
  }

  // ---- runs ----

  predicate Run(s: State, es: seq<Step>, s': State)
    decreases |es|
  {
    if es == [] then s' == s else Enabled(s, es[0]) && Run(Do(s, es[0]), es[1..], s')
  }

  /** The queue events of a run, in order. */
  function Trace(s: State, es: seq<Step>, s': State): seq<QueueEvent>
    requires Run(s, es, s')
    decreases |es|
  {
    if es == [] then [] else [Meaning(s, es[0])] + Trace(Do(s, es[0]), es[1..], s')
  }

  /** A trace of a first-in first-out queue of capacity 63. */
  predicate QueueRun(q: seq<Byte>, trace: seq<QueueEvent>, q': seq<Byte>)
    decreases |trace|
  {
    if trace == [] then q' == q
    else Legal(q, trace[0]) && QueueRun(After(q, trace[0]), trace[1..], q')
  }

  function Ins(trace: seq<QueueEvent>): seq<Byte> {
    if trace == [] then [] else (if trace[0].Enqueued? then [trace[0].b] else []) + Ins(trace[1..])
  }

  function Outs(trace: seq<QueueEvent>): seq<Byte> {
    if trace == [] then [] else (if trace[0].Dequeued? then [trace[0].b] else []) + Outs(trace[1..])
  }

  lemma StepAccounts(s: State, e: Step)
    requires Enabled(s, e)
    ensures Do(s, e).accepted == s.accepted + (if Meaning(s, e).Enqueued? then [Meaning(s, e).b] else [])
    ensures Do(s, e).delivered == s.delivered + (if Meaning(s, e).Dequeued? then [Meaning(s, e).b] else [])
  {
  }

  lemma {:induction false} RunAccounts(s: State, es: seq<Step>, s': State)
    requires Run(s, es, s')
    ensures s'.accepted == s.accepted + Ins(Trace(s, es, s'))
    ensures s'.delivered == s.delivered + Outs(Trace(s, es, s'))
    decreases |es|
  {
    hide Do, Meaning, Enabled;
    if es != [] {
      StepAccounts(s, es[0]);
      RunAccounts(Do(s, es[0]), es[1..], s');
      var trace := Trace(s, es, s');
      assert trace[0] == Meaning(s, es[0]) && trace[1..] == Trace(Do(s, es[0]), es[1..], s');
    }
  }

  lemma {:induction false} RunRefines(s: State, es: seq<Step>, s': State)
    requires Inv(s) && Run(s, es, s') && s.delivered <= s.accepted
    ensures Inv(s') && s'.delivered <= s'.accepted
    ensures QueueRun(Queue(s), Trace(s, es, s'), Queue(s'))
    decreases |es|
  {
    hide Inv, Do, Meaning, Enabled, Legal, After, Queue;
    if es != [] {
      var mid := Do(s, es[0]);
      StepRefines(s, es[0]);
      Ordered(mid);
      RunRefines(mid, es[1..], s');
      var trace := Trace(s, es, s');
      assert trace[0] == Meaning(s, es[0]) && trace[1..] == Trace(mid, es[1..], s');
    }
  }

  lemma Ordered(s: State)
    ensures Inv(s) ==> s.delivered <= s.accepted
  {
  }

  /** The bytes a run hands to the producer, in order. */
  function Pushes(es: seq<Step>): seq<Byte> {
    if es == [] then [] else (if es[0].BeginPush? then [es[0].b] else []) + Pushes(es[1..])
  }

  /** The bytes whose push has come to an end, enqueued or dropped, in order. */
  function Outcomes(trace: seq<QueueEvent>): seq<Byte> {
    if trace == [] then []
    else (if trace[0].Enqueued? || trace[0].Dropped? then [trace[0].b] else []) + Outcomes(trace[1..])
  }

  /** The byte whose push is under way. */
  function Pending(s: State): seq<Byte> {
    if s.prod.PIdle? then [] else [s.prod.b]
  }

  lemma StepLosesNothing(s: State, e: Step)
    requires Inv(s) && Enabled(s, e)
    ensures Pending(s) + Pushes([e]) == Outcomes([Meaning(s, e)]) + Pending(Do(s, e))
  {
    assert [e][1..] == [] && [Meaning(s, e)][1..] == [];
  }

  lemma PushesFirst(es: seq<Step>)
    requires es != []
    ensures Pushes(es) == Pushes([es[0]]) + Pushes(es[1..])
  {
    assert [es[0]][1..] == [];
  }

  lemma OutcomesFirst(e: QueueEvent, later: seq<QueueEvent>)
    ensures Outcomes([e] + later) == Outcomes([e]) + Outcomes(later)
  {
    assert [e][1..] == [] && ([e] + later)[1..] == later;
  }

  lemma Chained(before: seq<Byte>, in1: seq<Byte>, out1: seq<Byte>, mid: seq<Byte>, in2: seq<Byte>,
          out2: seq<Byte>, after: seq<Byte>)
    requires before + in1 == out1 + mid && mid + in2 == out2 + after
    ensures before + (in1 + in2) == (out1 + out2) + after
  {
    assert before + (in1 + in2) == (before + in1) + in2;
    assert (out1 + mid) + in2 == out1 + (mid + in2);
    assert out1 + (out2 + after) == (out1 + out2) + after;
  }

  lemma {:induction false} RunLosesNothing(s: State, es: seq<Step>, s': State)
    requires Inv(s) && Run(s, es, s')
    ensures Pending(s) + Pushes(es) == Outcomes(Trace(s, es, s')) + Pending(s')
    decreases |es|
  {
    hide Inv, Do, Meaning, Enabled, Pending;
    if es == [] {
      assert Pending(s) + [] == [] + Pending(s);
    } else {
      hide Pushes, Outcomes;
      var mid, first := Do(s, es[0]), Meaning(s, es[0]);
      var later := Trace(mid, es[1..], s');
      StepRefines(s, es[0]);
      StepLosesNothing(s, es[0]);
      RunLosesNothing(mid, es[1..], s');
      PushesFirst(es);
      OutcomesFirst(first, later);
      Chained(Pending(s), Pushes([es[0]]), Outcomes([first]), Pending(mid), Pushes(es[1..]), Outcomes(later), Pending(s'));
    }
  }

  /** Main theorem: every interleaving of the two sides, step by step, is a run of one first-in
      first-out queue of capacity 63, in which a byte is dropped only when 63 are unread; every byte
      handed to the producer is enqueued or dropped, in order, except one whose push is still under way;
      and what is delivered is a prefix of what was enqueued. */
  lemma RingIsQueue(es: seq<Step>, s: State)
    requires Run(START, es, s)
    ensures s.delivered <= s.accepted
    ensures QueueRun([], Trace(START, es, s), Queue(s))
    ensures Pushes(es) == Outcomes(Trace(START, es, s)) + Pending(s)
    ensures s.accepted == Ins(Trace(START, es, s)) && s.delivered == Outs(Trace(START, es, s))
  {
    StartInv();
    RunRefines(START, es, s);
    RunAccounts(START, es, s);
    RunLosesNothing(START, es, s);
    assert Pending(START) + Pushes(es) == Pushes(es);
  }

  /** A push with no one in between: four steps that append the byte, or two that drop it. */
  lemma PushAlone(s: State, b: Byte)
    requires Inv(s) && s.prod.PIdle?
    ensures var two := Do(Do(s, BeginPush(b)), LoadTail);
      if |Queue(s)| == 63 then two == s
      else
        && Enabled(two, StoreByte) && Enabled(Do(two, StoreByte), StoreHead)
        && var four := Do(Do(two, StoreByte), StoreHead);
           Inv(four) && four.prod.PIdle? && Queue(four) == Queue(s) + [b]
  {
    hide Holds;
    var one := Do(s, BeginPush(b));
    StepRefines(s, BeginPush(b));
    StepRefines(one, LoadTail);
    var two := Do(one, LoadTail);
    HeldSize(s);
    HeadMeetsTail(s.tail, |Queue(s)|);
    if |Queue(s)| < CAP - 1 {
      StepRefines(two, StoreByte);
      StepRefines(Do(two, StoreByte), StoreHead);
    }
  }

  lemma HeldSize(s: State)
    requires Inv(s)
    ensures |s.buf| == CAP && s.head < CAP && s.tail < CAP && |Queue(s)| < CAP
  {
  }

  // ---- the two sides run by themselves ----

  /** The bytes from the tail up to the head. */
  function View(buf: seq<Byte>, tail: nat, head: nat): seq<Byte>
    requires |buf| == CAP && tail < CAP && head < CAP
  {
    if tail <= head then buf[tail..head] else buf[tail..] + buf[..head]
  }

  lemma ViewPop(buf: seq<Byte>, tail: nat, head: nat)
    requires |buf| == CAP && tail < CAP && head < CAP && tail != head
    ensures View(buf, tail, head) == [buf[tail]] + View(buf, Next(tail), head)
  {
    var t := Next(tail);
    assert t == if tail + 1 == CAP then 0 else tail + 1;
    if tail < head {
      assert buf[tail..head] == [buf[tail]] + buf[tail + 1..head];
    } else if tail + 1 < CAP {
      assert buf[tail..] == [buf[tail]] + buf[tail + 1..];
      assert [buf[tail]] + buf[tail + 1..] + buf[..head] == [buf[tail]] + (buf[tail + 1..] + buf[..head]);
    } else {
      assert buf[tail..] == [buf[tail]] && buf[0..head] == buf[..head];
    }
  }

  lemma ViewEmpty(buf: seq<Byte>, i: nat)
    requires |buf| == CAP && i < CAP
    ensures View(buf, i, i) == []
  {
  }

  /** The ring as the program has it, used when neither side is in the middle of a step. */
  class Ring {
    const buf: array<Byte>
    var head: nat
    var tail: nat

    ghost predicate Valid()
      reads this, buf
    {
      buf.Length == CAP && head < CAP && tail < CAP
    }

    ghost function Contents(): seq<Byte>
      requires Valid()
      reads this, buf
    {
      View(buf[..], tail, head)
    }

    constructor ()
      ensures Valid() && Contents() == [] && fresh(buf)
    {
      buf := new Byte[CAP](_ => 0);
      head, tail := 0, 0;
    }

    /** `rb_push`: a byte that finds 63 unread is dropped. */
    method Push(b: Byte)
      requires Valid()
      modifies this`head, buf
      ensures Valid()
      ensures Contents() == if |old(Contents())| == 63 then old(Contents()) else old(Contents()) + [b]
    {
      var h := head;
      var next := (h + 1) % CAP;
      if next == tail { return; }
      buf[h] := b;
      head := next;
    }

    /** `drain`: hand over everything unread, oldest first. */
    method Drain() returns (bytes: seq<Byte>)
      requires Valid()
      modifies this`tail
      ensures Valid() && Contents() == [] && bytes == old(Contents())
    {
      hide View;
      bytes := [];
      ghost var was := buf[..];
      while tail != head
        invariant Valid() && buf[..] == was
        invariant View(was, old(tail), head) == bytes + View(was, tail, head)
        decreases if tail <= head then head - tail else CAP - tail + head
      {
        ghost var rest := View(was, Next(tail), head);
        ViewPop(was, tail, head);
        assert bytes + ([was[tail]] + rest) == (bytes + [was[tail]]) + rest;
        var b := buf[tail];
        tail := (tail + 1) % CAP;
        bytes := bytes + [b];
      }
      ViewEmpty(was, tail);
    }

    /** The contents seen slot by slot are the queue of the step-by-step model. */
    lemma ContentsAreHeld()
      requires Valid()
      ensures |Contents()| < CAP && Holds(buf[..], tail, Contents()) && head == Slot(tail, |Contents()|)
    {
    }
  }
}
