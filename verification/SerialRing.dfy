/** The serial receive ring (kernel/drivers/serial.c:41-45, 66-88, 148-158).

    The interrupt side (`serial_putc`) runs to completion; it may do so between
    any two machine instructions of the process side (`serial_getc`).  So the
    reader is modelled one instruction at a time, with its registers. */
module SerialRing {
  import opened Common

  const SIZE := 128

  type Byte = b: int | 0 <= b < 256

  /** An answer of `serial_getc`: the byte in AL and the zero flag. */
  datatype Answer = Answer(byte: int, zero: bool)

  /** Where the reader stands: the instruction it executes next. */
  datatype Place =
    | Idle | LoadHead | LoadTail | Compare | JumpIfEmpty | LoadByte | Increment | Mask | StoreHead | TestByte
    | ClearByte | Return(success: bool)

  /** Memory, the reader's registers, and what has happened so far: the bytes
      that arrived, those put into the ring, those taken out of it, and the
      answers given. */
  datatype State = State(
    buf: seq<int>, head: int, tail: int,
    place: Place, bl: int, al: int, zero: bool,
    arrived: seq<int>, accepted: seq<int>, handed: seq<int>, answers: seq<Answer>)

  /** `and x, 0x7F` on a byte. */
  function Masked(x: int): int { x % SIZE }

  // ----- The two sides -----

  /** There is room for a byte. */
  predicate Room(s: State) { Masked(s.tail + 1) != s.head }

  /** The interrupt handler receives `byte`. */
  function Receive(s: State, byte: int): State
    requires 0 <= s.tail < |s.buf|
  {
    var r := s.(arrived := s.arrived + [byte]);
    if Room(s) then r.(buf := s.buf[s.tail := byte], tail := Masked(s.tail + 1), accepted := s.accepted + [byte]) else r
  }

  /** The reader executes one instruction. */
  function Step(s: State): State
    requires 0 <= s.bl < 256
  {
    match s.place
    case Idle => s.(place := LoadHead)
    case LoadHead => s.(place := LoadTail, bl := s.head)
    case LoadTail => s.(place := Compare, al := s.tail)
    case Compare => s.(place := JumpIfEmpty, zero := s.bl == s.al)
    case JumpIfEmpty => s.(place := if s.zero then ClearByte else LoadByte)
    case LoadByte => s.(place := Increment, al := if s.bl < |s.buf| then s.buf[s.bl] else 0)
    case Increment => s.(place := Mask, bl := (s.bl + 1) % 256)
    case Mask => s.(place := StoreHead, bl := Masked(s.bl))
    case StoreHead => s.(place := TestByte, head := s.bl, handed := s.handed + [s.al])
    case TestByte => s.(place := Return(true), zero := s.al == 0)
    case ClearByte => s.(place := Return(false), al := 0, zero := true)
    case Return(_) => s.(place := Idle, answers := s.answers + [Answer(s.al, s.zero)])
  }

  // ----- The invariant -----

  /** The bytes in the ring, oldest first. */
  function Queue(s: State): seq<int>
    requires |s.handed| <= |s.accepted|
  {
    s.accepted[|s.handed|..]
  }

  /** Byte `b` lies `i` places after the head. */
  predicate Stored(buf: seq<int>, head: int, i: int, b: int) {
    0 <= Masked(head + i) < |buf| && buf[Masked(head + i)] == b
  }

  /** The ring holds the bytes `q`, and nothing else counts. */
  predicate Ring(buf: seq<int>, head: int, tail: int, q: seq<int>) {
    && |buf| == SIZE && 0 <= head < SIZE && 0 <= tail < SIZE
    && |q| < SIZE && tail == Masked(head + |q|)
    && forall i :: 0 <= i < |q| ==> Stored(buf, head, i, q[i])
  }

  predicate RingHolds(s: State) {
    s.handed <= s.accepted && Ring(s.buf, s.head, s.tail, Queue(s))
  }

  /** What the reader's registers hold at each place. */
  predicate RegistersHold(s: State)
    requires |s.handed| <= |s.accepted|
  {
    var some := Queue(s) != [];
    && 0 <= s.bl < 256
    && match s.place
       case LoadTail => s.bl == s.head
       case Compare => s.bl == s.head && (s.al != s.head ==> some)
       case JumpIfEmpty => s.bl == s.head && (!s.zero ==> some)
       case LoadByte => s.bl == s.head && some
       case Increment => s.bl == s.head && some && s.al == Queue(s)[0]
       case Mask => s.bl == s.head + 1 && some && s.al == Queue(s)[0]
       case StoreHead => s.bl == Masked(s.head + 1) && some && s.al == Queue(s)[0]
       case TestByte => s.handed != [] && s.al == s.handed[|s.handed| - 1]
       case Return(true) => s.handed != [] && s.al == s.handed[|s.handed| - 1] && s.zero == (s.al == 0)
       case Return(false) => s.al == 0 && s.zero
       case _ => true
  }

  /** The bytes that a caller takes who goes by the zero flag. */
  function Taken(answers: seq<Answer>): seq<int> {
    if answers == [] then []
    else
      var last := answers[|answers| - 1];
      Taken(answers[..|answers| - 1]) + (if last.zero then [] else [last.byte])
  }

  function NonZero(bytes: seq<int>): seq<int> {
    if bytes == [] then []
    else
      var last := bytes[|bytes| - 1];
      NonZero(bytes[..|bytes| - 1]) + (if last == 0 then [] else [last])
  }

  /** The bytes of finished calls: the last one may still be on its way. */
  function Delivered(s: State): seq<int> {
    if (s.place == TestByte || s.place == Return(true)) && s.handed != [] then s.handed[..|s.handed| - 1] else s.handed
  }

  ghost predicate Invariant(s: State) {
    RingHolds(s) && RegistersHold(s) && Taken(s.answers) == NonZero(Delivered(s))
  }

  // ----- Every step keeps it -----

  lemma MaskedNext(x: int, n: int)
    requires 0 <= n
    ensures Masked(Masked(x + n) + 1) == Masked(x + n + 1) && Masked(Masked(x + 1) + n) == Masked(x + n + 1)
  {
  }

  lemma MaskedApart(x: int, i: int, j: int)
    requires 0 <= i < j < SIZE
    ensures Masked(x + i) != Masked(x + j)
  {
  }

  lemma Enqueue(buf: seq<int>, head: int, tail: int, q: seq<int>, b: int)
    requires Ring(buf, head, tail, q) && |q| < SIZE - 1
    ensures Ring(buf[tail := b], head, Masked(tail + 1), q + [b])
  {
    MaskedNext(head, |q|);
    forall i | 0 <= i < |q| + 1 ensures Stored(buf[tail := b], head, i, (q + [b])[i]) {
      if i < |q| {
        assert Stored(buf, head, i, q[i]);
        MaskedApart(head, i, |q|);
      }
    }
  }

  lemma Dequeue(buf: seq<int>, head: int, tail: int, q: seq<int>)
    requires Ring(buf, head, tail, q) && q != []
    ensures Ring(buf, Masked(head + 1), tail, q[1..])
  {
    MaskedNext(head, |q| - 1);
    forall i | 0 <= i < |q| - 1 ensures Stored(buf, Masked(head + 1), i, q[1..][i]) {
      assert Stored(buf, head, i + 1, q[i + 1]);
      MaskedNext(head, i);
    }
  }

  /** The ring is full exactly when 127 bytes are queued. */
  lemma RoomIffNotFull(s: State)
    requires RingHolds(s)
    ensures Room(s) <==> |Queue(s)| < SIZE - 1
  {
    MaskedNext(s.head, |Queue(s)|);
    if |Queue(s)| + 1 < SIZE { MaskedApart(s.head, 0, |Queue(s)| + 1); }
  }

  lemma EmptyIffMeet(s: State)
    requires RingHolds(s)
    ensures s.head == s.tail <==> Queue(s) == []
  {
    if |Queue(s)| > 0 { MaskedApart(s.head, 0, |Queue(s)|); }
  }

  lemma ReceiveIs(s: State, byte: int)
    requires RingHolds(s)
    ensures 0 <= s.tail < |s.buf| && Receive(s, byte).handed == s.handed && Receive(s, byte).head == s.head
    ensures Room(s) ==> Receive(s, byte).buf == s.buf[s.tail := byte] && Receive(s, byte).tail == Masked(s.tail + 1)
    ensures Room(s) ==> Receive(s, byte).accepted == s.handed + (Queue(s) + [byte])
    ensures !Room(s) ==> Receive(s, byte).buf == s.buf && Receive(s, byte).tail == s.tail && Receive(s, byte).accepted == s.handed + Queue(s)
  {
    hide Ring;
    RingFacts(s);
    RingBounds(s);
    hide RingHolds;
  }

  lemma RingHoldsIs(s: State, q: seq<int>)
    requires s.accepted == s.handed + q && Ring(s.buf, s.head, s.tail, q)
    ensures RingHolds(s) && |s.handed| <= |s.accepted| && Queue(s) == q
  {
    hide Ring;
  }

  lemma ReceiveKeepsRing(s: State, byte: int)
    requires RingHolds(s)
    ensures RingHolds(Receive(s, byte)) && |s.handed| <= |Receive(s, byte).accepted|
    ensures Queue(Receive(s, byte)) == if |Queue(s)| < SIZE - 1 then Queue(s) + [byte] else Queue(s)
  {
    hide *;
    RoomIffNotFull(s);
    RingFacts(s);
    RingBounds(s);
    ReceiveIs(s, byte);
    if Room(s) {
      Enqueue(s.buf, s.head, s.tail, Queue(s), byte);
      RingHoldsIs(Receive(s, byte), Queue(s) + [byte]);
    } else {
      RingHoldsIs(Receive(s, byte), Queue(s));
    }
  }

  /** More bytes in the queue leave the reader's knowledge valid. */
  lemma RegistersStay(s: State, r: State)
    requires RingHolds(s) && RegistersHold(s) && RingHolds(r) && Queue(s) <= Queue(r)
    requires r.head == s.head && r.place == s.place && r.bl == s.bl && r.al == s.al && r.zero == s.zero && r.handed == s.handed
    ensures RegistersHold(r)
  {
    RingBounds(s);
    RingBounds(r);
    hide RingHolds;
    var q, q' := Queue(s), Queue(r);
    assert q != [] ==> q'[0] == q[0];
    hide Queue;
  }

  lemma ReceiveKeeps(s: State, byte: int)
    requires Invariant(s)
    ensures Invariant(Receive(s, byte))
  {
    hide RingHolds, RegistersHold, Taken, NonZero, Masked;
    RingBounds(s);
    ReceiveKeepsRing(s, byte);
    RegistersStay(s, Receive(s, byte));
    assert Delivered(Receive(s, byte)) == Delivered(s);
  }

  lemma RingBounds(s: State)
    requires RingHolds(s)
    ensures |s.buf| == SIZE && 0 <= s.head < SIZE && 0 <= s.tail < SIZE && |s.handed| <= |s.accepted|
  {
  }

  lemma StoreIs(s: State)
    requires Invariant(s) && s.place == StoreHead
    ensures RingHolds(s) && |s.handed| <= |s.accepted| && Queue(s) != [] && s.al == Queue(s)[0] && 0 <= s.bl < 256
    ensures Step(s) == s.(place := TestByte, head := Masked(s.head + 1), handed := s.handed + [s.al])
  {
    hide Ring, Taken, NonZero, Delivered;
  }

  lemma HeadAndTail(handed: seq<int>, q: seq<int>)
    requires q != []
    ensures handed + q == (handed + [q[0]]) + q[1..] && q == [q[0]] + q[1..]
  {
  }

  /** The oldest byte leaves. */
  lemma StoreHeadKeepsRing(s: State)
    requires Invariant(s) && s.place == StoreHead
    ensures RingHolds(Step(s)) && |Step(s).handed| <= |Step(s).accepted|
    ensures Queue(s) == [s.al] + Queue(Step(s))
  {
    hide *;
    StoreIs(s);
    var r, q := Step(s), Queue(s);
    RingFacts(s);
    Dequeue(s.buf, s.head, s.tail, q);
    HeadAndTail(s.handed, q);
    RingHoldsIs(r, q[1..]);
  }

  lemma StepKeepsRing(s: State)
    requires Invariant(s)
    ensures RingHolds(Step(s)) && |Step(s).handed| <= |Step(s).accepted|
  {
    if s.place == StoreHead { StoreHeadKeepsRing(s); }
  }

  lemma QueueStays(s: State)
    requires RingHolds(s) && RegistersHold(s)
    ensures s.place != StoreHead ==> |Step(s).handed| <= |Step(s).accepted| && Queue(Step(s)) == Queue(s)
  {
    hide Ring;
  }

  lemma StepKeepsRegisters(s: State)
    requires RingHolds(s) && RegistersHold(s) && RingHolds(Step(s))
    ensures RegistersHold(Step(s))
  {
    hide Ring;
    RingBounds(s);
    RingBounds(Step(s));
    if s.place == LoadTail { EmptyIffMeet(s); }
    if s.place == LoadByte { HeadByte(s); }
    QueueStays(s);
    hide RingHolds, Queue;
  }

  lemma ReturnKeepsAnswers(s: State)
    requires |s.handed| <= |s.accepted| && RegistersHold(s) && Taken(s.answers) == NonZero(Delivered(s)) && s.place.Return?
    ensures Taken(Step(s).answers) == NonZero(Delivered(Step(s)))
  {
    var r := Step(s);
    assert r.answers == s.answers + [Answer(s.al, s.zero)] && Delivered(r) == s.handed;
    var success, handed, al, zero := s.place.success, s.handed, s.al, s.zero;
    TakenMore(s.answers, Answer(al, zero));
    assert success ==> handed != [] && Delivered(s) == handed[..|handed| - 1] && handed[|handed| - 1] == al && zero == (al == 0);
    assert !success ==> Delivered(s) == handed && zero;
    hide Step, RegistersHold, Delivered, Taken, NonZero;
    if success {
      assert handed == handed[..|handed| - 1] + [al];
      NonZeroMore(handed[..|handed| - 1], al);
    }
  }

  lemma TakenMore(answers: seq<Answer>, a: Answer)
    ensures Taken(answers + [a]) == Taken(answers) + (if a.zero then [] else [a.byte])
  {
    assert (answers + [a])[..|answers|] == answers;
  }

  lemma NonZeroMore(bytes: seq<int>, b: int)
    ensures NonZero(bytes + [b]) == NonZero(bytes) + (if b == 0 then [] else [b])
  {
    assert (bytes + [b])[..|bytes|] == bytes;
  }

  lemma StepKeepsAnswers(s: State)
    requires |s.handed| <= |s.accepted| && RegistersHold(s) && Taken(s.answers) == NonZero(Delivered(s))
    ensures Taken(Step(s).answers) == NonZero(Delivered(Step(s)))
  {
    hide RingHolds;
    var r := Step(s);
    if s.place.Return? {
      ReturnKeepsAnswers(s);
    } else if s.place == StoreHead {
      assert r.answers == s.answers && r.handed[..|r.handed| - 1] == s.handed;
      assert Delivered(r) == s.handed == Delivered(s);
    } else {
      assert r.answers == s.answers;
      assert Delivered(r) == Delivered(s);
    }
    hide Taken, NonZero;
  }

  lemma StepKeeps(s: State)
    requires Invariant(s)
    ensures Invariant(Step(s))
  {
    StepKeepsRing(s);
    StepKeepsRegisters(s);
    StepKeepsAnswers(s);
  }

  lemma ReceiveFields(s: State, byte: int)
    requires 0 <= s.tail < |s.buf|
    ensures Receive(s, byte) ==
      if (s.tail + 1) % SIZE != s.head then
        s.(buf := s.buf[s.tail := byte], tail := (s.tail + 1) % SIZE, accepted := s.accepted + [byte], arrived := s.arrived + [byte])
      else s.(arrived := s.arrived + [byte])
  {
  }

  lemma ReaderBounds(s: State)
    requires Invariant(s)
    ensures 0 <= s.bl < 256 && |s.buf| == SIZE && (s.place == LoadByte ==> s.bl < SIZE) && 0 <= s.tail < SIZE
  {
    hide Taken, NonZero;
  }

  lemma HeadByte(s: State)
    requires RingHolds(s) && Queue(s) != []
    ensures 0 <= s.head < |s.buf| && s.buf[s.head] == Queue(s)[0]
  {
    assert Stored(s.buf, s.head, 0, Queue(s)[0]);
  }

  // ----- Every run -----

  datatype Event = Arrives(byte: Byte) | Instruction

  function Start(): State { State(Zeros(SIZE), 0, 0, Idle, 0, 0, false, [], [], [], []) }

  /** The state after a history of interrupts and reader instructions. */
  function After(events: seq<Event>): (s: State)
    ensures Invariant(s)
    decreases |events|
  {
    if events == [] then Start()
    else
      var s := After(events[..|events| - 1]);
      var e := events[|events| - 1];
      if e.Arrives? then ReceiveKeeps(s, e.byte); Receive(s, e.byte) else StepKeeps(s); Step(s)
  }

  /** First in, first out, under every interleaving: the bytes handed out are a
      prefix of the bytes accepted, what lies between is what the ring holds, and
      that is at most 127 bytes. */
  lemma FifoAlways(events: seq<Event>)
    ensures var s := After(events);
      && s.handed <= s.accepted
      && s.accepted == s.handed + Queue(s)
      && |Queue(s)| <= SIZE - 1
      && Ring(s.buf, s.head, s.tail, Queue(s))
  {
    var s := After(events);
    hide After;
    RingFacts(s);
    hide RingHolds, RegistersHold, Taken, NonZero, Delivered, Ring;
  }

  lemma RingFacts(s: State)
    requires RingHolds(s)
    ensures s.handed <= s.accepted && s.accepted == s.handed + Queue(s) && |Queue(s)| <= SIZE - 1
    ensures Ring(s.buf, s.head, s.tail, Queue(s))
  {
  }

  lemma AfterMore(events: seq<Event>, e: Event)
    ensures After(events + [e]) == if e.Arrives? then Receive(After(events), e.byte) else Step(After(events))
  {
    var more := events + [e];
    assert more[..|more| - 1] == events;
    hide Invariant, Receive, Step;
  }

  /** A byte that arrives is accepted unless 127 bytes are queued. */
  lemma DroppedOnlyWhenFull(events: seq<Event>, byte: Byte)
    ensures var s := After(events); var r := After(events + [Arrives(byte)]);
      && r.arrived == s.arrived + [byte] && r.handed == s.handed
      && r.accepted == if |s.accepted| - |s.handed| == SIZE - 1 then s.accepted else s.accepted + [byte]
  {
    AfterMore(events, Arrives(byte));
    RoomIffNotFull(After(events));
    RingFacts(After(events));
    hide After, RingHolds, RegistersHold, Taken, NonZero, Masked;
  }

  /** The bytes that arrive, in order. */
  function Arrivals(events: seq<Event>): seq<int> {
    if events == [] then []
    else Arrivals(events[..|events| - 1]) + (if events[|events| - 1].Arrives? then [events[|events| - 1].byte] else [])
  }

  /** Some byte of the history arrives when 127 bytes are queued. */
  ghost predicate Overflows(events: seq<Event>) {
    exists n :: 0 <= n < |events| && FullAt(events, n)
  }

  ghost predicate FullAt(events: seq<Event>, n: int)
    requires 0 <= n < |events|
  {
    events[n].Arrives? && |After(events[..n]).accepted| - |After(events[..n]).handed| == SIZE - 1
  }

  /** Nothing is lost if and only if no byte arrives at a full ring. */
  lemma {:induction false} LosslessIff(events: seq<Event>)
    ensures After(events).arrived == Arrivals(events)
    ensures |After(events).accepted| <= |Arrivals(events)|
    ensures After(events).accepted == Arrivals(events) <==> !Overflows(events)
    ensures Overflows(events) ==> |After(events).accepted| < |Arrivals(events)|
    decreases |events|
  {
    hide Invariant, Step, Receive;
    if events != [] {
      var n := |events| - 1;
      var before, e := events[..n], events[n];
      LosslessIff(before);
      OverflowsStep(events);
      assert events == before + [e];
      if e.Arrives? { DroppedOnlyWhenFull(before, e.byte); } else { AfterInstruction(before); }
      hide Overflows, After;
    }
  }

  lemma AfterInstruction(events: seq<Event>)
    ensures After(events + [Instruction]).arrived == After(events).arrived && After(events + [Instruction]).accepted == After(events).accepted
  {
    AfterMore(events, Instruction);
    hide After, RingHolds, Taken, NonZero;
  }

  lemma FullBefore(events: seq<Event>, k: int)
    requires 0 <= k < |events| - 1
    ensures FullAt(events, k) == FullAt(events[..|events| - 1], k)
  {
    hide After;
    var before := events[..|events| - 1];
    assert events[..k] == before[..k] && events[k] == before[k];
  }

  lemma OverflowsStep(events: seq<Event>)
    requires events != []
    ensures Overflows(events) <==> Overflows(events[..|events| - 1]) || FullAt(events, |events| - 1)
  {
    hide FullAt;
    var n := |events| - 1;
    var before := events[..n];
    if Overflows(before) {
      var k :| 0 <= k < |before| && FullAt(before, k);
      FullBefore(events, k);
    }
    if Overflows(events) {
      var k :| 0 <= k < |events| && FullAt(events, k);
      if k < n { FullBefore(events, k); }
    }
  }

  // ----- What the caller sees -----

  lemma {:induction false} NonZeroAll(bytes: seq<int>)
    ensures |NonZero(bytes)| <= |bytes|
    ensures NonZero(bytes) == bytes <==> 0 !in bytes
    decreases |bytes|
  {
    if bytes != [] {
      var n := |bytes| - 1;
      NonZeroAll(bytes[..n]);
      assert bytes == bytes[..n] + [bytes[n]];
      if bytes[n] == 0 { assert 0 in bytes; }
    }
  }

  /** A caller who goes by the zero flag, clear on success as the driver
      documents it, sees every delivered byte if and only if none of them is
      zero: a zero byte leaves the ring but looks like an empty ring. */
  lemma SeenIffNonZero(events: seq<Event>)
    ensures Taken(After(events).answers) == NonZero(Delivered(After(events)))
    ensures Taken(After(events).answers) == Delivered(After(events)) <==> 0 !in Delivered(After(events))
  {
    NonZeroAll(Delivered(After(events)));
  }

  function Steps(s: State, n: nat): (r: State)
    requires Invariant(s)
    ensures Invariant(r)
    decreases n
  {
    if n == 0 then s else StepKeeps(s); Steps(Step(s), n - 1)
  }

  lemma StepsMore(s: State, n: nat)
    requires Invariant(s) && n > 0
    ensures Invariant(Step(s)) && Steps(s, n) == Steps(Step(s), n - 1)
  {
    StepKeeps(s);
    hide Invariant;
  }

  /** A call that is not interrupted takes the oldest byte, if there is one. */
  lemma CallTakesOldest(s: State)
    requires Invariant(s) && s.place == Idle
    ensures Queue(s) != [] ==>
      Steps(s, 11).place == Idle && Steps(s, 11).handed == s.handed + [Queue(s)[0]]
      && Steps(s, 11).answers == s.answers + [Answer(Queue(s)[0], Queue(s)[0] == 0)]
    ensures Queue(s) == [] ==> Steps(s, 7).place == Idle && Steps(s, 7).handed == s.handed && Steps(s, 7).answers == s.answers + [Answer(0, true)]
  {
    EmptyIffMeet(s);
    RingBounds(s);
    ReaderBounds(s);
    StepsMore(s, 11);
    StepsMore(s, 7);
    if Queue(s) != [] { HeadByte(s); }
    hide Invariant, Steps, RingHolds, RegistersHold, Queue;
    var s1 := Step(s);
    StepsMore(s1, 10);
    StepsMore(s1, 6);
    var s2 := Step(s1);
    StepsMore(s2, 9);
    StepsMore(s2, 5);
    var s3 := Step(s2);
    StepsMore(s3, 8);
    StepsMore(s3, 4);
    var s4 := Step(s3);
    StepsMore(s4, 7);
    StepsMore(s4, 3);
    var s5 := Step(s4);
    if s.head == s.tail {
      EmptyCallEnds(s5);
    } else {
      FullCallEnds(s5);
    }
  }

  lemma FirstArrival()
    ensures var s := After([Arrives(0)]); var t := Start();
      && Invariant(s) && s.place == Idle && s.handed == [] && s.answers == [] && |s.accepted| == 1 && Queue(s) == [0]
      && Invariant(t) && t.place == Idle && t.handed == [] && t.answers == [] && t.accepted == [] && Queue(t) == []
  {
    assert [] + [Arrives(0)] == [Arrives(0)];
    AfterMore([], Arrives(0));
    assert After([]) == Start();
    hide After, Invariant;
    assert Invariant(After([])) && Invariant(After([Arrives(0)]));
  }

  /** The documented promise fails when the byte is zero: it is handed out, and
      the answer is that of an empty ring. */
  lemma ZeroByteUnseen()
    ensures var s := After([Arrives(0)]);
      Steps(s, 11).handed == [0] && Steps(s, 11).answers == [Answer(0, true)] && Steps(Start(), 7).answers == [Answer(0, true)]
  {
    hide *;
    var s := After([Arrives(0)]);
    FirstArrival();
    CallTakesOldest(Start());
    CallTakesOldest(s);
  }

  lemma EmptyCallEnds(s: State)
    requires Invariant(s) && s.place == ClearByte
    ensures Steps(s, 2).place == Idle && Steps(s, 2).handed == s.handed && Steps(s, 2).answers == s.answers + [Answer(0, true)]
  {
    StepsMore(s, 2);
    StepsMore(Step(s), 1);
    hide Invariant;
  }

  lemma FullCallEnds(s: State)
    requires Invariant(s) && s.place == LoadByte
    ensures 0 <= s.head < |s.buf|
    ensures Steps(s, 6).place == Idle && Steps(s, 6).handed == s.handed + [s.buf[s.head]]
    ensures Steps(s, 6).answers == s.answers + [Answer(s.buf[s.head], s.buf[s.head] == 0)]
  {
    AtLoadByte(s);
    StepsMore(s, 6);
    hide Invariant;
    var s1 := Step(s);
    StepsMore(s1, 5);
    var s2 := Step(s1);
    StepsMore(s2, 4);
    var s3 := Step(s2);
    StepsMore(s3, 3);
    var s4 := Step(s3);
    StepsMore(s4, 2);
    StepsMore(Step(s4), 1);
  }

  lemma AtLoadByte(s: State)
    requires Invariant(s) && s.place == LoadByte
    ensures s.bl == s.head && 0 <= s.head < |s.buf| == SIZE
  {
    hide Taken, NonZero;
  }

  // ----- The driver itself -----

  class Driver {
    var buf: array<int>
    var head: int
    var tail: int
    var place: Place
    var bl: int
    var al: int
    var zero: bool
    ghost var arrived: seq<int>
    ghost var accepted: seq<int>
    ghost var handed: seq<int>
    ghost var answers: seq<Answer>

    ghost function Now(): State
      reads this, buf
    {
      State(buf[..], head, tail, place, bl, al, zero, arrived, accepted, handed, answers)
    }

    constructor ()
      ensures Now() == Start() && Invariant(Now()) && fresh(buf)
    {
      buf := new int[SIZE](_ => 0);
      head, tail, place, bl, al, zero := 0, 0, Idle, 0, 0, false;
      arrived, accepted, handed, answers := [], [], [], [];
      new;
      assert buf[..] == seq(SIZE, _ => 0);
      assert Invariant(After([]));
    }

    /** The interrupt side. */
    method Putc(byte: Byte)
      requires Invariant(Now())
      modifies this, buf
      ensures Invariant(Now()) && Now() == Receive(old(Now()), byte) && buf == old(buf)
    {
      hide Invariant, Receive;
      ghost var was := Now();
      ReaderBounds(was);
      ReceiveKeeps(was, byte);
      ReceiveFields(was, byte);
      var at := tail;
      var next := (at + 1) % SIZE;
      if next != head {
        buf[at] := byte;
        assert buf[..] == was.buf[at := byte];
        tail := next;
        accepted := accepted + [byte];
      }
      arrived := arrived + [byte];
    }

    /** The reader's instructions up to the branch. */
    method Look()
      requires Invariant(Now()) && (place.Idle? || place.LoadHead? || place.LoadTail? || place.Compare? || place.JumpIfEmpty?)
      modifies this
      ensures Now() == Step(old(Now())) && buf == old(buf)
    {
      ReaderBounds(Now());
      hide Invariant;
      match place {
        case Idle => place := LoadHead;
        case LoadHead => bl, place := head, LoadTail;
        case LoadTail => al, place := tail, Compare;
        case Compare => zero, place := bl == al, JumpIfEmpty;
        case JumpIfEmpty => place := if zero then ClearByte else LoadByte;
      }
    }

    /** The instructions that take a byte. */
    method Take()
      requires Invariant(Now()) && (place.LoadByte? || place.Increment? || place.Mask? || place.StoreHead?)
      modifies this
      ensures Now() == Step(old(Now())) && buf == old(buf)
    {
      ReaderBounds(Now());
      hide Invariant;
      match place {
        case LoadByte => al, place := buf[bl], Increment;
        case Increment => bl, place := (bl + 1) % 256, Mask;
        case Mask => bl, place := bl % SIZE, StoreHead;
        case StoreHead => head, handed, place := bl, handed + [al], TestByte;
      }
    }

    /** One instruction of the process side. */
    method Execute()
      requires Invariant(Now())
      modifies this
      ensures Invariant(Now()) && Now() == Step(old(Now())) && buf == old(buf)
    {
      StepKeeps(Now());
      ReaderBounds(Now());
      hide Invariant;
      if place.LoadByte? || place.Increment? || place.Mask? || place.StoreHead? {
        Take();
      } else if place.TestByte? {
        zero, place := al == 0, Return(true);
      } else if place.ClearByte? {
        al, zero, place := 0, true, Return(false);
      } else if place.Return? {
        answers, place := answers + [Answer(al, zero)], Idle;
      } else {
        Look();
      }
    }
  }
}
