/**
 Many threads tracing into one buffer, step by step: the unlocked flag check, the clock
 reading, taking the lock, one dword store at a time, the terminator, settling (wrap or
 disable) and releasing the lock. Stores happen in program order.
 */
module SharedLog {
  import opened Words
  import opened Records
  import opened TraceBuffer

  /** `maxSize` bounds the dwords of any one record. */
  datatype Config = Config(size: nat, threads: nat, wrap: bool, maxSize: nat)

  predicate Sane(c: Config) {
    HEADER + RESERVE <= c.size && 1 <= c.threads && 3 <= c.maxSize
  }

  /** Records and terminators fit the reserve: one record when wrapping, else one per thread. */
  predicate Fits(c: Config) {
    if c.wrap then c.maxSize + 1 <= RESERVE else c.threads * c.maxSize + 1 <= RESERVE
  }

  /**
   No store of the current generation has missed the buffer: the cursor, which only grows until
   a wrap or a rewind, is still inside. When wrapping, a record and its terminator must fit the
   reserve, since the wrap resets the cursor and keeps the generation before it readable.
   */
  predicate InBuffer(c: Config, s: State) {
    && (c.wrap ==> c.maxSize + 1 <= RESERVE)
    && if StoredSoFar(s) > 0 then s.cursor <= c.size else s.cursor < c.size
  }

  datatype Phase = Idle | Entered | Stamped | Inside

  /** `rec` is the record being traced; `issued` the calls that passed the flag check. */
  datatype Thread = Thread(phase: Phase, rec: Record, issued: seq<Record>)

  datatype Stage = Writing(stored: nat) | Closed | Settled

  datatype Lock = Free | Held(tid: nat, stage: Stage)

  datatype Entry = Entry(tid: nat, rec: Record)

  /**
   `log` lists the completed appends in lock order; the current generation starts at
   `base`, the one before it at `prevBase`; `laps` counts wraps and rewinds.
   */
  datatype State = State(
    mem: seq<Word>, cursor: nat, inited: bool, lock: Lock, clock: nat,
    threads: seq<Thread>, log: seq<Entry>, base: nat, prevBase: nat, laps: nat)

  datatype Event =
    | Enter(tid: nat, msg: Record)
    | ReadClock(tid: nat, sec: Word, nsec: Word)
    | Acquire(tid: nat)
    | Store(tid: nat)
    | Close(tid: nat)
    | SettleUp(tid: nat)
    | Release(tid: nat)
    | Rewind(header: seq<Word>)

  function ClockOf(sec: Word, nsec: Word): nat { sec * 1_000_000_000 + nsec }

  function StampOf(r: Record): nat { ClockOf(r.sec, r.nsec) }

  function WithClock(r: Record, sec: Word, nsec: Word): Record { r.(sec := sec, nsec := nsec) }

  const NOTHING: Record := RawRecord(0, 0, 0, [], "")

  function Init(c: Config, header: seq<Word>): State
    requires Sane(c) && |header| == HEADER
  {
    State(header + ZeroWords(c.size - HEADER), HEADER, true, Free, 0,
          seq(c.threads, _ => Thread(Idle, NOTHING, [])), [], 0, 0, 0)
  }

  predicate InPhase(s: State, t: nat, phase: Phase) {
    t < |s.threads| && s.threads[t].phase == phase
  }

  predicate Holds(s: State, t: nat) {
    InPhase(s, t, Inside) && s.lock.Held? && s.lock.tid == t
  }

  predicate Enabled(c: Config, s: State, e: Event) {
    match e
    case Enter(t, msg) => InPhase(s, t, Idle) && Size(msg) <= c.maxSize
    case ReadClock(t, sec, nsec) =>
      InPhase(s, t, Entered) && sec < 0x8000_0000 && nsec < 1_000_000_000 && s.clock <= ClockOf(sec, nsec)
    case Acquire(t) => InPhase(s, t, Stamped) && s.lock.Free?
    case Store(t) =>
      Holds(s, t) && s.lock.stage.Writing? && s.lock.stage.stored < Size(s.threads[t].rec)
    case Close(t) => Holds(s, t) && s.lock.stage == Writing(Size(s.threads[t].rec))
    case SettleUp(t) => Holds(s, t) && s.lock.stage == Closed
    case Release(t) => Holds(s, t) && s.lock.stage == Settled
    case Rewind(header) =>
      s.lock.Free? && |header| == HEADER && forall t :: 0 <= t < |s.threads| ==> s.threads[t].phase == Idle
  }

  /** A store into the buffer; one past its end leaves the buffer itself alone. */
  function Put(mem: seq<Word>, at: nat, w: Word): (m: seq<Word>)
    ensures |m| == |mem|
  {
    if at < |mem| then mem[at := w] else mem
  }

  function SetThread(s: State, t: nat, thread: Thread): State
    requires t < |s.threads|
  {
    s.(threads := s.threads[t := thread])
  }

  function Next(c: Config, s: State, e: Event): State
    requires Enabled(c, s, e)
  {
    match e
    case Enter(t, msg) =>
      if !s.inited then s
      else SetThread(s, t, Thread(Entered, msg, s.threads[t].issued + [msg]))
    case ReadClock(t, sec, nsec) =>
      var th := s.threads[t];
      SetThread(s, t, th.(phase := Stamped, rec := WithClock(th.rec, sec, nsec))).(clock := ClockOf(sec, nsec))
    case Acquire(t) =>
      SetThread(s, t, s.threads[t].(phase := Inside)).(lock := Held(t, Writing(0)))
    case Store(t) =>
      var k := s.lock.stage.stored;
      s.(mem := Put(s.mem, s.cursor, Encode(s.threads[t].rec)[k]), cursor := s.cursor + 1,
         lock := Held(t, Writing(k + 1)))
    case Close(t) =>
      s.(mem := Put(s.mem, s.cursor, 0), log := s.log + [Entry(t, s.threads[t].rec)], lock := Held(t, Closed))
    case SettleUp(t) => SettleState(c, s).(lock := Held(t, Settled))
    case Release(t) => SetThread(s, t, s.threads[t].(phase := Idle)).(lock := Free)
    case Rewind(header) =>
      s.(mem := if HEADER < |s.mem| then header + [0] + s.mem[HEADER + 1..] else s.mem,
         cursor := HEADER, inited := true, base := |s.log|, prevBase := |s.log|, laps := s.laps + 1)
  }

  /** The full check: in bounds it is the single-caller buffer's `Settle`. */
  function SettleState(c: Config, s: State): State {
    if s.cursor + RESERVE <= c.size then s
    else if c.wrap then
      s.(mem := if s.cursor <= |s.mem|
                then Overwrite(s.mem, s.cursor, ZeroWords(|s.mem| - s.cursor)) else s.mem,
         cursor := HEADER, prevBase := s.base, base := |s.log|, laps := s.laps + 1)
    else s.(inited := false)
  }

  /** The state after a run of events, and whether every one of them was enabled. */
  ghost predicate IsRun(c: Config, s: State, events: seq<Event>)
    decreases |events|, 0
  {
    events == [] ||
    var before := events[..|events| - 1];
    IsRun(c, s, before) && Enabled(c, After(c, s, before), events[|events| - 1])
  }

  ghost function After(c: Config, s: State, events: seq<Event>): State
    requires IsRun(c, s, events)
    decreases |events|, 1
  {
    if events == [] then s
    else Next(c, After(c, s, events[..|events| - 1]), events[|events| - 1])
  }

  // ------------------------------------------------------------------ locking

  ghost predicate Locking(c: Config, s: State) {
    && |s.mem| == c.size && |s.threads| == c.threads
    && s.prevBase <= s.base <= |s.log|
    && (s.lock.Held? ==> InPhase(s, s.lock.tid, Inside))
    && (s.lock.Held? && s.lock.stage.Writing? ==> s.lock.stage.stored <= Size(s.threads[s.lock.tid].rec))
    && (s.lock.Held? && !s.lock.stage.Writing? && s.lock.stage != Settled ==> s.base < |s.log|)
    && (forall t :: 0 <= t < |s.threads| ==> Size(s.threads[t].rec) <= c.maxSize)
    && (forall t :: 0 <= t < |s.threads| && s.threads[t].phase == Inside ==> s.lock.Held? && s.lock.tid == t)
  }

  lemma LockingStep(c: Config, s: State, e: Event)
    requires Sane(c) && Locking(c, s) && Enabled(c, s, e)
    ensures Locking(c, Next(c, s, e))
  {
    if e.ReadClock? {
      assert Size(WithClock(s.threads[e.tid].rec, e.sec, e.nsec)) == Size(s.threads[e.tid].rec);
    }
  }

  // ------------------------------------------------------------------ capacity

  /** Dwords that the calls past the flag check, but not yet inside the lock, may still store. */
  function Budget(threads: seq<Thread>, maxSize: nat): nat {
    if threads == [] then 0
    else Budget(threads[1..], maxSize) + (if Waiting(threads[0]) then maxSize else 0)
  }

  predicate Waiting(thread: Thread) { thread.phase == Entered || thread.phase == Stamped }

  lemma {:induction false} BudgetUpdate(threads: seq<Thread>, t: nat, thread: Thread, maxSize: nat)
    requires t < |threads|
    ensures Budget(threads[t := thread], maxSize) + (if Waiting(threads[t]) then maxSize else 0)
         == Budget(threads, maxSize) + (if Waiting(thread) then maxSize else 0)
  {
    var changed := threads[t := thread];
    if t == 0 {
      assert changed[1..] == threads[1..];
    } else {
      assert changed[1..] == threads[1..][t - 1 := thread];
      BudgetUpdate(threads[1..], t - 1, thread, maxSize);
    }
  }

  lemma OneMore(n: nat, m: nat)
    ensures (n + 1) * m == n * m + m
    ensures m <= (n + 1) * m
  {
  }

  lemma {:induction false} BudgetBound(threads: seq<Thread>, maxSize: nat)
    ensures Budget(threads, maxSize) <= |threads| * maxSize
  {
    if threads != [] {
      BudgetBound(threads[1..], maxSize);
      OneMore(|threads[1..]|, maxSize);
    }
  }

  /** A thread that is not waiting leaves room for one record. */
  lemma {:induction false} BudgetSpare(threads: seq<Thread>, t: nat, maxSize: nat)
    requires t < |threads| && !Waiting(threads[t])
    ensures Budget(threads, maxSize) + maxSize <= |threads| * maxSize
  {
    OneMore(|threads[1..]|, maxSize);
    if t == 0 {
      BudgetBound(threads[1..], maxSize);
    } else {
      BudgetSpare(threads[1..], t - 1, maxSize);
    }
  }

  predicate IsWriting(s: State) { s.lock.Held? && s.lock.stage.Writing? }

  /** Dwords of the record being stored that are already in the buffer. */
  function StoredSoFar(s: State): nat { if IsWriting(s) then s.lock.stage.stored else 0 }

  /** With the flag up, appends start below the reserve; with it down, late ones are budgeted. */
  ghost predicate Bounded(c: Config, s: State) {
    && StoredSoFar(s) <= s.cursor
    && (c.wrap ==> s.inited)
    && var start := s.cursor - StoredSoFar(s);
       if s.inited then
         start + RESERVE <= c.size + (if s.lock.Held? && s.lock.stage == Closed then c.maxSize else 0)
       else
         start + Budget(s.threads, c.maxSize) + (if IsWriting(s) then c.maxSize else 0) + RESERVE
         <= c.size + c.threads * c.maxSize
  }

  lemma BoundedStep(c: Config, s: State, e: Event)
    requires Sane(c) && Locking(c, s) && Bounded(c, s) && Enabled(c, s, e)
    ensures Bounded(c, Next(c, s, e))
  {
    match e
    case Enter(t, msg) =>
      if s.inited {
        BudgetUpdate(s.threads, t, Next(c, s, e).threads[t], c.maxSize);
      }
    case ReadClock(t, sec, nsec) => BudgetUpdate(s.threads, t, Next(c, s, e).threads[t], c.maxSize);
    case Acquire(t) => BudgetUpdate(s.threads, t, Next(c, s, e).threads[t], c.maxSize);
    case Release(t) => BudgetUpdate(s.threads, t, Next(c, s, e).threads[t], c.maxSize);
    case SettleUp(t) => BudgetSpare(s.threads, t, c.maxSize);
    case _ =>
  }

  lemma ReserveHoldsOne(c: Config)
    requires Sane(c) && Fits(c)
    ensures c.maxSize + 1 <= RESERVE
  {
    OneMore(c.threads - 1, c.maxSize);
  }

  /** With enough reserve, no store ever misses the buffer. */
  lemma FitsInBuffer(c: Config, s: State)
    requires Sane(c) && Fits(c) && Locking(c, s) && Bounded(c, s)
    ensures InBuffer(c, s)
    ensures s.lock.Held? && s.lock.stage != Settled ==> s.cursor < c.size
  {
    ReserveHoldsOne(c);
  }

  /** What is in the buffer after a step was in it before, unless the step starts afresh. */
  lemma InBufferBefore(c: Config, s: State, e: Event)
    requires Sane(c) && Locking(c, s) && Bounded(c, s) && Enabled(c, s, e) && !e.Rewind?
    requires InBuffer(c, Next(c, s, e))
    ensures InBuffer(c, s)
    ensures e.Store? || e.Close? ==> s.cursor < c.size
  {
    if c.wrap {
      FitsInBuffer(c, s);
    }
  }

  // ------------------------------------------------------------------ memory

  function Recs(log: seq<Entry>): (rs: seq<Record>)
    ensures |rs| == |log|
  {
    seq(|log|, i requires 0 <= i < |log| => log[i].rec)
  }

  /** The records of the current generation, and of the one before it. */
  function Current(s: State): seq<Record>
    requires s.prevBase <= s.base <= |s.log|
  {
    Recs(s.log[s.base..])
  }

  function Previous(s: State): seq<Record>
    requires s.prevBase <= s.base <= |s.log|
  {
    Recs(s.log[s.prevBase..s.base])
  }

  function ImageOf(s: State): Image { Image(s.mem, s.cursor, s.inited) }

  /** `k` dwords of `r` stored behind the generation `rs`. */
  ghost predicate Partial(mem: seq<Word>, cursor: nat, rs: seq<Record>, r: Record, k: nat) {
    && k <= Size(r) && HEADER + |EncodeAll(rs)| + k == cursor <= |mem|
    && mem[HEADER..cursor] == EncodeAll(rs) + Encode(r)[..k]
  }

  /** What memory holds at each stage of the append in progress. */
  ghost predicate Consistent(c: Config, s: State)
    requires Locking(c, s)
  {
    match s.lock
    case Free => Quiet(ImageOf(s), Current(s), Previous(s))
    case Held(t, Settled) => Quiet(ImageOf(s), Current(s), Previous(s))
    case Held(t, Closed) => TraceBuffer.Terminated(ImageOf(s), Current(s))
    case Held(t, Writing(k)) =>
      && Partial(s.mem, s.cursor, Current(s), s.threads[t].rec, k)
      && (k == 0 ==> Quiet(ImageOf(s), Current(s), Previous(s)))
  }

  lemma QuietIsPartial(img: Image, current: seq<Record>, previous: seq<Record>, r: Record)
    requires Quiet(img, current, previous)
    ensures Partial(img.mem, img.cursor, current, r, 0)
  {
    assert Encode(r)[..0] == [];
    assert EncodeAll(current) + [] == EncodeAll(current);
  }

  lemma PartialStore(mem: seq<Word>, cursor: nat, rs: seq<Record>, r: Record, k: nat)
    requires Partial(mem, cursor, rs, r, k) && k < Size(r) && HEADER <= cursor < |mem|
    ensures Partial(mem[cursor := Encode(r)[k]], cursor + 1, rs, r, k + 1)
  {
    var m := mem[cursor := Encode(r)[k]];
    assert m[HEADER..cursor + 1] == mem[HEADER..cursor] + [Encode(r)[k]];
    assert Encode(r)[..k + 1] == Encode(r)[..k] + [Encode(r)[k]];
    ConcatAssociates(EncodeAll(rs), Encode(r)[..k], [Encode(r)[k]]);
  }

  lemma PartialClose(mem: seq<Word>, cursor: nat, rs: seq<Record>, r: Record, inited: bool)
    requires HEADER + RESERVE <= |mem| && Partial(mem, cursor, rs, r, Size(r)) && HEADER <= cursor < |mem|
    ensures TraceBuffer.Terminated(Image(mem[cursor := 0], cursor, inited), rs + [r])
  {
    EncodeAllSnoc(rs, r);
    assert Encode(r)[..Size(r)] == Encode(r);
    var m := mem[cursor := 0];
    assert m[HEADER..cursor] == mem[HEADER..cursor];
  }

  lemma ClosedGeneration(s: State, e: Entry)
    requires s.prevBase <= s.base <= |s.log|
    ensures var s' := s.(log := s.log + [e]);
      Current(s') == Current(s) + [e.rec] && Previous(s') == Previous(s)
  {
    var s' := s.(log := s.log + [e]);
    assert s'.log[s.base..] == s.log[s.base..] + [e];
    assert s'.log[s.prevBase..s.base] == s.log[s.prevBase..s.base];
  }

  /** As long as no store misses the buffer, every step keeps memory consistent. */
  lemma ConsistentStep(c: Config, s: State, e: Event)
    requires Sane(c) && Locking(c, s) && Bounded(c, s) && Enabled(c, s, e) && InBuffer(c, Next(c, s, e))
    requires InBuffer(c, s) ==> Consistent(c, s)
    ensures Locking(c, Next(c, s, e)) && Consistent(c, Next(c, s, e))
  {
    LockingStep(c, s, e);
    if !e.Rewind? {
      InBufferBefore(c, s, e);
    }
    match e
    case Enter(_, _) =>
    case ReadClock(_, _, _) =>
    case Release(_) =>
    case Acquire(t) => QuietIsPartial(ImageOf(s), Current(s), Previous(s), s.threads[t].rec);
    case Store(t) => ConsistentStore(c, s, t);
    case Close(t) => ConsistentClose(c, s, t);
    case SettleUp(t) => ConsistentSettle(c, s, t);
    case Rewind(header) => ConsistentRewind(c, s, header);
  }

  lemma ConsistentStore(c: Config, s: State, t: nat)
    requires Sane(c) && Locking(c, s) && Consistent(c, s) && Enabled(c, s, Store(t)) && s.cursor < c.size
    requires Locking(c, Next(c, s, Store(t)))
    ensures Consistent(c, Next(c, s, Store(t)))
  {
    PartialStore(s.mem, s.cursor, Current(s), s.threads[t].rec, s.lock.stage.stored);
  }

  lemma ConsistentClose(c: Config, s: State, t: nat)
    requires Sane(c) && Locking(c, s) && Consistent(c, s) && Enabled(c, s, Close(t)) && s.cursor < c.size
    requires Locking(c, Next(c, s, Close(t)))
    ensures Consistent(c, Next(c, s, Close(t)))
  {
    var r := s.threads[t].rec;
    PartialClose(s.mem, s.cursor, Current(s), r, s.inited);
    ClosedGeneration(s, Entry(t, r));
  }

  lemma ConsistentSettle(c: Config, s: State, t: nat)
    requires Sane(c) && Locking(c, s) && Consistent(c, s) && Enabled(c, s, SettleUp(t))
    requires Locking(c, Next(c, s, SettleUp(t)))
    ensures Consistent(c, Next(c, s, SettleUp(t)))
  {
    var s' := Next(c, s, SettleUp(t));
    SettleKeepsQuiet(ImageOf(s), Current(s), Previous(s), c.wrap);
    SettledImage(c, s);
    assert s'.lock == Held(t, Settled) && ImageOf(s') == Settle(ImageOf(s), c.wrap);
  }

  /** Settling is the single-caller buffer's, and a wrap moves the generations on. */
  lemma SettledImage(c: Config, s: State)
    requires Locking(c, s) && RESERVE <= c.size && s.cursor <= c.size
    ensures var s' := SettleState(c, s);
      && ImageOf(s') == Settle(ImageOf(s), c.wrap)
      && s'.prevBase <= s'.base <= |s'.log|
      && if c.wrap && s.cursor > c.size - RESERVE then Current(s') == [] && Previous(s') == Current(s)
         else Current(s') == Current(s) && Previous(s') == Previous(s)
  {
    var s' := SettleState(c, s);
    if c.wrap && s.cursor > c.size - RESERVE {
      assert s'.log[s'.base..] == [];
      assert s'.log[s'.prevBase..s'.base] == s.log[s.base..];
    }
  }

  lemma ConsistentRewind(c: Config, s: State, header: seq<Word>)
    requires Sane(c) && Locking(c, s) && Enabled(c, s, Rewind(header))
    ensures Locking(c, Next(c, s, Rewind(header))) && Consistent(c, Next(c, s, Rewind(header)))
  {
    var s' := Next(c, s, Rewind(header));
    LockingStep(c, s, Rewind(header));
    assert s'.log[s'.base..] == [] && s'.log[s'.prevBase..s'.base] == [];
    var img := ImageOf(s');
    assert img.mem == header + [0] + s.mem[HEADER + 1..];
    assert img.mem[HEADER] == 0;
    EmptyIsQuiet(img);
  }

  // ------------------------------------------------------------------ fresh memory

  /** A buffer that never wrapped or was rewound is zero from the cursor on. */
  ghost predicate Fresh(s: State) {
    s.laps == 0 ==>
      && s.base == s.prevBase == 0
      && forall a :: s.cursor <= a < |s.mem| ==> s.mem[a] == 0
  }

  lemma FreshStep(c: Config, s: State, e: Event)
    requires Locking(c, s) && Fresh(s) && Enabled(c, s, e)
    ensures Fresh(Next(c, s, e))
  {
  }

  // ------------------------------------------------------------------ threads and their order

  /** The records of one thread, in log order. */
  function Own(log: seq<Entry>, t: nat): seq<Record> {
    if log == [] then []
    else
      var last := log[|log| - 1];
      Own(log[..|log| - 1], t) + (if last.tid == t then [last.rec] else [])
  }

  lemma OwnSnoc(log: seq<Entry>, e: Entry, t: nat)
    ensures Own(log + [e], t) == if e.tid == t then Own(log, t) + [e.rec] else Own(log, t)
  {
    assert (log + [e])[..|log|] == log;
  }

  predicate SameMessage(r: Record, msg: Record) { r == WithClock(msg, r.sec, r.nsec) }

  /** The call of thread `t` that is not in the log yet, if there is one. */
  predicate Pending(s: State, t: nat)
    requires t < |s.threads|
  {
    Waiting(s.threads[t]) || (s.threads[t].phase == Inside && IsWriting(s) && s.lock.tid == t)
  }

  ghost predicate SortedBelow(rs: seq<Record>, bound: nat) {
    && (forall i, j :: 0 <= i < j < |rs| ==> StampOf(rs[i]) <= StampOf(rs[j]))
    && (forall i :: 0 <= i < |rs| ==> StampOf(rs[i]) <= bound)
  }

  /** `own` is the calls a thread issued, in the order it issued them, all but a pending one. */
  ghost predicate Faithful(own: seq<Record>, issued: seq<Record>, pending: bool) {
    && |own| + (if pending then 1 else 0) == |issued|
    && forall i :: 0 <= i < |own| ==> SameMessage(own[i], issued[i])
  }

  /** How a thread relates to its own records in the log. */
  ghost predicate Tracks(th: Thread, own: seq<Record>, pending: bool, clock: nat) {
    && Faithful(own, th.issued, pending)
    && (pending ==> SameMessage(th.rec, th.issued[|th.issued| - 1]))
    && SortedBelow(own, clock)
    && (pending && th.phase != Entered ==> SortedBelow(own, StampOf(th.rec)) && StampOf(th.rec) <= clock)
  }

  ghost predicate ThreadOrder(s: State, t: nat)
    requires t < |s.threads|
  {
    Tracks(s.threads[t], Own(s.log, t), Pending(s, t), s.clock)
  }

  ghost predicate Ordered(s: State) {
    && (forall i :: 0 <= i < |s.log| ==> s.log[i].tid < |s.threads|)
    && (forall t :: 0 <= t < |s.threads| ==> ThreadOrder(s, t))
  }

  lemma OrderedStep(c: Config, s: State, e: Event)
    requires Locking(c, s) && Ordered(s) && Enabled(c, s, e)
    ensures Ordered(Next(c, s, e))
  {
    var s' := Next(c, s, e);
    forall t | 0 <= t < |s'.threads|
      ensures ThreadOrder(s', t)
    {
      assert ThreadOrder(s, t);
      if e.Rewind? {
      } else if e.tid != t {
        OtherThread(c, s, e, t);
      } else {
        SameThread(c, s, e);
      }
    }
  }

  lemma OtherThread(c: Config, s: State, e: Event, t: nat)
    requires Locking(c, s) && Enabled(c, s, e) && !e.Rewind? && t < |s.threads| && e.tid != t
    requires ThreadOrder(s, t)
    ensures ThreadOrder(Next(c, s, e), t)
  {
    if e.Close? {
      OwnSnoc(s.log, Entry(e.tid, s.threads[e.tid].rec), t);
    }
    ThreadOrderKept(s, Next(c, s, e), t);
  }

  lemma ThreadOrderKept(s: State, s': State, t: nat)
    requires t < |s.threads| && t < |s'.threads| && ThreadOrder(s, t)
    requires s'.threads[t] == s.threads[t] && Pending(s', t) == Pending(s, t)
    requires Own(s'.log, t) == Own(s.log, t) && s.clock <= s'.clock
    ensures ThreadOrder(s', t)
  {
  }

  lemma SameThread(c: Config, s: State, e: Event)
    requires Locking(c, s) && Enabled(c, s, e) && !e.Rewind? && ThreadOrder(s, e.tid)
    ensures ThreadOrder(Next(c, s, e), e.tid)
  {
    if e.Enter? || e.ReadClock? {
      BeforeTheLock(c, s, e);
    } else if e.Close? {
      OwnSnoc(s.log, Entry(e.tid, s.threads[e.tid].rec), e.tid);
      TracksClose(s.threads[e.tid], Own(s.log, e.tid), s.clock);
    } else {
      UnderTheLock(c, s, e);
    }
  }

  lemma BeforeTheLock(c: Config, s: State, e: Event)
    requires Locking(c, s) && Enabled(c, s, e) && (e.Enter? || e.ReadClock?) && ThreadOrder(s, e.tid)
    ensures ThreadOrder(Next(c, s, e), e.tid)
  {
    var th, own := s.threads[e.tid], Own(s.log, e.tid);
    if e.ReadClock? {
      TracksReadClock(th, own, s.clock, e.sec, e.nsec);
    } else if s.inited {
      TracksEnter(th, own, s.clock, e.msg);
    }
  }

  lemma UnderTheLock(c: Config, s: State, e: Event)
    requires e.Acquire? || e.Store? || e.SettleUp? || e.Release?
    requires Locking(c, s) && Enabled(c, s, e) && ThreadOrder(s, e.tid)
    ensures ThreadOrder(Next(c, s, e), e.tid)
  {
    if e.Store? || e.SettleUp? {
      ThreadOrderKept(s, Next(c, s, e), e.tid);
    } else {
      LockTaken(c, s, e);
    }
  }

  lemma LockTaken(c: Config, s: State, e: Event)
    requires e.Acquire? || e.Release?
    requires Locking(c, s) && Enabled(c, s, e) && ThreadOrder(s, e.tid)
    ensures ThreadOrder(Next(c, s, e), e.tid)
  {
    var s' := Next(c, s, e);
    var phase := if e.Acquire? then Inside else Idle;
    assert s'.threads[e.tid] == s.threads[e.tid].(phase := phase) && s'.log == s.log && s'.clock == s.clock;
    assert Pending(s, e.tid) == Pending(s', e.tid) == e.Acquire?;
    TracksMove(s.threads[e.tid], Own(s.log, e.tid), e.Acquire?, s.clock, phase);
  }

  lemma TracksEnter(th: Thread, own: seq<Record>, clock: nat, msg: Record)
    requires Tracks(th, own, false, clock)
    ensures Tracks(Thread(Entered, msg, th.issued + [msg]), own, true, clock)
  {
  }

  lemma TracksMove(th: Thread, own: seq<Record>, pending: bool, clock: nat, phase: Phase)
    requires Tracks(th, own, pending, clock) && th.phase != Entered
    ensures Tracks(th.(phase := phase), own, pending, clock)
  {
  }

  lemma TracksReadClock(th: Thread, own: seq<Record>, clock: nat, sec: Word, nsec: Word)
    requires Tracks(th, own, true, clock) && clock <= ClockOf(sec, nsec)
    ensures Tracks(th.(phase := Stamped, rec := WithClock(th.rec, sec, nsec)), own, true, ClockOf(sec, nsec))
  {
    RestampKeepsMessage(th.rec, th.issued[|th.issued| - 1], sec, nsec);
    SortedBelowHigher(own, clock, ClockOf(sec, nsec));
  }

  lemma RestampKeepsMessage(r: Record, msg: Record, sec: Word, nsec: Word)
    requires SameMessage(r, msg)
    ensures SameMessage(WithClock(r, sec, nsec), msg) && StampOf(WithClock(r, sec, nsec)) == ClockOf(sec, nsec)
  {
  }

  lemma SortedBelowHigher(rs: seq<Record>, low: nat, high: nat)
    requires SortedBelow(rs, low) && low <= high
    ensures SortedBelow(rs, high)
  {
  }

  lemma TracksClose(th: Thread, own: seq<Record>, clock: nat)
    requires Tracks(th, own, true, clock) && th.phase != Entered
    ensures Tracks(th, own + [th.rec], false, clock)
  {
  }

  // ------------------------------------------------------------------ every reachable state

  ghost predicate Inv(c: Config, s: State) {
    Locking(c, s) && Bounded(c, s) && Fresh(s) && Ordered(s) && (InBuffer(c, s) ==> Consistent(c, s))
  }

  lemma InitInv(c: Config, header: seq<Word>)
    requires Sane(c) && |header| == HEADER
    ensures Inv(c, Init(c, header))
  {
    var s := Init(c, header);
    assert s.mem[HEADER] == 0;
    EmptyIsQuiet(ImageOf(s));
    assert s.log[s.base..] == [] && s.log[s.prevBase..s.base] == [];
  }

  lemma StepInv(c: Config, s: State, e: Event)
    requires Sane(c) && Inv(c, s) && Enabled(c, s, e)
    ensures Inv(c, Next(c, s, e))
  {
    LockingStep(c, s, e);
    BoundedStep(c, s, e);
    FreshStep(c, s, e);
    OrderedStep(c, s, e);
    if InBuffer(c, Next(c, s, e)) {
      ConsistentStep(c, s, e);
    }
  }

  lemma {:induction false} RunInv(c: Config, header: seq<Word>, events: seq<Event>)
    requires Sane(c) && |header| == HEADER && IsRun(c, Init(c, header), events)
    ensures Inv(c, After(c, Init(c, header), events))
    decreases |events|
  {
    if events == [] {
      InitInv(c, header);
    } else {
      var before := events[..|events| - 1];
      RunInv(c, header, before);
      StepInv(c, After(c, Init(c, header), before), events[|events| - 1]);
    }
  }

  /** A state some run reaches. */
  ghost predicate Reachable(c: Config, s: State) {
    exists header: seq<Word>, events: seq<Event> ::
      |header| == HEADER && Sane(c) && IsRun(c, Init(c, header), events) && s == After(c, Init(c, header), events)
  }

  lemma ReachableInv(c: Config, s: State)
    requires Reachable(c, s)
    ensures Sane(c) && Inv(c, s)
  {
    var header: seq<Word>, events: seq<Event> :|
      |header| == HEADER && Sane(c) && IsRun(c, Init(c, header), events) && s == After(c, Init(c, header), events);
    RunInv(c, header, events);
  }

  /**
   Whenever the lock is free, a reader of the buffer finds exactly the completed appends of
   the current generation in lock order (right after a wrap: of the whole previous one), each
   record contiguous; before any wrap that is every completed append. All it takes is that no
   store has missed the buffer.
   */
  lemma QuiescentChain(c: Config, s: State)
    requires Reachable(c, s) && InBuffer(c, s) && s.lock.Free?
    ensures s.prevBase <= s.base <= |s.log|
    ensures Readable(s.mem, Visible(Current(s), Previous(s)))
    ensures s.cursor == HEADER + |EncodeAll(Current(s))|
    ensures s.laps == 0 ==> Visible(Current(s), Previous(s)) == Recs(s.log)
  {
    ReachableInv(c, s);
    if s.laps == 0 {
      assert s.log[0..] == s.log;
    }
  }

  /**
   Every append of a thread is one of its calls, in program order and carrying that call's
   message; none is lost or repeated, whatever the other threads do.
   */
  lemma ProgramOrder(c: Config, s: State, t: nat)
    requires Reachable(c, s) && t < |s.threads|
    ensures Faithful(Own(s.log, t), s.threads[t].issued, Pending(s, t))
    ensures SortedBelow(Own(s.log, t), s.clock)
  {
    ReachableInv(c, s);
    assert ThreadOrder(s, t);
  }

  /** Without wrapping, the cursor passes the reserve by at most one record per thread. */
  lemma CapacityBound(c: Config, s: State)
    requires Reachable(c, s)
    ensures !c.wrap ==> s.cursor + RESERVE <= c.size + c.threads * c.maxSize
    ensures c.wrap ==> s.cursor + RESERVE <= c.size + c.maxSize
  {
    ReachableInv(c, s);
    BoundedCursor(c, s);
  }

  lemma BoundedCursor(c: Config, s: State)
    requires Sane(c) && Locking(c, s) && Bounded(c, s)
    ensures s.cursor + RESERVE <= c.size + if c.wrap then c.maxSize else c.threads * c.maxSize
  {
    OneMore(c.threads - 1, c.maxSize);
    assert StoredSoFar(s) <= c.maxSize;
  }

  /** Every store of a run, terminators included, hits the buffer. */
  lemma StoresInBounds(c: Config, s: State, e: Event)
    requires Reachable(c, s) && Fits(c) && Enabled(c, s, e) && (e.Store? || e.Close?)
    ensures HEADER <= s.cursor < |s.mem|
  {
    ReachableInv(c, s);
    FitsInBuffer(c, s);
  }

  /** So with that reserve the condition on a state always holds. */
  lemma AlwaysInBuffer(c: Config, s: State)
    requires Reachable(c, s) && Fits(c)
    ensures InBuffer(c, s)
  {
    ReachableInv(c, s);
    FitsInBuffer(c, s);
  }

  /** How many calls are past the flag check and not in the log yet. */
  function InFlight(s: State): nat {
    Budget(s.threads, 1) + (if IsWriting(s) then 1 else 0)
  }

  lemma InFlightStep(c: Config, s: State, e: Event)
    requires Locking(c, s) && Enabled(c, s, e) && !s.inited && !e.Rewind?
    ensures !Next(c, s, e).inited
    ensures |Next(c, s, e).log| + InFlight(Next(c, s, e)) == |s.log| + InFlight(s)
  {
    if !e.Enter? {
      var s' := Next(c, s, e);
      assert e.tid < |s.threads| && s'.threads == s.threads[e.tid := s'.threads[e.tid]];
      BudgetUpdate(s.threads, e.tid, s'.threads[e.tid], 1);
    }
  }

  /** Once the flag is down, only calls already past the check are still appended. */
  lemma {:induction false} LateAppends(c: Config, s: State, events: seq<Event>)
    requires Sane(c) && Locking(c, s) && !s.inited && IsRun(c, s, events)
    requires forall i :: 0 <= i < |events| ==> !events[i].Rewind?
    ensures Locking(c, After(c, s, events)) && !After(c, s, events).inited
    ensures |After(c, s, events).log| + InFlight(After(c, s, events)) == |s.log| + InFlight(s)
    decreases |events|
  {
    if events != [] {
      var before := events[..|events| - 1];
      LateAppends(c, s, before);
      LockingStep(c, After(c, s, before), events[|events| - 1]);
      InFlightStep(c, After(c, s, before), events[|events| - 1]);
    }
  }

  /**
   From the step that finds the buffer full on, at most one record for each other thread is
   still appended, however long the run goes on.
   */
  lemma LateAppendsPerThread(c: Config, s: State, t: nat, events: seq<Event>)
    requires Reachable(c, s) && s.lock == Held(t, Settled) && !s.inited && IsRun(c, s, events)
    requires forall i :: 0 <= i < |events| ==> !events[i].Rewind?
    ensures |After(c, s, events).log| <= |s.log| + c.threads - 1
  {
    ReachableInv(c, s);
    LateAppends(c, s, events);
    BudgetSpare(s.threads, t, 1);
  }

  // ------------------------------------------------------------------ unlocked readers

  /** The record whose marker is stored already, if an append is at that point. */
  function InSight(s: State): seq<Record> {
    if StoredSoFar(s) > 0 && s.lock.tid < |s.threads| then [s.threads[s.lock.tid].rec] else []
  }

  /** Where the record being stored will end. */
  function EndInSight(s: State): int {
    s.cursor - StoredSoFar(s) + if StoredSoFar(s) > 0 && s.lock.tid < |s.threads| then Size(s.threads[s.lock.tid].rec) else 0
  }

  /** The record being stored, if there is one, and its terminator fit the buffer. */
  predicate EndsInBuffer(c: Config, s: State) { InBuffer(c, s) && EndInSight(s) < c.size }

  /**
   A reader that takes no lock, at any moment of a run without wraps or rewinds: the length
   walk ends inside the buffer after the completed records, or those and the one being
   stored, whose length is final from its first dword on.
   */
  lemma UnlockedReader(c: Config, s: State)
    requires Reachable(c, s) && EndsInBuffer(c, s) && s.laps == 0
    ensures Walks(s.mem, HEADER, Sizes(Recs(s.log)) + Sizes(InSight(s)))
  {
    ReachableInv(c, s);
    assert s.log[0..] == s.log;
    if StoredSoFar(s) > 0 {
      WalkWhileStoring(c, s);
    } else {
      WalkBetweenStores(c, s);
      assert s.log[0..0] == [] && Visible(Current(s), Previous(s)) == Recs(s.log);
      assert Sizes(Recs(s.log)) + Sizes(InSight(s)) == Sizes(Recs(s.log));
    }
  }

  lemma WalkWhileStoring(c: Config, s: State)
    requires Sane(c) && EndsInBuffer(c, s) && Inv(c, s) && s.laps == 0 && StoredSoFar(s) > 0
    requires Current(s) == Recs(s.log)
    ensures Walks(s.mem, HEADER, Sizes(Recs(s.log)) + Sizes(InSight(s)))
  {
    var r := s.threads[s.lock.tid].rec;
    WalkBehindMarker(s.mem, s.cursor, Recs(s.log), r, s.lock.stage.stored);
    assert Sizes(InSight(s)) == [Size(r)];
  }

  lemma WalkBetweenStores(c: Config, s: State)
    requires Locking(c, s) && Consistent(c, s) && StoredSoFar(s) == 0
    ensures s.prevBase <= s.base <= |s.log|
    ensures Walks(s.mem, HEADER, Sizes(Visible(Current(s), Previous(s))))
  {
    if s.lock.Held? && s.lock.stage == Closed {
      assert |Current(s)| == |s.log| - s.base > 0;
      ChainWalksAll(s.mem, Current(s), s.cursor);
    } else {
      QuietWalks(ImageOf(s), Current(s), Previous(s));
    }
  }

  lemma QuietWalks(img: Image, current: seq<Record>, previous: seq<Record>)
    requires Quiet(img, current, previous)
    ensures Walks(img.mem, HEADER, Sizes(Visible(current, previous)))
  {
    var rs := Visible(current, previous);
    ChainWalks(img.mem, HEADER, rs, HEADER + |EncodeAll(rs)|);
  }

  lemma ChainWalksAll(mem: seq<Word>, rs: seq<Record>, end: nat)
    requires end == HEADER + |EncodeAll(rs)| < |mem| && mem[HEADER..end] == EncodeAll(rs) && mem[end] == 0
    ensures Walks(mem, HEADER, Sizes(rs))
  {
    TerminatedIsChain(mem, rs, end);
    ChainWalks(mem, HEADER, rs, end);
  }

  /** A record in progress has its marker in place from the first dword on. */
  lemma MarkerInPlace(mem: seq<Word>, cursor: nat, rs: seq<Record>, r: Record, k: nat)
    requires Partial(mem, cursor, rs, r, k) && 0 < k && HEADER <= cursor
    ensures var start := cursor - k;
      && start == HEADER + |EncodeAll(rs)| && mem[HEADER..start] == EncodeAll(rs)
      && LengthOf(mem[start]) == Size(r) && mem[start] != 0
  {
    var stored := EncodeAll(rs) + Encode(r)[..k];
    SliceOfSlice(mem, HEADER, stored, 0, |EncodeAll(rs)|);
    SliceOfSlice(mem, HEADER, stored, |EncodeAll(rs)|, |stored|);
    assert stored[..|EncodeAll(rs)|] == EncodeAll(rs);
    assert stored[|EncodeAll(rs)|] == Encode(r)[0] == MarkerOf(r);
    MarkerFields(Size(r), |r.numbers|, r.id);
  }

  /** One length further is the end if and only if there is a zero. */
  lemma WalkOneMore(mem: seq<Word>, start: nat, size: nat, end: nat)
    requires start + size < |mem| && LengthOf(mem[start]) == size > 0 && mem[start] != 0
    ensures WalksTo(mem, start, [size], end) <==> end == start + size && mem[end] == 0
  {
    assert [size][1..] == [];
    assert WalksTo(mem, start + size, [], end) <==> end == start + size && mem[end] == 0;
  }

  lemma WalkBehindMarker(mem: seq<Word>, cursor: nat, rs: seq<Record>, r: Record, k: nat)
    requires Partial(mem, cursor, rs, r, k) && 0 < k && HEADER <= cursor
    requires cursor - k + Size(r) < |mem|
    ensures Walks(mem, HEADER, Sizes(rs) + [Size(r)]) <==> mem[cursor - k + Size(r)] == 0
  {
    MarkerInPlace(mem, cursor, rs, r, k);
    if mem[cursor - k + Size(r)] == 0 {
      WalkToZero(mem, rs, Size(r));
    }
    if Walks(mem, HEADER, Sizes(rs) + [Size(r)]) {
      ZeroAtEnd(mem, rs, Size(r));
    }
  }

  /** Completed records, and behind them the length of one more. */
  ghost predicate OneMoreLength(mem: seq<Word>, rs: seq<Record>, size: nat) {
    var start := HEADER + |EncodeAll(rs)|;
    && start + size < |mem| && mem[HEADER..start] == EncodeAll(rs)
    && LengthOf(mem[start]) == size && mem[start] != 0
  }

  lemma WalkToZero(mem: seq<Word>, rs: seq<Record>, size: nat)
    requires OneMoreLength(mem, rs, size) && size > 0 && mem[HEADER + |EncodeAll(rs)| + size] == 0
    ensures Walks(mem, HEADER, Sizes(rs) + [size])
  {
    var start := HEADER + |EncodeAll(rs)|;
    WalkOneMore(mem, start, size, start + size);
    WalkStored(mem, HEADER, rs, [size], start + size);
  }

  lemma ZeroAtEnd(mem: seq<Word>, rs: seq<Record>, size: nat)
    requires OneMoreLength(mem, rs, size) && size > 0 && Walks(mem, HEADER, Sizes(rs) + [size])
    ensures mem[HEADER + |EncodeAll(rs)| + size] == 0
  {
    var end: nat :| WalksTo(mem, HEADER, Sizes(rs) + [size], end);
    WalkBehindStored(mem, HEADER, rs, [size], end);
    WalkOneMore(mem, HEADER + |EncodeAll(rs)|, size, end);
  }

  /**
   Also after wraps: between the first store of a record and the one before it, the unlocked
   walk meets exactly the visible generation.
   */
  lemma UnlockedReaderBetween(c: Config, s: State)
    requires Reachable(c, s) && InBuffer(c, s) && StoredSoFar(s) == 0
    ensures s.prevBase <= s.base <= |s.log|
    ensures Walks(s.mem, HEADER, Sizes(Visible(Current(s), Previous(s))))
  {
    ReachableInv(c, s);
    WalkBetweenStores(c, s);
  }

  /**
   Also after wraps: while a record is being stored, the unlocked walk meets the current
   generation and that record, and stops, exactly when the dword behind the record is zero.
   */
  lemma UnlockedReaderExactly(c: Config, s: State)
    requires Reachable(c, s) && EndsInBuffer(c, s) && StoredSoFar(s) > 0
    ensures s.prevBase <= s.base <= |s.log| && 0 <= EndInSight(s) < |s.mem|
    ensures Walks(s.mem, HEADER, Sizes(Current(s)) + Sizes(InSight(s))) <==> s.mem[EndInSight(s)] == 0
  {
    ReachableInv(c, s);
    WalkExactly(c, s);
  }

  lemma WalkExactly(c: Config, s: State)
    requires EndsInBuffer(c, s) && Locking(c, s) && Consistent(c, s) && StoredSoFar(s) > 0
    ensures s.prevBase <= s.base <= |s.log| && 0 <= EndInSight(s) < |s.mem|
    ensures Walks(s.mem, HEADER, Sizes(Current(s)) + Sizes(InSight(s))) <==> s.mem[EndInSight(s)] == 0
  {
    var r := s.threads[s.lock.tid].rec;
    assert Sizes(InSight(s)) == [Size(r)];
    WalkBehindMarker(s.mem, s.cursor, Current(s), r, StoredSoFar(s));
  }

  // ------------------------------------------------------------------ the append as a whole

  function Stores(t: nat, k: nat): seq<Event> { [Acquire(t)] + seq(k, _ => Store(t)) }

  lemma StoresSnoc(t: nat, k: nat)
    ensures Stores(t, k + 1) == Stores(t, k) + [Store(t)]
    ensures Stores(t, 0) == [] + [Acquire(t)]
  {
  }

  /** The state with `k` dwords of thread `t`'s record stored. */
  function MidAppend(s: State, t: nat, k: nat): State
    requires t < |s.threads| && k <= Size(s.threads[t].rec) && s.cursor + k <= |s.mem|
  {
    SetThread(s, t, s.threads[t].(phase := Inside)).(
      mem := Overwrite(s.mem, s.cursor, Encode(s.threads[t].rec)[..k]), cursor := s.cursor + k,
      lock := Held(t, Writing(k)))
  }

  lemma OverwriteOneMore(mem: seq<Word>, p: nat, ws: seq<Word>, k: nat)
    requires k < |ws| && p + k < |mem|
    ensures Overwrite(mem, p, ws[..k])[p + k := ws[k]] == Overwrite(mem, p, ws[..k + 1])
  {
    assert ws[..k + 1] == ws[..k] + [ws[k]];
  }

  lemma OverwriteNothing(mem: seq<Word>, p: nat, ws: seq<Word>)
    requires p <= |mem|
    ensures Overwrite(mem, p, ws[..0]) == mem
  {
    assert ws[..0] == [];
  }

  lemma RunSnoc(c: Config, s: State, events: seq<Event>, e: Event)
    requires IsRun(c, s, events) && Enabled(c, After(c, s, events), e)
    ensures IsRun(c, s, events + [e]) && After(c, s, events + [e]) == Next(c, After(c, s, events), e)
  {
    assert (events + [e])[..|events + [e]| - 1] == events;
  }

  lemma {:induction false} StoringRun(c: Config, s: State, t: nat, k: nat)
    requires Enabled(c, s, Acquire(t)) && k <= Size(s.threads[t].rec) && s.cursor + k <= |s.mem|
    ensures IsRun(c, s, Stores(t, k)) && After(c, s, Stores(t, k)) == MidAppend(s, t, k)
  {
    if k == 0 {
      StoresSnoc(t, 0);
      RunSnoc(c, s, [], Acquire(t));
      StoringStart(c, s, t);
    } else {
      StoringRun(c, s, t, k - 1);
      StoringOnce(c, s, t, k - 1);
    }
  }

  lemma StoringStart(c: Config, s: State, t: nat)
    requires Enabled(c, s, Acquire(t)) && s.cursor <= |s.mem|
    ensures Next(c, s, Acquire(t)) == MidAppend(s, t, 0)
  {
    OverwriteNothing(s.mem, s.cursor, Encode(s.threads[t].rec));
  }

  lemma StoringStep(c: Config, s: State, t: nat, k: nat)
    requires Enabled(c, s, Acquire(t)) && k < Size(s.threads[t].rec) && s.cursor + k < |s.mem|
    ensures Enabled(c, MidAppend(s, t, k), Store(t))
    ensures Next(c, MidAppend(s, t, k), Store(t)) == MidAppend(s, t, k + 1)
  {
    OverwriteOneMore(s.mem, s.cursor, Encode(s.threads[t].rec), k);
  }

  lemma StoringOnce(c: Config, s: State, t: nat, k: nat)
    requires Enabled(c, s, Acquire(t)) && k < Size(s.threads[t].rec) && s.cursor + k < |s.mem|
    requires IsRun(c, s, Stores(t, k)) && After(c, s, Stores(t, k)) == MidAppend(s, t, k)
    ensures IsRun(c, s, Stores(t, k + 1)) && After(c, s, Stores(t, k + 1)) == MidAppend(s, t, k + 1)
  {
    StoringStep(c, s, t, k);
    RunSnoc(c, s, Stores(t, k), Store(t));
    StoresSnoc(t, k);
  }

  function WholeAppend(t: nat, size: nat): seq<Event> {
    Stores(t, size) + [Close(t)] + [SettleUp(t)] + [Release(t)]
  }

  /** One thread's steps under the lock, with no other step between them, are the single caller's append. */
  lemma AppendIsAtomic(c: Config, s: State, t: nat)
    requires Locking(c, s) && RESERVE <= c.size && Enabled(c, s, Acquire(t))
    requires s.cursor + Size(s.threads[t].rec) < c.size
    ensures var r := s.threads[t].rec;
      && IsRun(c, s, WholeAppend(t, Size(r)))
      && var s' := After(c, s, WholeAppend(t, Size(r)));
         && ImageOf(s') == Append(ImageOf(s), r, c.wrap)
         && s'.lock.Free? && s'.clock == s.clock && s'.log == s.log + [Entry(t, r)]
         && s'.threads == s.threads[t := s.threads[t].(phase := Idle)]
  {
    var n := Size(s.threads[t].rec);
    StoringRun(c, s, t, n);
    FinishRun(c, s, Stores(t, n), t);
    FinishImage(c, s, t);
  }

  predicate AllStored(s: State, t: nat) {
    InPhase(s, t, Inside) && s.lock == Held(t, Writing(Size(s.threads[t].rec)))
  }

  /** Terminator, settling and unlocking of thread `t`. */
  function Finish(c: Config, s: State, t: nat): State
    requires AllStored(s, t)
  {
    Next(c, Next(c, Next(c, s, Close(t)), SettleUp(t)), Release(t))
  }

  lemma FinishRun(c: Config, s: State, events: seq<Event>, t: nat)
    requires IsRun(c, s, events) && AllStored(After(c, s, events), t)
    ensures var all := events + [Close(t)] + [SettleUp(t)] + [Release(t)];
      IsRun(c, s, all) && After(c, s, all) == Finish(c, After(c, s, events), t)
  {
    RunSnoc(c, s, events, Close(t));
    RunSnoc(c, s, events + [Close(t)], SettleUp(t));
    RunSnoc(c, s, events + [Close(t)] + [SettleUp(t)], Release(t));
  }

  lemma FinishImage(c: Config, s: State, t: nat)
    requires |s.mem| == c.size && RESERVE <= c.size && Enabled(c, s, Acquire(t))
    requires s.cursor + Size(s.threads[t].rec) < c.size
    ensures var r := s.threads[t].rec;
      var s' := Finish(c, MidAppend(s, t, Size(r)), t);
      && ImageOf(s') == Append(ImageOf(s), r, c.wrap)
      && s'.lock.Free? && s'.clock == s.clock && s'.log == s.log + [Entry(t, r)]
      && s'.threads == s.threads[t := s.threads[t].(phase := Idle)]
  {
    var r := s.threads[t].rec;
    var closed := Next(c, MidAppend(s, t, Size(r)), Close(t));
    OverwriteTerminator(s.mem, s.cursor, Encode(r));
    assert ImageOf(closed) == TraceBuffer.Stored(ImageOf(s), r);
    SettledImageOnly(c, closed);
  }

  lemma OverwriteTerminator(mem: seq<Word>, p: nat, ws: seq<Word>)
    requires p + |ws| < |mem|
    ensures Overwrite(mem, p, ws[..|ws|])[p + |ws| := 0] == Overwrite(mem, p, ws + [0])
  {
    assert ws[..|ws|] == ws;
  }

  lemma SettledImageOnly(c: Config, s: State)
    requires |s.mem| == c.size && RESERVE <= c.size && s.cursor <= c.size
    ensures ImageOf(SettleState(c, s)) == Settle(ImageOf(s), c.wrap)
  {
  }
}
