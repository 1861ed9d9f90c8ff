/**
 How far the guarantees of the shared log reach: runs that show a buffer unsorted by time, an
 unlocked reader led astray after a wrap, and a store that misses the buffer.
 */
module LogLimits {
  import opened Words
  import opened Records
  import opened TraceBuffer
  import opened SharedLog

  // ------------------------------------------------------------------ building runs

  lemma ReachableStep(c: Config, s: State, e: Event)
    requires Reachable(c, s) && Enabled(c, s, e)
    ensures Reachable(c, Next(c, s, e))
  {
    var header: seq<Word>, events: seq<Event> :|
      |header| == HEADER && Sane(c) && IsRun(c, Init(c, header), events) && s == After(c, Init(c, header), events);
    RunSnoc(c, Init(c, header), events, e);
  }

  lemma ReachableInit(c: Config, header: seq<Word>)
    requires Sane(c) && |header| == HEADER
    ensures Reachable(c, Init(c, header))
  {
    assert IsRun(c, Init(c, header), []) && After(c, Init(c, header), []) == Init(c, header);
  }

  lemma {:induction false} ReachableRun(c: Config, s: State, events: seq<Event>)
    requires Reachable(c, s) && IsRun(c, s, events)
    ensures Reachable(c, After(c, s, events))
    decreases |events|
  {
    if events != [] {
      ReachableRun(c, s, events[..|events| - 1]);
      ReachableStep(c, After(c, s, events[..|events| - 1]), events[|events| - 1]);
    }
  }

  lemma Do(c: Config, s: State, e: Event) returns (s': State)
    requires Reachable(c, s) && Enabled(c, s, e)
    ensures s' == Next(c, s, e) && Reachable(c, s')
  {
    ReachableStep(c, s, e);
    s' := Next(c, s, e);
  }

  /** Nobody holds the lock of an enabled buffer, and time has not started. */
  ghost predicate Resting(c: Config, s: State) {
    Reachable(c, s) && s.lock.Free? && s.inited && s.clock == 0 && |s.threads| == c.threads
  }

  lemma RestingInit(c: Config) returns (s: State)
    requires Sane(c)
    ensures s == Init(c, ZeroWords(HEADER)) && Resting(c, s)
  {
    ReachableInit(c, ZeroWords(HEADER));
    s := Init(c, ZeroWords(HEADER));
  }

  /** Thread `t` calls with the message `r` and reads the clock. */
  lemma Call(c: Config, s: State, t: nat, r: Record) returns (s': State)
    requires Resting(c, s) && InPhase(s, t, Idle) && Unstamped(r) && Size(r) <= c.maxSize
    ensures Resting(c, s') && ImageOf(s') == ImageOf(s) && s'.log == s.log
    ensures s'.threads == s.threads[t := s'.threads[t]]
    ensures InPhase(s', t, Stamped) && s'.threads[t].rec == r
  {
    s' := Do(c, s, Enter(t, r));
    s' := Do(c, s', ReadClock(t, 0, 0));
  }

  /** Thread `t`, which has read the clock, appends without being interrupted. */
  lemma AppendNow(c: Config, s: State, t: nat) returns (s': State)
    requires Reachable(c, s) && Enabled(c, s, Acquire(t)) && s.cursor + Size(s.threads[t].rec) < c.size
    ensures Reachable(c, s') && |s.mem| == c.size && RESERVE <= c.size && s'.lock.Free? && s'.clock == s.clock
    ensures ImageOf(s') == Append(ImageOf(s), s.threads[t].rec, c.wrap)
    ensures s'.log == s.log + [Entry(t, s.threads[t].rec)]
    ensures s'.threads == s.threads[t := s.threads[t].(phase := Idle)]
  {
    ReachableInv(c, s);
    AppendIsAtomic(c, s, t);
    var events := WholeAppend(t, Size(s.threads[t].rec));
    ReachableRun(c, s, events);
    s' := After(c, s, events);
  }

  /** One whole call of thread `t`, during which the buffer stays enabled. */
  lemma Trace(c: Config, s: State, t: nat, r: Record) returns (s': State)
    requires Resting(c, s) && InPhase(s, t, Idle) && Unstamped(r) && Size(r) <= c.maxSize
    requires s.cursor + Size(r) < c.size
    requires c.wrap || s.cursor + Size(r) <= c.size - RESERVE
    ensures |s.mem| == c.size && RESERVE <= c.size
    ensures Resting(c, s') && ImageOf(s') == Append(ImageOf(s), r, c.wrap)
    ensures InPhase(s', t, Idle) && s'.threads == s.threads[t := s'.threads[t]]
  {
    s' := Call(c, s, t, r);
    s' := AppendNow(c, s', t);
  }

  // ------------------------------------------------------------------ sorted by time

  ghost predicate SortedLog(s: State) {
    forall i, j :: 0 <= i < j < |s.log| ==> StampOf(s.log[i].rec) <= StampOf(s.log[j].rec)
  }

  lemma RecsSnoc(log: seq<Entry>, e: Entry)
    ensures Recs(log + [e]) == Recs(log) + [e.rec]
  {
  }

  lemma {:induction false} OwnOfOneThread(log: seq<Entry>)
    requires forall i :: 0 <= i < |log| ==> log[i].tid == 0
    ensures Own(log, 0) == Recs(log)
  {
    if log != [] {
      var before, last := log[..|log| - 1], log[|log| - 1];
      OwnOfOneThread(before);
      RecsSnoc(before, last);
      OwnSnoc(before, last, 0);
      assert log == before + [last];
    }
  }

  lemma OneThreadSorts(c: Config, s: State)
    requires Reachable(c, s) && c.threads == 1
    ensures SortedLog(s)
  {
    ReachableInv(c, s);
    OwnOfOneThread(s.log);
    assert ThreadOrder(s, 0);
    forall i, j | 0 <= i < j < |s.log|
      ensures StampOf(s.log[i].rec) <= StampOf(s.log[j].rec)
    {
      assert Recs(s.log)[i] == s.log[i].rec && Recs(s.log)[j] == s.log[j].rec;
    }
  }

  lemma SizeOfNothing(sec: Word, nsec: Word)
    ensures Size(WithClock(NOTHING, sec, nsec)) == 3
  {
    assert Padded("") == "";
  }

  /** Two threads that read the clock one after the other, both still waiting for the lock. */
  lemma BothStamped(c: Config) returns (s: State)
    requires Sane(c) && c.threads >= 2
    ensures Reachable(c, s) && s.lock.Free? && s.log == [] && s.cursor == HEADER
    ensures |s.threads| == c.threads
    ensures s.threads[0].phase == s.threads[1].phase == Stamped
    ensures s.threads[0].rec == NOTHING && s.threads[1].rec == WithClock(NOTHING, 0, 1)
  {
    SizeOfNothing(0, 0);
    s := RestingInit(c);
    s := Call(c, s, 0, NOTHING);
    s := Do(c, s, Enter(1, NOTHING));
    s := Do(c, s, ReadClock(1, 0, 1));
  }

  /** Reading the clock comes before taking the lock, so a second thread can overtake the first. */
  lemma Overtaking(c: Config) returns (s: State)
    requires Sane(c) && c.threads >= 2
    ensures Reachable(c, s) && !SortedLog(s)
  {
    SizeOfNothing(0, 0);
    SizeOfNothing(0, 1);
    var s0 := BothStamped(c);
    var s1 := AppendNow(c, s0, 1);
    assert s1.threads[0] == s0.threads[0];
    assert s1.cursor <= HEADER + 3;
    s := AppendNow(c, s1, 0);
    NotSorted(s, s0.threads[1].rec, s0.threads[0].rec);
  }

  lemma NotSorted(s: State, late: Record, early: Record)
    requires |s.log| == 2 && s.log[0].rec == late && s.log[1].rec == early
    requires late == WithClock(NOTHING, 0, 1) && early == NOTHING
    ensures !SortedLog(s)
  {
    assert StampOf(s.log[0].rec) > StampOf(s.log[1].rec);
  }

  /**
   A buffer's timestamps are sorted in every reachable state exactly when only one thread
   writes to it.
   */
  lemma SortedIffOneThread(c: Config)
    requires Sane(c)
    ensures (forall s :: Reachable(c, s) ==> SortedLog(s)) <==> c.threads == 1
  {
    if c.threads == 1 {
      forall s | Reachable(c, s)
        ensures SortedLog(s)
      {
        OneThreadSorts(c, s);
      }
    } else {
      var s := Overtaking(c);
    }
  }

  // ------------------------------------------------------------------ unlocked readers after a wrap

  lemma SizeOfFourBytes(r: Record)
    requires r.numbers == [] && r.text == "abcd"
    ensures Size(r) == 4 && Encode(r)[3] != 0
  {
    assert Padded("abcd") == "abcd";
    assert "abcd"[4..] == "";
    assert DwordsOf("abcd") == [Dword('a', 'b', 'c', 'd')] + DwordsOf("abcd"[4..]);
    assert Encode(r) == [MarkerOf(r), r.sec, r.nsec] + [] + DwordsOf(Padded("abcd"));
  }

  /** The cursor is at the first record, or behind one that has text where a shorter one ends. */
  predicate Stained(img: Image) {
    && HEADER + 4 < |img.mem|
    && (img.cursor == HEADER || (HEADER + 4 <= img.cursor && img.mem[HEADER + 3] != 0))
  }

  lemma FourStains(img: Image, four: Record, wrap: bool)
    requires HEADER + RESERVE <= |img.mem| && img.cursor <= |img.mem| - RESERVE
    requires four.numbers == [] && four.text == "abcd" && Stained(img) && Size(four) == 4
    ensures var img' := Append(img, four, wrap);
      && img'.mem[HEADER + 3] != 0
      && img'.cursor == if Wraps(img, four, wrap) then HEADER else img.cursor + 4
  {
    SizeOfFourBytes(four);
    var stored := TraceBuffer.Stored(img, four);
    assert stored.mem[HEADER + 3] != 0;
  }

  /** Four-dword records until the buffer wraps. */
  lemma WrapAround(c: Config, s: State, four: Record) returns (s': State)
    requires Resting(c, s) && c.wrap && Fits(c) && c.maxSize >= 4 && InPhase(s, 0, Idle)
    requires four == RawRecord(0, 0, 0, [], "abcd") && Stained(ImageOf(s))
    ensures Resting(c, s') && InPhase(s', 0, Idle) && s'.cursor == HEADER && |s'.mem| == c.size
    ensures HEADER + 3 < c.size && s'.mem[HEADER + 3] != 0
    decreases c.size - s.cursor
  {
    ReachableInv(c, s);
    SizeOfFourBytes(four);
    FourStains(ImageOf(s), four, c.wrap);
    s' := Trace(c, s, 0, four);
    if s'.cursor != HEADER {
      s' := WrapAround(c, s', four);
    }
  }

  /** The marker of a three-dword record is stored, and the dword behind the record is not zero. */
  predicate StaleBehind(s: State) {
    && s.lock == Held(0, Writing(1)) && |s.threads| > 0 && Size(s.threads[0].rec) == 3
    && s.cursor == HEADER + 1 && HEADER + 3 < |s.mem| && s.mem[HEADER + 3] != 0
  }

  lemma LedAstray(c: Config, s: State)
    requires Reachable(c, s) && (c.wrap ==> c.maxSize + 1 <= RESERVE) && StaleBehind(s)
    ensures EndInSight(s) < c.size && StoredSoFar(s) == 1
    ensures s.prevBase <= s.base <= |s.log|
    ensures !Walks(s.mem, HEADER, Sizes(Current(s)) + Sizes(InSight(s)))
  {
    SizeIsKept(c, s);
    assert StoredSoFar(s) == 1 && EndInSight(s) == HEADER + 3;
    UnlockedReaderExactly(c, s);
  }

  lemma SizeIsKept(c: Config, s: State)
    requires Reachable(c, s)
    ensures |s.mem| == c.size
  {
    ReachableInv(c, s);
  }

  /** The first store of a three-dword record at the start of a stained buffer. */
  lemma StoreMarker(c: Config, s: State) returns (s': State)
    requires Resting(c, s) && InPhase(s, 0, Idle) && c.maxSize >= 3
    requires s.cursor == HEADER && HEADER + 3 < |s.mem| && s.mem[HEADER + 3] != 0
    ensures Reachable(c, s') && StaleBehind(s')
  {
    SizeOfNothing(0, 0);
    s' := Call(c, s, 0, NOTHING);
    s' := Do(c, s', Acquire(0));
    s' := Do(c, s', Store(0));
  }

  lemma StaleWithShortRecords(c: Config) returns (s: State)
    requires Sane(c) && c.wrap && c.maxSize == 4
    ensures Reachable(c, s) && EndInSight(s) < c.size && StoredSoFar(s) == 1
    ensures s.prevBase <= s.base <= |s.log|
    ensures !Walks(s.mem, HEADER, Sizes(Current(s)) + Sizes(InSight(s)))
  {
    s := RestingInit(c);
    s := WrapAround(c, s, RawRecord(0, 0, 0, [], "abcd"));
    s := StoreMarker(c, s);
    LedAstray(c, s);
  }

  /** A run with short records is also one where longer records are allowed. */
  lemma {:induction false} RunWithLonger(c: Config, longer: nat, header: seq<Word>, events: seq<Event>)
    requires Sane(c) && c.maxSize <= longer && |header| == HEADER && IsRun(c, Init(c, header), events)
    ensures var c' := c.(maxSize := longer);
      && Sane(c') && IsRun(c', Init(c', header), events)
      && After(c', Init(c', header), events) == After(c, Init(c, header), events)
    decreases |events|
  {
    var c' := c.(maxSize := longer);
    assert Init(c', header) == Init(c, header);
    if events != [] {
      var before, e := events[..|events| - 1], events[|events| - 1];
      RunWithLonger(c, longer, header, before);
      var s := After(c, Init(c, header), before);
      assert Enabled(c', s, e) && Next(c', s, e) == Next(c, s, e);
    }
  }

  lemma ReachableWithLonger(c: Config, longer: nat, s: State)
    requires Reachable(c, s) && c.maxSize <= longer
    ensures Reachable(c.(maxSize := longer), s)
  {
    var header: seq<Word>, events: seq<Event> :|
      |header| == HEADER && Sane(c) && IsRun(c, Init(c, header), events) && s == After(c, Init(c, header), events);
    RunWithLonger(c, longer, header, events);
  }

  /**
   In every wrapping buffer that takes records of four dwords a run leads to a state in which the
   zero behind the record being stored is missing: once around with four-dword records, then the
   marker of a three-dword one. The walk leaves both generations for stale text.
   */
  lemma StaleAfterWrap(c: Config) returns (s: State)
    requires Sane(c) && c.wrap && c.maxSize >= 4
    ensures Reachable(c, s) && EndInSight(s) < c.size && StoredSoFar(s) == 1
    ensures s.prevBase <= s.base <= |s.log|
    ensures !Walks(s.mem, HEADER, Sizes(Current(s)) + Sizes(InSight(s)))
  {
    var short := c.(maxSize := 4);
    s := StaleWithShortRecords(short);
    ReachableWithLonger(short, c.maxSize, s);
    assert short.(maxSize := c.maxSize) == c;
  }

  // ------------------------------------------------------------------ stores that miss the buffer

  predicate AllIdle(s: State) { forall t :: 0 <= t < |s.threads| ==> s.threads[t].phase == Idle }

  /** The cursor can be brought to the very edge of the reserve with the flag still up. */
  lemma FillUp(c: Config, s: State) returns (s': State)
    requires Resting(c, s) && AllIdle(s) && 5 <= c.maxSize && 1 <= c.threads
    requires s.cursor + RESERVE == c.size || s.cursor + 3 + RESERVE <= c.size
    ensures Resting(c, s') && AllIdle(s') && s'.cursor + RESERVE == c.size
    decreases c.size - s.cursor
  {
    s' := s;
    if s.cursor + RESERVE != c.size {
      var gap := c.size - RESERVE - s.cursor;
      var r := RecordOfSize(if gap <= 5 then gap else 3);
      s' := Trace(c, s, 0, r);
      s' := FillUp(c, s');
    }
  }

  /** The threads from `i` on have read the clock and wait for the lock with the record `r`. */
  predicate Queueing(s: State, i: nat, r: Record) {
    forall t :: i <= t < |s.threads| ==> s.threads[t].phase == Stamped && s.threads[t].rec == r
  }

  /** All threads can pass the flag check before any of them gets the lock. */
  lemma {:induction false} AllCall(c: Config, s: State, i: nat, r: Record) returns (s': State)
    requires Resting(c, s) && i <= c.threads && Unstamped(r) && Size(r) <= c.maxSize && Queueing(s, i, r)
    requires forall t :: 0 <= t < i ==> s.threads[t].phase == Idle
    ensures Resting(c, s') && s'.cursor == s.cursor && Queueing(s', 0, r)
    decreases i
  {
    s' := s;
    if i > 0 {
      s' := Call(c, s, i - 1, r);
      s' := AllCall(c, s', i - 1, r);
    }
  }

  /** An append that does not fit ends up storing behind the end of the buffer. */
  lemma Miss(c: Config, s: State, t: nat) returns (s': State, e: Event)
    requires Reachable(c, s) && Enabled(c, s, Acquire(t)) && s.cursor < c.size
    requires s.cursor + Size(s.threads[t].rec) >= c.size
    ensures Reachable(c, s') && Enabled(c, s', e) && (e.Store? || e.Close?) && s'.cursor >= |s'.mem|
  {
    ReachableInv(c, s);
    var k := c.size - s.cursor;
    StoringRun(c, s, t, k);
    ReachableRun(c, s, Stores(t, k));
    s' := MidAppend(s, t, k);
    e := if k < Size(s.threads[t].rec) then Store(t) else Close(t);
  }

  /** The dwords that `n` waiting threads still store. */
  function Due(n: nat, size: nat): nat { if n == 0 then 0 else size + Due(n - 1, size) }

  lemma {:induction false} DueIsProduct(n: nat, size: nat)
    ensures Due(n, size) == n * size
  {
    if n > 0 {
      DueIsProduct(n - 1, size);
      OneMore(n - 1, size);
    }
  }

  /** The waiting threads from `i` on bring too much, in a wrapping buffer the next one alone. */
  predicate Excess(c: Config, s: State, i: nat) {
    && i <= c.threads
    && c.size <= s.cursor + RESERVE < c.size + RESERVE
    && if c.wrap then i < c.threads && s.cursor + c.maxSize >= c.size
       else s.cursor + Due(c.threads - i, c.maxSize) >= c.size
  }

  /** An append that just fits leaves a non-wrapping buffer alone but for the record. */
  lemma ExcessStep(c: Config, s: State, i: nat, r: Record) returns (s': State)
    requires Reachable(c, s) && s.lock.Free? && |s.threads| == c.threads
    requires Queueing(s, i, r) && Size(r) == c.maxSize && Excess(c, s, i) && s.cursor + Size(r) < c.size
    ensures Reachable(c, s') && s'.lock.Free? && |s'.threads| == c.threads
    ensures Queueing(s', i + 1, r) && Excess(c, s', i + 1)
  {
    s' := AppendNow(c, s, i);
    assert s'.cursor == s.cursor + Size(r);
  }

  /** One waiting thread after the other appends, until a store misses the buffer. */
  lemma {:induction false} Overflow(c: Config, s: State, i: nat, r: Record) returns (s': State, e: Event)
    requires Reachable(c, s) && s.lock.Free? && |s.threads| == c.threads
    requires Queueing(s, i, r) && Size(r) == c.maxSize && Excess(c, s, i)
    ensures Reachable(c, s') && Enabled(c, s', e) && (e.Store? || e.Close?) && s'.cursor >= |s'.mem|
    decreases c.threads - i
  {
    assert i < c.threads;
    if s.cursor + Size(r) >= c.size {
      s', e := Miss(c, s, i);
    } else {
      s' := ExcessStep(c, s, i, r);
      s', e := Overflow(c, s', i + 1, r);
    }
  }

  /** Without that reserve some run misses the buffer. */
  lemma SomeStoreMisses(c: Config) returns (s: State, e: Event)
    requires Sane(c) && 5 <= c.maxSize <= LONGEST && HEADER + 3 + RESERVE <= c.size && !Fits(c)
    ensures Reachable(c, s) && Enabled(c, s, e) && (e.Store? || e.Close?) && s.cursor >= |s.mem|
  {
    s := RestingInit(c);
    s := FillUp(c, s);
    var r := RecordOfSize(c.maxSize);
    s := AllCall(c, s, c.threads, r);
    DueIsProduct(c.threads, c.maxSize);
    s, e := Overflow(c, s, 0, r);
  }

  /** Every store of every run hits the buffer. */
  ghost predicate NeverMisses(c: Config) {
    forall s, e | Reachable(c, s) && Enabled(c, s, e) && (e.Store? || e.Close?) :: s.cursor < |s.mem|
  }

  /**
   The reserve is exactly what it takes: no store misses the buffer if and only if the reserve
   holds one record for each thread (when wrapping, one record) and a terminator.
   */
  lemma StoresInBoundsIffFits(c: Config)
    requires Sane(c) && 5 <= c.maxSize <= LONGEST && HEADER + 3 + RESERVE <= c.size
    ensures NeverMisses(c) <==> Fits(c)
  {
    if Fits(c) {
      forall s, e | Reachable(c, s) && Enabled(c, s, e) && (e.Store? || e.Close?)
        ensures s.cursor < |s.mem|
      {
        StoresInBounds(c, s, e);
      }
    } else {
      var s, e := SomeStoreMisses(c);
    }
  }
}
