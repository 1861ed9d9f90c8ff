/**
 What a wrap leaves behind: in every reachable state, whatever the threads do, nothing but zeros
 lies behind both the finished generation and the one being written.
 */
module Sweeping {
  import opened Words
  import opened Records
  import opened TraceBuffer
  import opened SharedLog

  /**
   The step that finds the buffer nearly full, that is less than 1024 bytes from its end: when
   wrapping, every dword from the end of the finished generation on becomes zero and every dword
   before it stays; otherwise memory stays and the flag drops. Short of that nothing changes.
   */
  lemma SettleUpDwords(c: Config, s: State, t: nat)
    requires Sane(c) && |s.mem| == c.size && s.cursor <= c.size && Enabled(c, s, SettleUp(t))
    ensures var s', full := Next(c, s, SettleUp(t)), 4 * s.cursor > 4 * c.size - 1024;
      && (forall a :: 0 <= a < c.size ==> s'.mem[a] == if c.wrap && full && s.cursor <= a then 0 else s.mem[a])
      && s'.cursor == (if c.wrap && full then 6 else s.cursor)
      && s'.inited == (s.inited && (c.wrap || !full))
      && s'.log == s.log && s'.threads == s.threads
  {
  }

  /** A rewind with no call in flight: header, zero marker, the rest untouched, enabled. */
  lemma RewindDwords(c: Config, s: State, header: seq<Word>)
    requires Sane(c) && |s.mem| == c.size && Enabled(c, s, Rewind(header))
    ensures var s' := Next(c, s, Rewind(header));
      && s'.mem[..6] == header && s'.mem[6] == 0 && (forall a :: 6 < a < c.size ==> s'.mem[a] == s.mem[a])
      && s'.cursor == 6 && s'.inited && s'.log == s.log && s'.threads == s.threads && s'.lock.Free?
  {
  }

  /** Where the finished generation ends, if it was closed by a wrap. */
  ghost function PreviousEnd(s: State): nat
    requires s.prevBase <= s.base <= |s.log|
  {
    HEADER + |EncodeAll(Previous(s))|
  }

  /** Behind the cursor and the finished generation there are only zeros. */
  ghost predicate Swept(s: State)
    requires s.prevBase <= s.base <= |s.log|
  {
    s.prevBase < s.base ==> ZeroFrom(s.mem, s.cursor, PreviousEnd(s))
  }

  ghost predicate ZeroFrom(mem: seq<Word>, cursor: nat, end: nat) {
    forall a :: 0 <= a < |mem| && cursor <= a && end <= a ==> mem[a] == 0
  }

  lemma SweptSettle(c: Config, s: State, t: nat)
    requires Sane(c) && Locking(c, s) && Consistent(c, s) && Swept(s) && Enabled(c, s, SettleUp(t)) && s.cursor <= c.size
    requires Locking(c, Next(c, s, SettleUp(t)))
    ensures Swept(Next(c, s, SettleUp(t)))
  {
    SettledImage(c, s);
    SettleUpDwords(c, s, t);
    var s' := Next(c, s, SettleUp(t));
    if c.wrap && s.cursor > c.size - RESERVE {
      assert PreviousEnd(s') == s.cursor;
    } else {
      assert s'.prevBase == s.prevBase && s'.base == s.base;
    }
  }

  lemma SamePrevious(s: State, s': State)
    requires s.prevBase <= s.base <= |s.log| && s'.prevBase == s.prevBase && s'.base == s.base
    requires s.log <= s'.log
    ensures Previous(s') == Previous(s)
  {
    assert s'.log[s.prevBase..s.base] == s.log[s.prevBase..s.base];
  }

  /** As long as no store misses the buffer, every step keeps it swept. */
  lemma SweptStep(c: Config, s: State, e: Event)
    requires Sane(c) && Inv(c, s) && Enabled(c, s, e) && InBuffer(c, Next(c, s, e))
    requires InBuffer(c, s) ==> Swept(s)
    ensures Locking(c, Next(c, s, e)) && Swept(Next(c, s, e))
  {
    LockingStep(c, s, e);
    if !e.Rewind? {
      InBufferBefore(c, s, e);
      if e.SettleUp? {
        SweptSettle(c, s, e.tid);
      } else {
        SamePrevious(s, Next(c, s, e));
      }
    }
  }

  lemma {:induction false} SweptRun(c: Config, header: seq<Word>, events: seq<Event>)
    requires Sane(c) && |header| == HEADER && IsRun(c, Init(c, header), events)
    ensures Inv(c, After(c, Init(c, header), events))
    ensures var s := After(c, Init(c, header), events); InBuffer(c, s) ==> Swept(s)
    decreases |events|
  {
    RunInv(c, header, events);
    if events != [] {
      var before, e := events[..|events| - 1], events[|events| - 1];
      SweptRun(c, header, before);
      var s := After(c, Init(c, header), before);
      if InBuffer(c, Next(c, s, e)) {
        SweptStep(c, s, e);
      }
    }
  }

  /**
   In every reachable state whose stores hit the buffer: once a wrap has closed a generation,
   every dword behind its end that the current generation has not reached is zero.
   */
  lemma NothingStaleBehind(c: Config, s: State, a: nat)
    requires Reachable(c, s) && InBuffer(c, s)
    ensures s.prevBase <= s.base <= |s.log|
    ensures s.prevBase < s.base && HEADER + |EncodeAll(Previous(s))| <= a < |s.mem| && s.cursor <= a ==> s.mem[a] == 0
  {
    var header: seq<Word>, events: seq<Event> :|
      |header| == HEADER && Sane(c) && IsRun(c, Init(c, header), events) && s == After(c, Init(c, header), events);
    SweptRun(c, header, events);
  }
}
