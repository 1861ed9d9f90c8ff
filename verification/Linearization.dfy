/**
 Linearizability of the shared log: however the threads interleave, between appends the buffer
 is what the completed appends make of it when they are done one after the other, in lock order.
 */
module Linearization {
  import opened Words
  import opened Records
  import opened TraceBuffer
  import opened SharedLog

  /** The single caller's appends, one after the other. One that does not fit has no effect here. */
  function AppendAll(img: Image, rs: seq<Record>, wrap: bool): (s: Image)
    ensures |s.mem| == |img.mem|
  {
    if rs == [] then img
    else
      var before, r := AppendAll(img, rs[..|rs| - 1], wrap), rs[|rs| - 1];
      if RoomFor(before, r) then Append(before, r, wrap) else before
  }

  predicate RoomFor(img: Image, r: Record) { RESERVE <= |img.mem| && img.cursor + Size(r) < |img.mem| }

  /** Every append of the sequence finds room. */
  ghost predicate AllFit(img: Image, rs: seq<Record>, wrap: bool)
    decreases |rs|
  {
    rs == [] ||
    (AllFit(img, rs[..|rs| - 1], wrap) && RoomFor(AppendAll(img, rs[..|rs| - 1], wrap), rs[|rs| - 1]))
  }

  lemma AppendAllSnoc(img: Image, rs: seq<Record>, r: Record, wrap: bool)
    ensures AllFit(img, rs + [r], wrap) <==> AllFit(img, rs, wrap) && RoomFor(AppendAll(img, rs, wrap), r)
    ensures RoomFor(AppendAll(img, rs, wrap), r) ==>
      AppendAll(img, rs + [r], wrap) == Append(AppendAll(img, rs, wrap), r, wrap)
  {
    assert (rs + [r])[..|rs|] == rs;
  }

  /** While thread `t` has stored `k` dwords of its record onto the image `b`. */
  ghost predicate Midway(b: Image, s: State, rec: Record, k: nat) {
    && k <= Size(rec) && b.cursor + k <= |b.mem|
    && ImageOf(s) == Image(Overwrite(b.mem, b.cursor, Encode(rec)[..k]), b.cursor + k, b.inited)
  }

  /** The terminator is stored; the record `rec`, last in the log, is not settled yet. */
  ghost predicate Ended(b: Image, s: State, rec: Record) {
    RoomFor(b, rec) && ImageOf(s) == TraceBuffer.Stored(b, rec)
  }

  /** The buffer is what the completed appends and the one in progress make of `start`. */
  ghost predicate Linear(c: Config, start: Image, s: State)
    requires Locking(c, s)
  {
    match s.lock
    case Free => Done(c, start, s)
    case Held(t, Settled) => Done(c, start, s)
    case Held(t, Writing(k)) =>
      AllFit(start, Recs(s.log), c.wrap) && Midway(AppendAll(start, Recs(s.log), c.wrap), s, s.threads[t].rec, k)
    case Held(t, Closed) =>
      var n := |s.log| - 1;
      && AllFit(start, Recs(s.log[..n]), c.wrap)
      && Ended(AppendAll(start, Recs(s.log[..n]), c.wrap), s, s.log[n].rec)
  }

  ghost predicate Done(c: Config, start: Image, s: State) {
    AllFit(start, Recs(s.log), c.wrap) && ImageOf(s) == AppendAll(start, Recs(s.log), c.wrap)
  }

  lemma RecsSnoc(log: seq<Entry>, e: Entry)
    ensures Recs(log + [e]) == Recs(log) + [e.rec]
  {
  }

  lemma MidwayStore(b: Image, s: State, rec: Record, k: nat)
    requires Midway(b, s, rec, k) && k < Size(rec) && s.cursor < |s.mem|
    ensures Midway(b, s.(mem := s.mem[s.cursor := Encode(rec)[k]], cursor := s.cursor + 1), rec, k + 1)
  {
    OverwriteOneMore(b.mem, b.cursor, Encode(rec), k);
  }

  lemma MidwayStart(s: State, rec: Record)
    requires s.cursor <= |s.mem|
    ensures Midway(ImageOf(s), s, rec, 0)
  {
    OverwriteNothing(s.mem, s.cursor, Encode(rec));
  }

  lemma MidwayEnds(b: Image, s: State, rec: Record, s': State)
    requires Midway(b, s, rec, Size(rec)) && s.cursor < |s.mem| && RESERVE <= |s.mem|
    requires s'.mem == s.mem[s.cursor := 0] && s'.cursor == s.cursor && s'.inited == s.inited
    ensures Ended(b, s', rec)
  {
    OverwriteTerminator(b.mem, b.cursor, Encode(rec));
  }

  lemma LinearClose(c: Config, start: Image, s: State, t: nat)
    requires Sane(c) && Locking(c, s) && Linear(c, start, s) && Enabled(c, s, Close(t)) && s.cursor < c.size
    requires Locking(c, Next(c, s, Close(t)))
    ensures Linear(c, start, Next(c, s, Close(t)))
  {
    var s' := Next(c, s, Close(t));
    var rec := s.threads[t].rec;
    assert s'.log[..|s.log|] == s.log && s'.log[|s.log|].rec == rec;
    MidwayEnds(AppendAll(start, Recs(s.log), c.wrap), s, rec, s');
  }

  /** Settling completes the append. */
  lemma SettledAppend(start: Image, rs: seq<Record>, rec: Record, wrap: bool, img: Image)
    requires AllFit(start, rs, wrap) && RoomFor(AppendAll(start, rs, wrap), rec)
    requires img == TraceBuffer.Stored(AppendAll(start, rs, wrap), rec)
    ensures RESERVE <= |img.mem| && img.cursor <= |img.mem|
    ensures AllFit(start, rs + [rec], wrap) && AppendAll(start, rs + [rec], wrap) == Settle(img, wrap)
  {
    AppendAllSnoc(start, rs, rec, wrap);
  }

  /** An ended append, once settled, is the next of the appends done one after the other. */
  lemma EndedSettles(start: Image, log: seq<Entry>, wrap: bool, s: State)
    requires log != []
    requires AllFit(start, Recs(log[..|log| - 1]), wrap)
    requires Ended(AppendAll(start, Recs(log[..|log| - 1]), wrap), s, log[|log| - 1].rec)
    ensures RESERVE <= |s.mem| && s.cursor <= |s.mem|
    ensures AllFit(start, Recs(log), wrap) && AppendAll(start, Recs(log), wrap) == Settle(ImageOf(s), wrap)
  {
    var before, last := log[..|log| - 1], log[|log| - 1];
    SettledAppend(start, Recs(before), last.rec, wrap, ImageOf(s));
    RecsSnoc(before, last);
    assert log == before + [last];
  }

  lemma SettleStep(c: Config, s: State, t: nat)
    requires Sane(c) && |s.mem| == c.size && Enabled(c, s, SettleUp(t)) && s.cursor <= c.size
    ensures var s' := Next(c, s, SettleUp(t));
      ImageOf(s') == Settle(ImageOf(s), c.wrap) && s'.log == s.log && s'.lock == Held(t, Settled)
  {
    SettledImageOnly(c, s);
  }

  lemma LinearSettle(c: Config, start: Image, s: State, t: nat)
    requires Sane(c) && Locking(c, s) && Linear(c, start, s) && Enabled(c, s, SettleUp(t)) && s.cursor <= c.size
    requires Locking(c, Next(c, s, SettleUp(t)))
    ensures Linear(c, start, Next(c, s, SettleUp(t)))
  {
    EndedSettles(start, s.log, c.wrap, s);
    SettleStep(c, s, t);
    SettledDone(c, start, s, Next(c, s, SettleUp(t)));
  }

  lemma SettledDone(c: Config, start: Image, s: State, s': State)
    requires RESERVE <= |s.mem| && s.cursor <= |s.mem|
    requires AllFit(start, Recs(s.log), c.wrap) && AppendAll(start, Recs(s.log), c.wrap) == Settle(ImageOf(s), c.wrap)
    requires ImageOf(s') == Settle(ImageOf(s), c.wrap) && s'.log == s.log
    ensures Done(c, start, s')
  {
  }

  /** Steps of threads that do not hold the lock. */
  lemma LinearOutside(c: Config, start: Image, s: State, e: Event)
    requires Locking(c, s) && Linear(c, start, s) && Enabled(c, s, e) && (e.Enter? || e.ReadClock? || e.Release?)
    requires Locking(c, Next(c, s, e))
    ensures Linear(c, start, Next(c, s, e))
  {
    var s' := Next(c, s, e);
    assert ImageOf(s') == ImageOf(s) && s'.log == s.log;
    assert s.lock.Held? && !e.Release? ==> s'.lock == s.lock && s'.threads[s.lock.tid] == s.threads[s.lock.tid];
  }

  lemma LinearAcquire(c: Config, start: Image, s: State, t: nat)
    requires Locking(c, s) && Linear(c, start, s) && Enabled(c, s, Acquire(t)) && s.cursor <= c.size
    requires Locking(c, Next(c, s, Acquire(t)))
    ensures Linear(c, start, Next(c, s, Acquire(t)))
  {
    MidwayStart(s, s.threads[t].rec);
  }

  lemma LinearStore(c: Config, start: Image, s: State, t: nat)
    requires Locking(c, s) && Linear(c, start, s) && Enabled(c, s, Store(t)) && s.cursor < c.size
    requires Locking(c, Next(c, s, Store(t)))
    ensures Linear(c, start, Next(c, s, Store(t)))
  {
    MidwayStore(AppendAll(start, Recs(s.log), c.wrap), s, s.threads[t].rec, s.lock.stage.stored);
  }

  /** As long as no store misses the buffer, every step but a rewind keeps the log linear. */
  lemma LinearStep(c: Config, start: Image, s: State, e: Event)
    requires Sane(c) && Locking(c, s) && Bounded(c, s) && Linear(c, start, s) && Enabled(c, s, e) && !e.Rewind?
    requires InBuffer(c, s) && InBuffer(c, Next(c, s, e))
    ensures Locking(c, Next(c, s, e)) && Linear(c, start, Next(c, s, e))
  {
    LockingStep(c, s, e);
    InBufferBefore(c, s, e);
    match e
    case Acquire(t) => LinearAcquire(c, start, s, t);
    case Store(t) => LinearStore(c, start, s, t);
    case Close(t) => LinearClose(c, start, s, t);
    case SettleUp(t) => LinearSettle(c, start, s, t);
    case _ => LinearOutside(c, start, s, e);
  }

  ghost predicate NoRewind(events: seq<Event>) {
    forall i :: 0 <= i < |events| ==> !events[i].Rewind?
  }

  /** One more step of a run. */
  lemma LinearOnward(c: Config, start: Image, s: State, e: Event)
    requires Sane(c) && Inv(c, s) && Enabled(c, s, e) && !e.Rewind? && InBuffer(c, Next(c, s, e))
    requires InBuffer(c, s) ==> Linear(c, start, s)
    ensures Locking(c, Next(c, s, e)) && Linear(c, start, Next(c, s, e))
  {
    InBufferBefore(c, s, e);
    LinearStep(c, start, s, e);
  }

  lemma {:induction false} LinearRun(c: Config, header: seq<Word>, events: seq<Event>)
    requires Sane(c) && |header| == HEADER && IsRun(c, Init(c, header), events) && NoRewind(events)
    ensures Inv(c, After(c, Init(c, header), events))
    ensures var s := After(c, Init(c, header), events);
      InBuffer(c, s) ==> Linear(c, ImageOf(Init(c, header)), s)
    decreases |events|
  {
    RunInv(c, header, events);
    if events != [] {
      var before, e := events[..|events| - 1], events[|events| - 1];
      LinearRun(c, header, before);
      var s := After(c, Init(c, header), before);
      if InBuffer(c, Next(c, s, e)) {
        LinearOnward(c, ImageOf(Init(c, header)), s, e);
      }
    }
  }

  /**
   In every run without rewinds whose stores hit the buffer, whenever the lock is free the whole
   buffer, stale dwords, cursor and flag included, is the new buffer after the completed appends,
   done one after the other in lock order; and each of them found room.
   */
  lemma Linearizable(c: Config, header: seq<Word>, events: seq<Event>)
    requires Sane(c) && |header| == HEADER && IsRun(c, Init(c, header), events) && NoRewind(events)
    requires InBuffer(c, After(c, Init(c, header), events)) && After(c, Init(c, header), events).lock.Free?
    ensures var start, s := ImageOf(Init(c, header)), After(c, Init(c, header), events);
      AllFit(start, Recs(s.log), c.wrap) && ImageOf(s) == AppendAll(start, Recs(s.log), c.wrap)
  {
    LinearRun(c, header, events);
  }
}
