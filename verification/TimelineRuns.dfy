/**
 Whole runs of the translator: names are announced once and before use, ids are stable and
 tell kinds apart, and the queue deltas integrate to the last level of every queue.
 */
module TimelineRuns {
  import opened Timelines
  import opened Translator

  function TablesOf(events: seq<Event>, maxTasks: int): (t: Tables)
    ensures Shaped(t)
  {
    if events == [] then EMPTY
    else TablesAfter(TablesOf(events[..|events| - 1], maxTasks), events[|events| - 1], maxTasks)
  }

  function LinesOf(events: seq<Event>, maxTasks: int): seq<Line> {
    if events == [] then []
    else
      var before := events[..|events| - 1];
      LinesOf(before, maxTasks) + Emitted(TablesOf(before, maxTasks), events[|events| - 1], maxTasks)
  }

  /** The line refers to a timeline by number. */
  predicate IsUse(l: Line) {
    l.Sta? || l.Sto? || l.StaBy? || l.StoBy? || l.Occ? || l.Val?
  }

  function CountNam(lines: seq<Line>, kind: nat, id: nat): nat {
    if lines == [] then 0
    else
      var l := lines[|lines| - 1];
      CountNam(lines[..|lines| - 1], kind, id) + (if l.Nam? && l.kind == kind && l.id == id then 1 else 0)
  }

  /** What STA minus STO of a queue timeline adds up to. */
  function NetOf(lines: seq<Line>, id: nat): int {
    if lines == [] then 0
    else
      var l := lines[|lines| - 1];
      NetOf(lines[..|lines| - 1], id) +
      (if l.StaBy? && l.id == id then l.amount else if l.StoBy? && l.id == id then -l.amount else 0)
  }

  /** Every use is preceded by exactly one NAM for its timeline. */
  ghost predicate Announced(lines: seq<Line>)
    decreases |lines|
  {
    lines == [] ||
    var before, l := lines[..|lines| - 1], lines[|lines| - 1];
    Announced(before) && (IsUse(l) ==> CountNam(before, l.kind, l.id) == 1)
  }

  predicate InTable(t: Tables, kind: nat, id: nat)
    requires Shaped(t)
  {
    kind < KINDS && Base(kind) <= id < Base(kind) + |t.names[kind]|
  }

  /** The NAM lines are the tables: one for each name, under its number. */
  ghost predicate Counted(t: Tables, lines: seq<Line>)
    requires Shaped(t)
  {
    && (forall kind: nat, id: nat :: CountNam(lines, kind, id) == if InTable(t, kind, id) then 1 else 0)
    && (forall k :: 0 <= k < |lines| && lines[k].Nam? ==>
          InTable(t, lines[k].kind, lines[k].id) &&
          t.names[lines[k].kind][lines[k].id - Base(lines[k].kind)] == lines[k].name)
  }

  ghost predicate Balanced(t: Tables, lines: seq<Line>)
    requires Shaped(t)
  {
    forall id: nat :: NetOf(lines, id) == if InTable(t, QUEUES, id) then t.prev[id - Base(QUEUES)] else 0
  }

  ghost predicate DistinctNames(t: Tables)
    requires Shaped(t)
  {
    forall kind, i, j :: 0 <= kind < KINDS && 0 <= i < j < |t.names[kind]| ==> t.names[kind][i] != t.names[kind][j]
  }

  ghost predicate Good(t: Tables, lines: seq<Line>) {
    Shaped(t) && Counted(t, lines) && Announced(lines) && Balanced(t, lines) && DistinctNames(t)
  }

  lemma Snoc(lines: seq<Line>, l: Line)
    ensures (lines + [l])[..|lines + [l]| - 1] == lines && (lines + [l])[|lines + [l]| - 1] == l
  {
  }

  lemma PushNam(t: Tables, lines: seq<Line>, tl: Timeline)
    requires Good(t, lines) && tl.kind < KINDS
    ensures Good(Interned(t, tl), lines + NamLines(t, tl))
  {
    if Lookup(t.names[tl.kind], tl.name) >= 0 {
      assert lines + NamLines(t, tl) == lines;
    } else {
      PushNewNam(t, lines, tl);
    }
  }

  lemma PushNewNam(t: Tables, lines: seq<Line>, tl: Timeline)
    requires Good(t, lines) && tl.kind < KINDS && Lookup(t.names[tl.kind], tl.name) == -1
    ensures Good(Interned(t, tl), lines + [Nam(tl.kind, IdOf(t, tl), tl.name)])
  {
    var t', l := Interned(t, tl), Nam(tl.kind, IdOf(t, tl), tl.name);
    Snoc(lines, l);
    NewNamCounted(t, lines, tl);
    assert forall id: nat :: NetOf(lines + [l], id) == NetOf(lines, id);
    NewNameBalanced(t, tl);
    assert DistinctNames(t');
  }

  lemma NewNamCounted(t: Tables, lines: seq<Line>, tl: Timeline)
    requires Shaped(t) && Counted(t, lines) && tl.kind < KINDS && Lookup(t.names[tl.kind], tl.name) == -1
    ensures Counted(Interned(t, tl), lines + [Nam(tl.kind, IdOf(t, tl), tl.name)])
  {
    var t', l := Interned(t, tl), Nam(tl.kind, IdOf(t, tl), tl.name);
    Snoc(lines, l);
    forall kind: nat, id: nat
      ensures CountNam(lines + [l], kind, id) == if InTable(t', kind, id) then 1 else 0
    {
      assert InTable(t', kind, id) <==> InTable(t, kind, id) || (kind == l.kind && id == l.id);
    }
    forall k | 0 <= k < |lines + [l]| && (lines + [l])[k].Nam?
      ensures var m := (lines + [l])[k];
        InTable(t', m.kind, m.id) && t'.names[m.kind][m.id - Base(m.kind)] == m.name
    {
      if k < |lines| {
        assert (lines + [l])[k] == lines[k];
      }
    }
  }

  /** A new queue starts at level 0. */
  lemma NewNameBalanced(t: Tables, tl: Timeline)
    requires Shaped(t) && tl.kind < KINDS && Lookup(t.names[tl.kind], tl.name) == -1
    ensures forall id: nat :: (if InTable(Interned(t, tl), QUEUES, id) then Interned(t, tl).prev[id - Base(QUEUES)] else 0)
                      == (if InTable(t, QUEUES, id) then t.prev[id - Base(QUEUES)] else 0)
  {
  }

  predicate IsSilent(l: Line) { l.Tim? || l.Dsc? || l.Color? }

  lemma {:induction false} PushSilent(t: Tables, lines: seq<Line>, more: seq<Line>)
    requires Good(t, lines) && forall k :: 0 <= k < |more| ==> IsSilent(more[k])
    ensures Good(t, lines + more)
    decreases |more|
  {
    if more == [] {
      assert lines + more == lines;
    } else {
      PushSilentOne(t, lines, more[0]);
      PushSilent(t, lines + [more[0]], more[1..]);
      assert lines + [more[0]] + more[1..] == lines + more;
    }
  }

  lemma PushSilentOne(t: Tables, lines: seq<Line>, l: Line)
    requires Good(t, lines) && IsSilent(l)
    ensures Good(t, lines + [l])
  {
    Snoc(lines, l);
    assert forall kind: nat, id: nat :: CountNam(lines + [l], kind, id) == CountNam(lines, kind, id);
    assert forall id: nat :: NetOf(lines + [l], id) == NetOf(lines, id);
  }

  lemma PushUse(t: Tables, lines: seq<Line>, e: Entry, slot: nat, stamp: nat)
    requires Good(t, lines) && Sound(e) && slot < |t.names[TimelineOf(e).kind]|
    ensures
      var prev := if e.Level? then t.prev[slot] else 0;
      Good(Settled(t, e, slot), lines + [UseLine(e, Base(TimelineOf(e).kind) + slot, stamp, prev)])
  {
    var kind := TimelineOf(e).kind;
    var prev := if e.Level? then t.prev[slot] else 0;
    var l := UseLine(e, Base(kind) + slot, stamp, prev);
    Snoc(lines, l);
    assert IsUse(l) && l.kind == kind && l.id == Base(kind) + slot && !l.Nam?;
    UseCounted(t, lines, l);
    UseBalanced(t, lines, e, slot, stamp, l);
  }

  lemma UseCounted(t: Tables, lines: seq<Line>, l: Line)
    requires Shaped(t) && Counted(t, lines) && !l.Nam?
    ensures Counted(t, lines + [l])
  {
    Snoc(lines, l);
    assert forall k: nat, id: nat :: CountNam(lines + [l], k, id) == CountNam(lines, k, id);
  }

  lemma UseBalanced(t: Tables, lines: seq<Line>, e: Entry, slot: nat, stamp: nat, l: Line)
    requires Shaped(t) && Balanced(t, lines) && Sound(e) && slot < |t.names[TimelineOf(e).kind]|
    requires l == UseLine(e, Base(TimelineOf(e).kind) + slot, stamp, if e.Level? then t.prev[slot] else 0)
    ensures Balanced(Settled(t, e, slot), lines + [l])
  {
    Snoc(lines, l);
    forall id: nat
      ensures NetOf(lines + [l], id) ==
        NetOf(lines, id) + if e.Level? && id == Base(QUEUES) + slot then e.value - t.prev[slot] else 0
    {
    }
  }

  lemma PushItem(t: Tables, lines: seq<Line>, ev: Event, maxTasks: int)
    requires Good(t, lines)
    ensures Good(TablesAfter(t, ev, maxTasks), lines + Emitted(t, ev, maxTasks))
  {
    var e := ev.entry;
    PushEntry(t, lines, e, Before(e, ev.stamp), Behind(e, ev.detail, ev.tag), ev.stamp, maxTasks);
  }

  lemma PushEntry(
    t: Tables, lines: seq<Line>, e: Entry, before: seq<Line>, behind: seq<Line>, stamp: nat, maxTasks: int)
    requires Good(t, lines) && Sound(e)
    requires forall k :: 0 <= k < |before| ==> IsSilent(before[k])
    requires forall k :: 0 <= k < |behind| ==> IsSilent(behind[k])
    ensures Good(TablesFor(t, e, maxTasks), lines + LinesFor(t, e, before, behind, stamp, maxTasks))
  {
    if Ignored(t, e, maxTasks) {
      assert lines + [] == lines;
    } else {
      var tl := TimelineOf(e);
      var nams, use := NamLines(t, tl), UseLine(e, IdOf(t, tl), stamp, PrevOf(t, e));
      PushIntroduction(t, lines, tl, before);
      PushAct(Interned(t, tl), lines + nams + before, e, SlotOf(t, tl), stamp, use, behind);
      LinesInParts(t, e, before, behind, stamp, maxTasks);
      Regroup(lines, nams, before, [use], behind);
      SameGood(Settled(Interned(t, tl), e, SlotOf(t, tl)), lines + nams + before + [use] + behind,
               TablesFor(t, e, maxTasks), lines + LinesFor(t, e, before, behind, stamp, maxTasks));
    }
  }

  lemma SameGood(t: Tables, lines: seq<Line>, t': Tables, lines': seq<Line>)
    requires Good(t, lines) && t == t' && lines == lines'
    ensures Good(t', lines')
  {
  }

  lemma LinesInParts(t: Tables, e: Entry, before: seq<Line>, behind: seq<Line>, stamp: nat, maxTasks: int)
    requires Shaped(t) && Sound(e) && !Ignored(t, e, maxTasks)
    ensures LinesFor(t, e, before, behind, stamp, maxTasks) ==
      NamLines(t, TimelineOf(e)) + before + [UseLine(e, IdOf(t, TimelineOf(e)), stamp, PrevOf(t, e))] + behind
    ensures TablesFor(t, e, maxTasks) == Settled(Interned(t, TimelineOf(e)), e, SlotOf(t, TimelineOf(e)))
  {
  }

  lemma PushIntroduction(t: Tables, lines: seq<Line>, tl: Timeline, before: seq<Line>)
    requires Good(t, lines) && tl.kind < KINDS
    requires forall k :: 0 <= k < |before| ==> IsSilent(before[k])
    ensures Good(Interned(t, tl), lines + NamLines(t, tl) + before)
  {
    PushNam(t, lines, tl);
    PushSilent(Interned(t, tl), lines + NamLines(t, tl), before);
  }

  lemma PushAct(t: Tables, lines: seq<Line>, e: Entry, slot: nat, stamp: nat, use: Line, behind: seq<Line>)
    requires Good(t, lines) && Sound(e) && slot < |t.names[TimelineOf(e).kind]|
    requires forall k :: 0 <= k < |behind| ==> IsSilent(behind[k])
    requires use == UseLine(e, Base(TimelineOf(e).kind) + slot, stamp, if e.Level? then t.prev[slot] else 0)
    ensures Good(Settled(t, e, slot), lines + [use] + behind)
  {
    PushUse(t, lines, e, slot, stamp);
    PushSilent(Settled(t, e, slot), lines + [use], behind);
  }

  lemma Regroup(lines: seq<Line>, a: seq<Line>, b: seq<Line>, c: seq<Line>, d: seq<Line>)
    ensures lines + (a + b + c + d) == lines + a + b + c + d
  {
  }

  lemma {:induction false} RunIsGood(events: seq<Event>, maxTasks: int)
    ensures Good(TablesOf(events, maxTasks), LinesOf(events, maxTasks))
    decreases |events|
  {
    if events != [] {
      var before := events[..|events| - 1];
      RunIsGood(before, maxTasks);
      PushItem(TablesOf(before, maxTasks), LinesOf(before, maxTasks), events[|events| - 1], maxTasks);
    }
  }

  // ------------------------------------------------------------------ what holds of every run

  lemma {:induction false} AnnouncedAt(lines: seq<Line>, k: nat)
    requires Announced(lines) && k < |lines| && IsUse(lines[k])
    ensures CountNam(lines[..k], lines[k].kind, lines[k].id) == 1
    decreases |lines|
  {
    if k < |lines| - 1 {
      AnnouncedAt(lines[..|lines| - 1], k);
      assert lines[..|lines| - 1][..k] == lines[..k];
    }
  }

  /**
   NAM before use: in the output of any run, every line that refers to a timeline comes after
   exactly one NAM for it, and no second one ever follows.
   */
  lemma NamBeforeUse(events: seq<Event>, maxTasks: int, k: nat)
    requires k < |LinesOf(events, maxTasks)| && IsUse(LinesOf(events, maxTasks)[k])
    ensures var lines := LinesOf(events, maxTasks);
      && CountNam(lines[..k], lines[k].kind, lines[k].id) == 1
      && CountNam(lines, lines[k].kind, lines[k].id) == 1
  {
    RunIsGood(events, maxTasks);
    var lines := LinesOf(events, maxTasks);
    AnnouncedAt(lines, k);
    NamStays(lines, k, lines[k].kind, lines[k].id);
  }

  lemma {:induction false} NamStays(lines: seq<Line>, k: nat, kind: nat, id: nat)
    requires k <= |lines|
    ensures CountNam(lines[..k], kind, id) <= CountNam(lines, kind, id)
    decreases |lines|
  {
    if k < |lines| {
      NamStays(lines[..|lines| - 1], k, kind, id);
      assert lines[..|lines| - 1][..k] == lines[..k];
    } else {
      assert lines[..k] == lines;
    }
  }

  /** Every NAM gives the name its number has in the tables for good, and names are distinct. */
  lemma NamesAreTheTables(events: seq<Event>, maxTasks: int, k: nat)
    requires k < |LinesOf(events, maxTasks)| && LinesOf(events, maxTasks)[k].Nam?
    ensures NamesSlot(TablesOf(events, maxTasks), LinesOf(events, maxTasks)[k])
    ensures DistinctNames(TablesOf(events, maxTasks))
  {
    RunIsGood(events, maxTasks);
    GoodNam(TablesOf(events, maxTasks), LinesOf(events, maxTasks), k);
  }

  /** The NAM line names an existing slot of the tables. */
  predicate NamesSlot(t: Tables, l: Line)
    requires Shaped(t) && l.Nam?
  {
    InTable(t, l.kind, l.id) && t.names[l.kind][l.id - Base(l.kind)] == l.name
  }

  lemma GoodNam(t: Tables, lines: seq<Line>, k: nat)
    requires Good(t, lines) && k < |lines| && lines[k].Nam?
    ensures NamesSlot(t, lines[k]) && DistinctNames(t)
  {
  }

  lemma EntryGrows(t: Tables, e: Entry, maxTasks: int, kind: nat)
    requires Shaped(t) && Sound(e) && kind < KINDS
    ensures t.names[kind] <= TablesFor(t, e, maxTasks).names[kind]
  {
  }

  lemma RunGrows(events: seq<Event>, ev: Event, maxTasks: int, kind: nat)
    requires kind < KINDS
    ensures TablesOf(events, maxTasks).names[kind] <= TablesOf(events + [ev], maxTasks).names[kind]
  {
    var all := events + [ev];
    assert all[..|all| - 1] == events && all[|all| - 1] == ev;
    EntryGrows(TablesOf(events, maxTasks), ev.entry, maxTasks, kind);
  }

  /** Tables only grow at their ends: an id, once given, keeps its name. */
  lemma {:induction false} IdsAreStable(events: seq<Event>, more: seq<Event>, maxTasks: int, kind: nat)
    requires kind < KINDS
    ensures TablesOf(events, maxTasks).names[kind] <= TablesOf(events + more, maxTasks).names[kind]
    decreases |more|
  {
    if more == [] {
      assert events + more == events;
    } else {
      var n := |more| - 1;
      IdsAreStable(events, more[..n], maxTasks, kind);
      assert events + more == (events + more[..n]) + [more[n]];
      RunGrows(events + more[..n], more[n], maxTasks, kind);
    }
  }

  /** No more entries in any table than its array has room for. */
  predicate WithinLimits(t: Tables)
    requires Shaped(t)
  {
    forall kind :: 0 <= kind < KINDS ==> |t.names[kind]| <= Limit(kind)
  }

  /** Within the limits an id belongs to one kind. */
  lemma IdsTellKindsApart(t: Tables, kind: nat, kind': nat, id: nat)
    requires Shaped(t) && WithinLimits(t) && InTable(t, kind, id) && InTable(t, kind', id)
    ensures kind == kind'
  {
  }

  /** A line that names or uses a timeline is about one that is in the tables. */
  lemma LineInTable(t: Tables, lines: seq<Line>, k: nat)
    requires Good(t, lines) && k < |lines|
    ensures lines[k].Nam? || IsUse(lines[k]) ==> InTable(t, lines[k].kind, lines[k].id)
  {
    if lines[k].Nam? {
      GoodNam(t, lines, k);
    } else if IsUse(lines[k]) {
      AnnouncedAt(lines, k);
      NamStays(lines, k, lines[k].kind, lines[k].id);
    }
  }

  /** In the output of a run within the limits, lines with the same id are of the same kind. */
  lemma LinesTellKindsApart(events: seq<Event>, maxTasks: int, k: nat, k': nat)
    requires WithinLimits(TablesOf(events, maxTasks))
    requires k < |LinesOf(events, maxTasks)| && k' < |LinesOf(events, maxTasks)|
    ensures var l, l' := LinesOf(events, maxTasks)[k], LinesOf(events, maxTasks)[k'];
      (l.Nam? || IsUse(l)) && (l'.Nam? || IsUse(l')) && l.id == l'.id ==> l.kind == l'.kind
  {
    var t, lines := TablesOf(events, maxTasks), LinesOf(events, maxTasks);
    RunIsGood(events, maxTasks);
    LineInTable(t, lines, k);
    LineInTable(t, lines, k');
    if (lines[k].Nam? || IsUse(lines[k])) && (lines[k'].Nam? || IsUse(lines[k'])) && lines[k].id == lines[k'].id {
      IdsTellKindsApart(t, lines[k].kind, lines[k'].kind, lines[k].id);
    }
  }

  /** A task beyond the limit emits nothing and leaves the tables alone. */
  lemma OverLimitIsSilent(t: Tables, ev: Event, maxTasks: int)
    requires Shaped(t)
    ensures var tl := TimelineOf(ev.entry);
      Emitted(t, ev, maxTasks) == [] <==>
        tl.kind == TASKS && tl.name !in t.names[TASKS] && |t.names[TASKS]| >= maxTasks
    ensures Emitted(t, ev, maxTasks) == [] ==> TablesAfter(t, ev, maxTasks) == t
  {
    var e := ev.entry;
    if !Ignored(t, e, maxTasks) {
      LinesInParts(t, e, Before(e, ev.stamp), Behind(e, ev.detail, ev.tag), ev.stamp, maxTasks);
    }
  }

  lemma {:induction false} TasksWithinLimit(events: seq<Event>, maxTasks: nat)
    ensures |TablesOf(events, maxTasks).names[TASKS]| <= maxTasks
    decreases |events|
  {
    if events != [] {
      TasksWithinLimit(events[..|events| - 1], maxTasks);
    }
  }

  // ------------------------------------------------------------------ queues

  /** The level last reported for a queue, 0 before the first report. */
  function LastLevel(events: seq<Event>, name: string): int {
    if events == [] then 0
    else
      var e := events[|events| - 1].entry;
      if e.Level? && e.name == name then e.value else LastLevel(events[..|events| - 1], name)
  }

  ghost predicate Follows(t: Tables, events: seq<Event>)
    requires Shaped(t)
  {
    && (forall q :: 0 <= q < |t.prev| ==> t.prev[q] == LastLevel(events, t.names[QUEUES][q]))
    && (forall name :: name !in t.names[QUEUES] ==> LastLevel(events, name) == 0)
  }

  lemma FollowsEntry(t: Tables, events: seq<Event>, ev: Event, maxTasks: int)
    requires Shaped(t) && DistinctNames(t) && Follows(t, events)
    ensures Follows(TablesAfter(t, ev, maxTasks), events + [ev])
  {
    var all := events + [ev];
    assert all[..|all| - 1] == events && all[|all| - 1] == ev;
    var e := ev.entry;
    if e.Level? {
      FollowsLevel(t, events, ev, e);
    } else {
      assert forall name :: LastLevel(all, name) == LastLevel(events, name);
    }
  }

  lemma FollowsLevel(t: Tables, events: seq<Event>, ev: Event, e: Entry)
    requires Shaped(t) && DistinctNames(t) && Follows(t, events) && e.Level? && e == ev.entry
    requires forall name :: LastLevel(events + [ev], name) == if name == e.name then e.value else LastLevel(events, name)
    ensures Follows(Settled(Interned(t, TimelineOf(e)), e, SlotOf(t, TimelineOf(e))), events + [ev])
  {
  }

  lemma NamesDistinct(events: seq<Event>, maxTasks: int)
    ensures DistinctNames(TablesOf(events, maxTasks))
  {
    RunIsGood(events, maxTasks);
  }

  lemma {:induction false} RunFollows(events: seq<Event>, maxTasks: int)
    ensures Follows(TablesOf(events, maxTasks), events)
    decreases |events|
  {
    if events != [] {
      var before, ev := events[..|events| - 1], events[|events| - 1];
      assert before + [ev] == events;
      RunFollows(before, maxTasks);
      NamesDistinct(before, maxTasks);
      FollowsEntry(TablesOf(before, maxTasks), before, ev, maxTasks);
    }
  }

  /**
   Queue fidelity of the translator: at any point of any run, however its entries interleave,
   STA minus STO on a queue's timeline is the level last reported for that queue.
   */
  lemma QueueIntegral(events: seq<Event>, maxTasks: int, q: nat)
    requires q < |TablesOf(events, maxTasks).names[QUEUES]|
    ensures NetOf(LinesOf(events, maxTasks), Base(QUEUES) + q)
         == LastLevel(events, TablesOf(events, maxTasks).names[QUEUES][q])
  {
    RunIsGood(events, maxTasks);
    RunFollows(events, maxTasks);
    assert InTable(TablesOf(events, maxTasks), QUEUES, Base(QUEUES) + q);
  }

  /** The queue is in the tables, and its timeline in the output adds up to `value`. */
  ghost predicate QueueShows(t: Tables, lines: seq<Line>, queue: string, value: int) {
    && Shaped(t) && queue in t.names[QUEUES]
    && NetOf(lines, IdOf(t, Timeline(QUEUES, queue))) == value
  }

  lemma SlotShows(t: Tables, lines: seq<Line>, queue: string, value: int)
    requires Shaped(t) && queue in t.names[QUEUES]
    requires NetOf(lines, Base(QUEUES) + Lookup(t.names[QUEUES], queue)) == value
    ensures QueueShows(t, lines, queue, value)
  {
  }

  lemma QueueShowsLevel(events: seq<Event>, maxTasks: int, queue: string)
    requires queue in TablesOf(events, maxTasks).names[QUEUES]
    ensures QueueShows(TablesOf(events, maxTasks), LinesOf(events, maxTasks), queue, LastLevel(events, queue))
  {
    RunIsGood(events, maxTasks);
    RunFollows(events, maxTasks);
    GoodShows(TablesOf(events, maxTasks), LinesOf(events, maxTasks), events, queue);
  }

  lemma GoodShows(t: Tables, lines: seq<Line>, events: seq<Event>, queue: string)
    requires Good(t, lines) && Follows(t, events) && queue in t.names[QUEUES]
    ensures QueueShows(t, lines, queue, LastLevel(events, queue))
  {
    var q := Lookup(t.names[QUEUES], queue);
    assert InTable(t, QUEUES, Base(QUEUES) + q);
    SlotShows(t, lines, queue, LastLevel(events, queue));
  }

  ghost predicate Forward(lines: seq<Line>) {
    forall k :: 0 <= k < |lines| ==>
      (lines[k].StaBy? ==> lines[k].amount >= 0) && (lines[k].StoBy? ==> lines[k].amount > 0)
  }

  /** Every delta is non-negative. */
  lemma {:induction false} DeltasAreForward(events: seq<Event>, maxTasks: int)
    ensures Forward(LinesOf(events, maxTasks))
    decreases |events|
  {
    if events != [] {
      var before, ev := events[..|events| - 1], events[|events| - 1];
      DeltasAreForward(before, maxTasks);
      EmittedForward(TablesOf(before, maxTasks), ev, maxTasks);
    }
  }

  lemma ForwardConcat(a: seq<Line>, b: seq<Line>)
    requires Forward(a) && Forward(b)
    ensures Forward(a + b)
  {
  }

  lemma EmittedForward(t: Tables, ev: Event, maxTasks: int)
    requires Shaped(t)
    ensures Forward(Emitted(t, ev, maxTasks))
  {
    var e := ev.entry;
    FrameForward(e, ev.stamp, ev.detail, ev.tag);
    LinesForward(t, e, Before(e, ev.stamp), Behind(e, ev.detail, ev.tag), ev.stamp, maxTasks);
  }

  lemma FrameForward(e: Entry, stamp: nat, detail: string, tag: char)
    ensures Forward(Before(e, stamp)) && Forward(Behind(e, detail, tag))
  {
  }

  lemma LinesForward(
    t: Tables, e: Entry, before: seq<Line>, behind: seq<Line>, stamp: nat, maxTasks: int)
    requires Shaped(t) && Sound(e) && Forward(before) && Forward(behind)
    ensures Forward(LinesFor(t, e, before, behind, stamp, maxTasks))
  {
    if !Ignored(t, e, maxTasks) {
      var nams, use := NamLines(t, TimelineOf(e)), UseLine(e, IdOf(t, TimelineOf(e)), stamp, PrevOf(t, e));
      LinesInParts(t, e, before, behind, stamp, maxTasks);
      ForwardConcat(nams, before);
      UseForward(e, IdOf(t, TimelineOf(e)), stamp, PrevOf(t, e));
      ForwardConcat(nams + before, [use]);
      ForwardConcat(nams + before + [use], behind);
    }
  }

  lemma UseForward(e: Entry, id: nat, stamp: nat, prev: int)
    ensures Forward([UseLine(e, id, stamp, prev)])
  {
  }

  // ------------------------------------------------------------------ names without spaces

  ghost predicate SpaceFree(t: Tables)
    requires Shaped(t)
  {
    forall kind, i :: 0 <= kind < KINDS && 0 <= i < |t.names[kind]| ==> ' ' !in t.names[kind][i]
  }

  type Entered = i: Item | WellFormed(i) witness Item(false, "", 0, 0)

  function EventsOf(items: seq<Entered>): (events: seq<Event>)
    ensures |events| == |items|
  {
    if items == [] then [] else EventsOf(items[..|items| - 1]) + [EventOf(items[|items| - 1])]
  }

  /** The first token of a name~value, name#value or name^value line has one separator only. */
  predicate OneSeparator(item: Entered) { SingleIn(ItemEntry(item), Token(item.line)) }

  predicate SingleIn(e: Entry, token: string) {
    && (e.Level? ==> IndexOf(token, '~') == LastIndexOf(token, '~'))
    && (e.Value? ==> IndexOf(token, '#') == LastIndexOf(token, '#'))
    && (e.Cycle? ==> IndexOf(token, '^') == LastIndexOf(token, '^'))
  }

  lemma EntryNameSpaceFree(item: Entered)
    ensures ' ' !in TimelineOf(ItemEntry(item)).name <==> OneSeparator(item)
  {
    if item.marked {
      MarkedNameSpaceFree(item.line);
    } else {
      PlainNameSpaceFree(item.line);
    }
  }

  lemma MarkedNameSpaceFree(line: string)
    requires |line| >= 3
    ensures ' ' !in TimelineOf(MarkedEntry(line)).name && SingleIn(MarkedEntry(line), Token(line))
  {
    var e := MarkedEntry(line);
    assert (e.Span? || e.Point?) && e.key == Token(MarkedRest(line));
  }

  /** What is split off from a line is split off from it as it came. */
  lemma SplitAsItCame(line: string)
    ensures var line1 := Tried(line, '~');
      var line2 := Tried(line1, '#');
      && (SplitAt(line1, '#').Split? ==> line1 == line)
      && (SplitAt(line2, '^').Split? ==> line2 == line)
  {
    var line1 := Tried(line, '~');
    SplitsUntouched(line, '~', '#');
    SplitsUntouched(line1, '#', '^');
    SplitsUntouched(line, '~', '^');
  }

  lemma PlainNameSpaceFree(line: string)
    ensures ' ' !in TimelineOf(PlainEntry(line)).name <==> SingleIn(PlainEntry(line), Token(line))
  {
    var e := PlainEntry(line);
    SplitAsItCame(line);
    match e
    case Level(name, _) =>
      assert SplitAt(line, '~').Split? && name == SplitAt(line, '~').name;
      SplitNameSpaceFree(line, '~');
    case Value(name, _) =>
      assert SplitAt(line, '#').Split? && name == SplitAt(line, '#').name;
      SplitNameSpaceFree(line, '#');
    case Cycle(name, _) =>
      assert SplitAt(line, '^').Split? && name == SplitAt(line, '^').name;
      SplitNameSpaceFree(line, '^');
    case Point(_, key) => assert ' ' !in key;
    case Span(_, _, _) =>
  }

  lemma InternedSpaceFree(t: Tables, tl: Timeline)
    requires Shaped(t) && tl.kind < KINDS
    ensures SpaceFree(Interned(t, tl)) <==> SpaceFree(t) && ' ' !in tl.name
  {
    var t' := Interned(t, tl);
    assert t'.names[tl.kind][SlotOf(t, tl)] == tl.name;
    forall kind, i | 0 <= kind < KINDS && 0 <= i < |t.names[kind]|
      ensures t'.names[kind][i] == t.names[kind][i]
    {
    }
  }

  lemma SpaceFreeStep(t: Tables, e: Entry, maxTasks: int)
    requires Shaped(t) && Sound(e)
    ensures SpaceFree(TablesFor(t, e, maxTasks)) <==> SpaceFree(t) && (Ignored(t, e, maxTasks) || ' ' !in TimelineOf(e).name)
  {
    var tl := TimelineOf(e);
    if !Ignored(t, e, maxTasks) {
      InternedSpaceFree(t, tl);
      assert Settled(Interned(t, tl), e, SlotOf(t, tl)).names == Interned(t, tl).names;
    }
  }

  /** Tasks, which may be ignored, never have a space in their names. */
  lemma IgnoredSpaceFree(t: Tables, item: Entered, maxTasks: int)
    requires Shaped(t)
    ensures Ignored(t, ItemEntry(item), maxTasks) ==> OneSeparator(item)
  {
  }

  ghost predicate AllOneSeparator(items: seq<Entered>)
    decreases |items|
  {
    items == [] || (AllOneSeparator(items[..|items| - 1]) && OneSeparator(items[|items| - 1]))
  }

  lemma SpaceFreeSnoc(before: seq<Event>, ev: Event, events: seq<Event>, maxTasks: int)
    requires events == before + [ev]
    ensures SpaceFree(TablesOf(events, maxTasks)) <==>
      SpaceFree(TablesOf(before, maxTasks)) &&
      (Ignored(TablesOf(before, maxTasks), ev.entry, maxTasks) || ' ' !in TimelineOf(ev.entry).name)
  {
    assert events[..|events| - 1] == before;
    SpaceFreeStep(TablesOf(before, maxTasks), ev.entry, maxTasks);
  }

  /** All names are free of spaces exactly when no line of the run has a second separator. */
  lemma {:induction false} NamesSpaceFree(items: seq<Entered>, maxTasks: int)
    ensures SpaceFree(TablesOf(EventsOf(items), maxTasks)) <==> AllOneSeparator(items)
    decreases |items|
  {
    if items != [] {
      var before, item := items[..|items| - 1], items[|items| - 1];
      var ev := EventOf(item);
      NamesSpaceFree(before, maxTasks);
      SpaceFreeSnoc(EventsOf(before), ev, EventsOf(items), maxTasks);
      IgnoredSpaceFree(TablesOf(EventsOf(before), maxTasks), item, maxTasks);
      EntryNameSpaceFree(item);
    }
  }
}
