/**
 Conservation of events: on every timeline of the output the STA, STO, OCC and VAL lines are
 exactly the entries of that timeline, in order, each with its own kind and timestamp.
 */
module TimelineEvents {
  import opened Timelines
  import opened Translator
  import opened TimelineRuns

  /** The lines that refer to one timeline. */
  function UsesOn(lines: seq<Line>, kind: nat, id: nat): seq<Line> {
    if lines == [] then []
    else
      var before, l := UsesOn(lines[..|lines| - 1], kind, id), lines[|lines| - 1];
      if IsUse(l) && l.kind == kind && l.id == id then before + [l] else before
  }

  /** The entries of one timeline. */
  function EntriesOn(seen: seq<Event>, tl: Timeline): seq<Event> {
    if seen == [] then []
    else
      var before, last := EntriesOn(seen[..|seen| - 1], tl), seen[|seen| - 1];
      if TimelineOf(last.entry) == tl then before + [last] else before
  }

  /** The line says what the entry says: STA for an enter, STO for an exit, OCC for a point. */
  predicate Shows(l: Line, ev: Event) {
    match ev.entry
    case Span(kind, true, _) => l.Sta? && l.kind == kind && l.stamp == ev.stamp
    case Span(kind, false, _) => l.Sto? && l.kind == kind && l.stamp == ev.stamp
    case Point(kind, _) => l.Occ? && l.kind == kind && l.stamp == ev.stamp
    case Level(_, _) => (l.StaBy? || l.StoBy?) && l.kind == QUEUES && l.stamp == ev.stamp
    case Value(_, value) => l.Val? && l.kind == VALUES && l.value == value
    case Cycle(_, value) => l.Val? && l.kind == CYCLES && l.value == value * 10_000_000
  }

  /** One line for each entry, in order. */
  ghost predicate Shown(uses: seq<Line>, seen: seq<Event>)
    decreases |uses|
  {
    if uses == [] || seen == [] then uses == [] && seen == []
    else
      && Shown(uses[..|uses| - 1], seen[..|seen| - 1])
      && Shows(uses[|uses| - 1], seen[|seen| - 1])
  }

  lemma {:induction false} ShownInOrder(uses: seq<Line>, seen: seq<Event>)
    requires Shown(uses, seen)
    ensures |uses| == |seen| && forall i :: 0 <= i < |uses| ==> Shows(uses[i], seen[i])
    decreases |uses|
  {
    if uses != [] {
      ShownInOrder(uses[..|uses| - 1], seen[..|seen| - 1]);
    }
  }

  lemma {:induction false} UsesOnConcat(a: seq<Line>, b: seq<Line>, kind: nat, id: nat)
    ensures UsesOn(a + b, kind, id) == UsesOn(a, kind, id) + UsesOn(b, kind, id)
    decreases |b|
  {
    if b == [] {
      assert a + b == a;
    } else {
      var n := |b| - 1;
      assert (a + b)[..|a + b| - 1] == a + b[..n];
      UsesOnConcat(a, b[..n], kind, id);
    }
  }

  lemma {:induction false} NoUses(lines: seq<Line>, kind: nat, id: nat)
    requires forall k :: 0 <= k < |lines| ==> !IsUse(lines[k])
    ensures UsesOn(lines, kind, id) == []
    decreases |lines|
  {
    if lines != [] {
      NoUses(lines[..|lines| - 1], kind, id);
    }
  }

  /** An entry adds its one line to its timeline and none to any other. */
  lemma UsesOfEntry(
    t: Tables, e: Entry, before: seq<Line>, behind: seq<Line>, stamp: nat, maxTasks: int, kind: nat, id: nat)
    requires Shaped(t) && Sound(e) && !Ignored(t, e, maxTasks)
    requires forall k :: 0 <= k < |before| ==> IsSilent(before[k])
    requires forall k :: 0 <= k < |behind| ==> IsSilent(behind[k])
    ensures UsesOn(LinesFor(t, e, before, behind, stamp, maxTasks), kind, id) ==
      if kind == TimelineOf(e).kind && id == IdOf(t, TimelineOf(e))
      then [UseLine(e, IdOf(t, TimelineOf(e)), stamp, PrevOf(t, e))] else []
  {
    var nams := NamLines(t, TimelineOf(e));
    var use := UseLine(e, IdOf(t, TimelineOf(e)), stamp, PrevOf(t, e));
    LinesInParts(t, e, before, behind, stamp, maxTasks);
    NoUses(nams, kind, id);
    NoUses(before, kind, id);
    NoUses(behind, kind, id);
    UsesOnConcat(nams, before, kind, id);
    UsesOnConcat(nams + before, [use], kind, id);
    UsesOnConcat(nams + before + [use], behind, kind, id);
    UseOnOwn(e, IdOf(t, TimelineOf(e)), stamp, PrevOf(t, e), kind, id);
  }

  lemma UseOnOwn(e: Entry, own: nat, stamp: nat, prev: int, kind: nat, id: nat)
    ensures UsesOn([UseLine(e, own, stamp, prev)], kind, id) ==
      if kind == TimelineOf(e).kind && id == own then [UseLine(e, own, stamp, prev)] else []
  {
    var l := UseLine(e, own, stamp, prev);
    assert [l][..0] == [];
    assert IsUse(l) && l.kind == TimelineOf(e).kind && l.id == own;
  }

  lemma EntriesOnSnoc(seen: seq<Event>, ev: Event, tl: Timeline)
    ensures EntriesOn(seen + [ev], tl) ==
      if TimelineOf(ev.entry) == tl then EntriesOn(seen, tl) + [ev] else EntriesOn(seen, tl)
  {
    assert (seen + [ev])[..|seen|] == seen;
  }

  lemma UseShows(ev: Event, id: nat, prev: int)
    ensures Shows(UseLine(ev.entry, id, ev.stamp, prev), ev)
  {
  }

  lemma AddEvent(uses: seq<Line>, seen: seq<Event>, l: Line, ev: Event)
    requires Shown(uses, seen) && Shows(l, ev)
    ensures Shown(uses + [l], seen + [ev])
  {
    assert (uses + [l])[..|uses|] == uses && (seen + [ev])[..|seen|] == seen;
  }

  // ------------------------------------------------------------------ numbers of timelines

  lemma {:induction false} LookupAppend(names: seq<string>, extra: string, key: string)
    ensures Lookup(names + [extra], key) ==
      if key in names then Lookup(names, key) else if extra == key then |names| else -1
  {
    if names == [] {
      assert [] + [extra] == [extra];
    } else {
      assert (names + [extra])[1..] == names[1..] + [extra];
      LookupAppend(names[1..], extra, key);
    }
  }

  /** A timeline keeps its number when another, or the same, is interned. */
  lemma IdKept(t: Tables, own: Timeline, tl: Timeline)
    requires Shaped(t) && own.kind < KINDS && tl.kind < KINDS
    ensures tl.name in Interned(t, own).names[tl.kind] <==> tl.name in t.names[tl.kind] || own == tl
    ensures tl.name in t.names[tl.kind] || own == tl ==> IdOf(Interned(t, own), tl) == IdOf(t, tl)
    ensures |t.names[TASKS]| <= |Interned(t, own).names[TASKS]|
  {
    LookupAppend(t.names[own.kind], own.name, tl.name);
  }

  /** Two timelines never share a number within a kind. */
  lemma IdsApart(t: Tables, own: Timeline, tl: Timeline)
    requires Shaped(t) && own.kind == tl.kind < KINDS && own != tl && tl.name in t.names[tl.kind]
    ensures IdOf(t, own) != IdOf(t, tl)
  {
  }

  /** A number that is not in the tables is not used. */
  lemma {:induction false} NumberUnused(t: Tables, lines: seq<Line>, n: nat, kind: nat, id: nat)
    requires Good(t, lines) && !InTable(t, kind, id) && n <= |lines|
    ensures UsesOn(lines[..n], kind, id) == []
  {
    if n > 0 {
      NumberUnused(t, lines, n - 1, kind, id);
      LineInTable(t, lines, n - 1);
      assert lines[..n][..n - 1] == lines[..n - 1];
    }
  }

  // ------------------------------------------------------------------ every run

  /** A task that is not in the full table. */
  predicate LeftOut(t: Tables, tl: Timeline, maxTasks: int)
    requires Shaped(t)
  {
    tl.kind == TASKS && |t.names[TASKS]| >= maxTasks
  }

  /** The uses of the timeline are its entries; one without a number has none, or is left out. */
  ghost predicate Kept(t: Tables, lines: seq<Line>, seen: seq<Event>, tl: Timeline, maxTasks: int)
    requires Shaped(t) && tl.kind < KINDS
  {
    if tl.name in t.names[tl.kind] then Shown(UsesOn(lines, tl.kind, IdOf(t, tl)), EntriesOn(seen, tl))
    else EntriesOn(seen, tl) == [] || LeftOut(t, tl, maxTasks)
  }

  /** Before its entry, the uses of the timeline it is on, new or old, are the entries so far. */
  lemma BeforeTheEntry(t: Tables, lines: seq<Line>, seen: seq<Event>, e: Entry, maxTasks: int)
    requires Good(t, lines) && Sound(e) && !Ignored(t, e, maxTasks)
    requires Kept(t, lines, seen, TimelineOf(e), maxTasks)
    ensures Shown(UsesOn(lines, TimelineOf(e).kind, IdOf(t, TimelineOf(e))), EntriesOn(seen, TimelineOf(e)))
  {
    var tl := TimelineOf(e);
    if tl.name !in t.names[tl.kind] {
      NumberUnused(t, lines, |lines|, tl.kind, IdOf(t, tl));
      assert lines[..|lines|] == lines;
    }
  }

  /** The timeline of the entry gets its line and the entry. */
  lemma OwnKept(
    t: Tables, lines: seq<Line>, seen: seq<Event>, ev: Event, before: seq<Line>, behind: seq<Line>, maxTasks: int)
    requires Good(t, lines) && !Ignored(t, ev.entry, maxTasks)
    requires Kept(t, lines, seen, TimelineOf(ev.entry), maxTasks)
    requires forall k :: 0 <= k < |before| ==> IsSilent(before[k])
    requires forall k :: 0 <= k < |behind| ==> IsSilent(behind[k])
    ensures Kept(Interned(t, TimelineOf(ev.entry)), lines + LinesFor(t, ev.entry, before, behind, ev.stamp, maxTasks),
                 seen + [ev], TimelineOf(ev.entry), maxTasks)
  {
    var e, tl := ev.entry, TimelineOf(ev.entry);
    var id := IdOf(t, tl);
    BeforeTheEntry(t, lines, seen, e, maxTasks);
    UsesOfEntry(t, e, before, behind, ev.stamp, maxTasks, tl.kind, id);
    UsesOnConcat(lines, LinesFor(t, e, before, behind, ev.stamp, maxTasks), tl.kind, id);
    EntriesOnSnoc(seen, ev, tl);
    UseShows(ev, id, PrevOf(t, e));
    AddEvent(UsesOn(lines, tl.kind, id), EntriesOn(seen, tl), UseLine(e, id, ev.stamp, PrevOf(t, e)), ev);
    IdKept(t, tl, tl);
  }

  /** Any other timeline gets neither. */
  lemma OtherKept(
    t: Tables, lines: seq<Line>, seen: seq<Event>, ev: Event, before: seq<Line>, behind: seq<Line>, maxTasks: int,
    tl: Timeline)
    requires Shaped(t) && !Ignored(t, ev.entry, maxTasks) && TimelineOf(ev.entry) != tl && tl.kind < KINDS
    requires Kept(t, lines, seen, tl, maxTasks)
    requires forall k :: 0 <= k < |before| ==> IsSilent(before[k])
    requires forall k :: 0 <= k < |behind| ==> IsSilent(behind[k])
    ensures Kept(Interned(t, TimelineOf(ev.entry)), lines + LinesFor(t, ev.entry, before, behind, ev.stamp, maxTasks),
                 seen + [ev], tl, maxTasks)
  {
    var e, own := ev.entry, TimelineOf(ev.entry);
    EntriesOnSnoc(seen, ev, tl);
    IdKept(t, own, tl);
    if tl.name in t.names[tl.kind] {
      if own.kind == tl.kind {
        IdsApart(t, own, tl);
      }
      UsesOfEntry(t, e, before, behind, ev.stamp, maxTasks, tl.kind, IdOf(t, tl));
      UsesOnConcat(lines, LinesFor(t, e, before, behind, ev.stamp, maxTasks), tl.kind, IdOf(t, tl));
      assert UsesOn(lines, tl.kind, IdOf(t, tl)) + [] == UsesOn(lines, tl.kind, IdOf(t, tl));
    }
  }

  /** Only names matter, not the queue levels. */
  lemma SameNames(t: Tables, t': Tables, lines: seq<Line>, seen: seq<Event>, tl: Timeline, maxTasks: int)
    requires Shaped(t) && Shaped(t') && t.names == t'.names && tl.kind < KINDS
    requires Kept(t, lines, seen, tl, maxTasks)
    ensures Kept(t', lines, seen, tl, maxTasks)
  {
  }

  lemma IgnoredKept(t: Tables, lines: seq<Line>, seen: seq<Event>, ev: Event, tl: Timeline, maxTasks: int)
    requires Shaped(t) && Ignored(t, ev.entry, maxTasks) && tl.kind < KINDS && Kept(t, lines, seen, tl, maxTasks)
    ensures Kept(t, lines, seen + [ev], tl, maxTasks)
  {
    EntriesOnSnoc(seen, ev, tl);
  }

  lemma EntryKept(
    t: Tables, lines: seq<Line>, seen: seq<Event>, ev: Event, before: seq<Line>, behind: seq<Line>, maxTasks: int,
    tl: Timeline)
    requires Good(t, lines) && tl.kind < KINDS && Kept(t, lines, seen, tl, maxTasks)
    requires forall k :: 0 <= k < |before| ==> IsSilent(before[k])
    requires forall k :: 0 <= k < |behind| ==> IsSilent(behind[k])
    ensures Kept(TablesFor(t, ev.entry, maxTasks), lines + LinesFor(t, ev.entry, before, behind, ev.stamp, maxTasks),
                 seen + [ev], tl, maxTasks)
  {
    var t', more := TablesFor(t, ev.entry, maxTasks), LinesFor(t, ev.entry, before, behind, ev.stamp, maxTasks);
    if Ignored(t, ev.entry, maxTasks) {
      IgnoredKept(t, lines, seen, ev, tl, maxTasks);
      assert lines + more == lines;
    } else {
      if TimelineOf(ev.entry) == tl {
        OwnKept(t, lines, seen, ev, before, behind, maxTasks);
      } else {
        OtherKept(t, lines, seen, ev, before, behind, maxTasks, tl);
      }
      SameNames(Interned(t, TimelineOf(ev.entry)), t', lines + more, seen + [ev], tl, maxTasks);
    }
  }

  lemma RunSnoc(before: seq<Event>, ev: Event, events: seq<Event>, maxTasks: int, tl: Timeline)
    requires events == before + [ev] && tl.kind < KINDS
    requires Kept(TablesOf(before, maxTasks), LinesOf(before, maxTasks), before, tl, maxTasks)
    ensures Kept(TablesOf(events, maxTasks), LinesOf(events, maxTasks), events, tl, maxTasks)
  {
    var e := ev.entry;
    RunIsGood(before, maxTasks);
    assert events[..|events| - 1] == before;
    EntryKept(TablesOf(before, maxTasks), LinesOf(before, maxTasks), before, ev,
              Before(e, ev.stamp), Behind(e, ev.detail, ev.tag), maxTasks, tl);
  }

  lemma {:induction false} RunKeeps(events: seq<Event>, maxTasks: int, tl: Timeline)
    requires tl.kind < KINDS
    ensures Kept(TablesOf(events, maxTasks), LinesOf(events, maxTasks), events, tl, maxTasks)
    decreases |events|
  {
    if events != [] {
      RunKeeps(events[..|events| - 1], maxTasks, tl);
      RunSnoc(events[..|events| - 1], events[|events| - 1], events, maxTasks, tl);
    }
  }

  /** With distinct names, a name's number is where it is. */
  lemma NumberOfName(t: Tables, kind: nat, i: nat)
    requires Shaped(t) && DistinctNames(t) && kind < KINDS && i < |t.names[kind]|
    ensures IdOf(t, Timeline(kind, t.names[kind][i])) == Base(kind) + i
  {
    var at := Lookup(t.names[kind], t.names[kind][i]);
    assert t.names[kind][at] == t.names[kind][i];
  }

  ghost predicate ShowAll(uses: seq<Line>, entries: seq<Event>) {
    |uses| == |entries| && forall j :: 0 <= j < |uses| ==> Shows(uses[j], entries[j])
  }

  lemma KeptShowsAll(t: Tables, lines: seq<Line>, events: seq<Event>, kind: nat, i: nat, maxTasks: int)
    requires Good(t, lines) && kind < KINDS && i < |t.names[kind]|
    requires Kept(t, lines, events, Timeline(kind, t.names[kind][i]), maxTasks)
    ensures ShowAll(UsesOn(lines, kind, Base(kind) + i), EntriesOn(events, Timeline(kind, t.names[kind][i])))
  {
    NumberOfName(t, kind, i);
    ShownInOrder(UsesOn(lines, kind, Base(kind) + i), EntriesOn(events, Timeline(kind, t.names[kind][i])));
  }

  /**
   For every named timeline of any run, the lines that refer to it are its entries, one each,
   in order, with the right line kind, value and timestamp.
   */
  lemma EventsAreConserved(events: seq<Event>, maxTasks: int, kind: nat, i: nat)
    requires kind < KINDS && i < |TablesOf(events, maxTasks).names[kind]|
    ensures var tl := Timeline(kind, TablesOf(events, maxTasks).names[kind][i]);
      ShowAll(UsesOn(LinesOf(events, maxTasks), kind, Base(kind) + i), EntriesOn(events, tl))
  {
    RunKeeps(events, maxTasks, Timeline(kind, TablesOf(events, maxTasks).names[kind][i]));
    RunIsGood(events, maxTasks);
    KeptShowsAll(TablesOf(events, maxTasks), LinesOf(events, maxTasks), events, kind, i, maxTasks);
  }
}
