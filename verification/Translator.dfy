/**
 The translator's name tables and output: every entry finds or gets a numbered timeline, and
 the lines emitted for it refer to timelines by number.
 */
module Translator {
  import opened Numerals
  import opened Timelines

  datatype Line =
    | Nam(kind: nat, id: nat, name: string)
    | Sta(kind: nat, id: nat, stamp: nat)
    | Sto(kind: nat, id: nat, stamp: nat)
    | StaBy(kind: nat, id: nat, stamp: nat, amount: int)
    | StoBy(kind: nat, id: nat, stamp: nat, amount: int)
    | Occ(kind: nat, id: nat, stamp: nat)
    | Val(kind: nat, id: nat, value: int)
    | Tim(stamp: nat)
    | Dsc(payload: string)
    | Color(index: nat)

  /** The name arrays of all kinds, and the last value of every queue. */
  datatype Tables = Tables(names: seq<seq<string>>, prev: seq<int>)

  const EMPTY: Tables := Tables([[], [], [], [], [], [], [], [], []], [])

  predicate Shaped(t: Tables) { |t.names| == KINDS && |t.prev| == |t.names[QUEUES]| }

  /** One finished line, marked or not, with the length of its prefix and its timestamp. */
  datatype Item = Item(marked: bool, line: string, prefixLen: nat, stamp: nat)

  predicate WellFormed(item: Item) { item.marked ==> |item.line| >= 3 }

  function ItemEntry(item: Item): Entry
    requires WellFormed(item)
  {
    EntryOf(item.marked, item.line)
  }

  function Lookup(names: seq<string>, key: string): (i: int)
    ensures -1 <= i < |names|
    ensures i >= 0 ==> names[i] == key
    ensures i == -1 ==> key !in names
  {
    if names == [] then -1
    else if names[0] == key then 0
    else
      var i := Lookup(names[1..], key);
      if i == -1 then -1 else i + 1
  }

  /** The text behind the prefix, spaces replaced by commas. */
  function Detail(item: Item): string
    requires WellFormed(item)
  {
    var text := if item.marked then MarkedRest(item.line) else Unsplit(item.line);
    Replaced(if item.prefixLen <= |text| then text[item.prefixLen..] else "", ' ', ',')
  }

  /** A task that is not known yet and for which the table has no more room. */
  predicate Ignored(t: Tables, e: Entry, maxTasks: int)
    requires Shaped(t)
  {
    TimelineOf(e).kind == TASKS && Lookup(t.names[TASKS], TimelineOf(e).name) == -1 && |t.names[TASKS]| >= maxTasks
  }

  /** Index of the timeline, new or old. */
  function SlotOf(t: Tables, tl: Timeline): nat
    requires Shaped(t) && tl.kind < KINDS
  {
    var i := Lookup(t.names[tl.kind], tl.name);
    if i >= 0 then i else |t.names[tl.kind]|
  }

  /** The tables with the timeline in them. */
  function Interned(t: Tables, tl: Timeline): (t': Tables)
    requires Shaped(t) && tl.kind < KINDS
    ensures Shaped(t') && SlotOf(t, tl) < |t'.names[tl.kind]|
  {
    if Lookup(t.names[tl.kind], tl.name) >= 0 then t
    else Tables(t.names[tl.kind := t.names[tl.kind] + [tl.name]], if tl.kind == QUEUES then t.prev + [0] else t.prev)
  }

  function IdOf(t: Tables, tl: Timeline): nat
    requires Shaped(t) && tl.kind < KINDS
  {
    Base(tl.kind) + SlotOf(t, tl)
  }

  function NamLines(t: Tables, tl: Timeline): seq<Line>
    requires Shaped(t) && tl.kind < KINDS
  {
    if Lookup(t.names[tl.kind], tl.name) >= 0 then [] else [Nam(tl.kind, IdOf(t, tl), tl.name)]
  }

  /** The line that says what happened on the timeline. */
  function UseLine(e: Entry, id: nat, stamp: nat, prev: int): Line {
    match e
    case Span(kind, up, _) => if up then Sta(kind, id, stamp) else Sto(kind, id, stamp)
    case Point(kind, _) => Occ(kind, id, stamp)
    case Level(_, value) =>
      if value >= prev then StaBy(QUEUES, id, stamp, value - prev) else StoBy(QUEUES, id, stamp, prev - value)
    case Value(_, value) => Val(VALUES, id, value)
    case Cycle(_, value) => Val(CYCLES, id, value * 10_000_000)
  }

  /** The character of a marked line that says what it is. */
  function Tag(item: Item): char
    requires WellFormed(item)
  {
    if item.marked then item.line[1] else ' '
  }

  function Colors(e: Entry, tag: char): seq<Line> {
    if e.Span? && e.kind == AGENTS && e.up && '0' <= tag <= '7' then [Color(tag as int - '0' as int)] else []
  }

  /** The lines between the timeline's NAM and the line that refers to it. */
  function Before(e: Entry, stamp: nat): seq<Line> {
    if e.Value? || e.Cycle? then [Tim(stamp)] else []
  }

  /** The lines behind the one that refers to the timeline. */
  function Behind(e: Entry, detail: string, tag: char): seq<Line> {
    if e.Span? || e.Point? then [Dsc(detail)] + Colors(e, tag) else []
  }

  /** Levels, and only they, go to the queue table. */
  predicate Sound(e: Entry) {
    TimelineOf(e).kind < KINDS && (TimelineOf(e).kind == QUEUES <==> e.Level?)
  }

  lemma EntryIsSound(item: Item)
    requires WellFormed(item)
    ensures Sound(ItemEntry(item))
  {
  }

  /** The queue's level after the entry is its value. */
  function Settled(t: Tables, e: Entry, slot: nat): (t': Tables)
    requires Shaped(t) && (e.Level? ==> slot < |t.prev|)
    ensures Shaped(t')
  {
    if e.Level? then t.(prev := t.prev[slot := e.value]) else t
  }

  function TablesFor(t: Tables, e: Entry, maxTasks: int): (t': Tables)
    requires Shaped(t) && Sound(e)
    ensures Shaped(t')
  {
    if Ignored(t, e, maxTasks) then t
    else Settled(Interned(t, TimelineOf(e)), e, SlotOf(t, TimelineOf(e)))
  }

  /** The level a queue had before the entry, 0 for a new one. */
  function PrevOf(t: Tables, e: Entry): int
    requires Shaped(t) && Sound(e)
  {
    if e.Level? then Interned(t, TimelineOf(e)).prev[SlotOf(t, TimelineOf(e))] else 0
  }

  function LinesFor(t: Tables, e: Entry, before: seq<Line>, behind: seq<Line>, stamp: nat, maxTasks: int): seq<Line>
    requires Shaped(t) && Sound(e)
  {
    if Ignored(t, e, maxTasks) then []
    else
      NamLines(t, TimelineOf(e)) + before + [UseLine(e, IdOf(t, TimelineOf(e)), stamp, PrevOf(t, e))] + behind
  }

  /** A classified line: its entry, the detail and tag that go with it, and its timestamp. */
  datatype RawEvent = RawEvent(entry: Entry, detail: string, tag: char, stamp: nat)

  type Event = ev: RawEvent | Sound(ev.entry) witness RawEvent(Point(NOTES, ""), "", ' ', 0)

  function EventOf(item: Item): Event
    requires WellFormed(item)
  {
    EntryIsSound(item);
    RawEvent(ItemEntry(item), Detail(item), Tag(item), item.stamp)
  }

  function TablesAfter(t: Tables, ev: Event, maxTasks: int): (t': Tables)
    requires Shaped(t)
    ensures Shaped(t')
  {
    TablesFor(t, ev.entry, maxTasks)
  }

  function Emitted(t: Tables, ev: Event, maxTasks: int): seq<Line>
    requires Shaped(t)
  {
    LinesFor(t, ev.entry, Before(ev.entry, ev.stamp), Behind(ev.entry, ev.detail, ev.tag), ev.stamp, maxTasks)
  }

  // ------------------------------------------------------------------ the loops

  /** The search loop over one name array. */
  method Find(names: seq<string>, key: string) returns (entry: int)
    ensures entry == Lookup(names, key)
  {
    entry := -1;
    var i := 0;
    while i < |names|
      invariant 0 <= i <= |names| && entry == -1
      invariant Lookup(names, key) == if Lookup(names[i..], key) == -1 then -1 else Lookup(names[i..], key) + i
    {
      if names[i] == key {
        return i;
      }
      assert names[i..][1..] == names[i + 1..];
      i := i + 1;
    }
  }

  /** The split loop's state: the characters before `i` are done, the last separator was `last`. */
  ghost predicate Splitting(line: string, c: char, i: int, last: int, text: string, name: string, value: int) {
    && 0 <= i <= |Token(line)| && -1 <= last < i
    && |text| == |line|
    && (forall k :: 0 <= k < |line| ==> text[k] == if k < i && line[k] == c then ' ' else line[k])
    && Absent(line, last + 1, i, c)
    && SplitSoFar(line, c, last, name, value)
  }

  ghost predicate SplitSoFar(line: string, c: char, last: int, name: string, value: int)
    requires -1 <= last < |line|
  {
    if last == -1 then name == ""
    else line[last] == c && name == Replaced(line[..last], c, ' ') && value == Atoi(line[last + 1..])
  }

  lemma SplitFound(line: string, c: char, i: int, last: int, text: string, name: string, value: int)
    requires Splitting(line, c, i, last, text, name, value) && i < |Token(line)| && line[i] == c
    ensures text[i] == c
    ensures Splitting(line, c, i + 1, i, text[i := ' '], text[..i], Atoi(text[i + 1..]))
  {
    assert text[..i] == Replaced(line[..i], c, ' ');
    assert text[i + 1..] == line[i + 1..];
  }

  lemma SplitPassed(line: string, c: char, i: int, last: int, text: string, name: string, value: int)
    requires Splitting(line, c, i, last, text, name, value) && i < |Token(line)| && line[i] != c
    ensures text[i] == line[i]
    ensures Splitting(line, c, i + 1, last, text, name, value)
  {
    assert forall k :: 0 <= k < |line| ==> (k < i + 1 && line[k] == c <==> k < i && line[k] == c);
    assert Absent(line, last + 1, i + 1, c);
  }

  lemma SplitEnd(line: string, c: char, i: int, last: int, text: string, name: string, value: int)
    requires Splitting(line, c, i, last, text, name, value) && i == |Token(line)|
    ensures LastIndexOf(Token(line), c) == last
  {
    var token := Token(line);
    if last == -1 {
      NoneInToken(line, c);
    } else {
      assert token[last] == line[last];
      LastFoundAt(token, c, last);
    }
  }

  lemma NoneInToken(line: string, c: char)
    requires Absent(line, 0, |Token(line)|, c)
    ensures LastIndexOf(Token(line), c) == -1
  {
  }

  /** The loop that splits name and value: it runs to the first space, past every separator. */
  method SplitLoop(line: string, c: char) returns (name: string, value: int, text: string)
    requires c != ' '
    ensures SplitSoFar(line, c, LastIndexOf(Token(line), c), name, value)
    ensures |text| == |line|
    ensures forall k :: 0 <= k < |line| ==>
      text[k] == if k < |Token(line)| && line[k] == c then ' ' else line[k]
  {
    text := line;
    name, value := "", 0;
    ghost var last := -1;
    var i := 0;
    while i < |line|
      invariant Splitting(line, c, i, last, text, name, value)
      decreases |line| - i
    {
      AtTokenEnd(line, c, i, last, text, name, value);
      if text[i] == ' ' {
        break;
      }
      if text[i] == c {
        SplitFound(line, c, i, last, text, name, value);
        name := text[..i];
        value := Atoi(text[i + 1..]);
        text := text[i := ' '];
        last := i;
      } else {
        SplitPassed(line, c, i, last, text, name, value);
      }
      i := i + 1;
    }
    SplitEnd(line, c, i, last, text, name, value);
  }

  lemma AtTokenEnd(line: string, c: char, i: int, last: int, text: string, name: string, value: int)
    requires Splitting(line, c, i, last, text, name, value) && i < |line|
    ensures text[i] == line[i]
    ensures text[i] == ' ' <==> i == |Token(line)|
  {
    assert i < |Token(line)| ==> Token(line)[i] == line[i];
  }

  /** One attempt to split: the result, and what it leaves of the line. */
  method TrySplit(line: string, c: char) returns (split: Split, text: string)
    requires c != ' '
    ensures split == SplitAt(line, c)
    ensures split.NoSplit? ==> text == Tried(line, c)
  {
    var q := IndexOf(line, c);
    if q == -1 || q + 1 >= |line| || !IsDigit(line[q + 1], 10) {
      return NoSplit, line;
    }
    var name, value;
    name, value, text := SplitLoop(line, c);
    NameOfSplit(line, c, name, value);
    split := if name != "" then Split(name, value) else NoSplit;
    if name == "" {
      TriedIs(line, c, text);
    }
  }

  lemma TriedIs(line: string, c: char, text: string)
    requires IndexOf(line, c) >= 0 && IndexOf(line, c) + 1 < |line| && IsDigit(line[IndexOf(line, c) + 1], 10)
    requires LastIndexOf(Token(line), c) <= 0 && |text| == |line|
    requires forall k :: 0 <= k < |line| ==> text[k] == if k < |Token(line)| && line[k] == c then ' ' else line[k]
    ensures text == Tried(line, c)
  {
    var token := Token(line);
    assert forall k :: 0 < k < |token| ==> line[k] == token[k] != c;
    if LastIndexOf(token, c) == 0 {
      assert line[0] == token[0] == c;
      StartsWith(line, c);
      assert text == line[0 := ' '];
    } else {
      assert forall k :: 0 <= k < |token| ==> line[k] == token[k] != c;
      assert text == line;
    }
  }

  lemma NameOfSplit(line: string, c: char, name: string, value: int)
    requires SplitSoFar(line, c, LastIndexOf(Token(line), c), name, value)
    ensures name == "" <==> LastIndexOf(Token(line), c) <= 0
  {
  }

  method Classify(item: Item) returns (e: Entry)
    requires WellFormed(item)
    ensures e == ItemEntry(item)
  {
    if item.marked {
      return MarkedEntry(item.line);
    }
    var q, line1 := TrySplit(item.line, '~');
    if q.Split? {
      return Level(q.name, q.value);
    }
    var v, line2 := TrySplit(line1, '#');
    if v.Split? {
      return Value(v.name, v.value);
    }
    var c, line3 := TrySplit(line2, '^');
    if c.Split? {
      return Cycle(c.name, c.value);
    }
    e := Point(NOTES, Token(line3));
  }

  /** The translator's static arrays and its output stream. */
  class Context {
    var names: seq<seq<string>>
    var prev: seq<int>
    var out: seq<Line>
    const maxTasks: int

    ghost predicate Valid()
      reads this
    {
      Shaped(Contents())
    }

    function Contents(): Tables
      reads this
    {
      Tables(names, prev)
    }

    constructor (maxTasks: int)
      ensures Valid() && Contents() == EMPTY && out == [] && this.maxTasks == maxTasks
    {
      names, prev, out := EMPTY.names, EMPTY.prev, [];
      this.maxTasks := maxTasks;
    }

    /** Find the timeline, or add it and issue its NAM. */
    method Intern(tl: Timeline) returns (slot: nat)
      requires Valid() && tl.kind < KINDS
      modifies this
      ensures Valid() && slot == SlotOf(old(Contents()), tl)
      ensures Contents() == Interned(old(Contents()), tl)
      ensures out == old(out) + NamLines(old(Contents()), tl)
    {
      var entry := Find(names[tl.kind], tl.name);
      if entry == -1 {
        slot := |names[tl.kind]|;
        names := names[tl.kind := names[tl.kind] + [tl.name]];
        out := out + [Nam(tl.kind, Base(tl.kind) + slot, tl.name)];
        if tl.kind == QUEUES {
          prev := prev + [0];
        }
      } else {
        slot := entry;
      }
    }

    /** The branch of addentry for the entry, however it was written. */
    method Put(e: Entry, before: seq<Line>, behind: seq<Line>, stamp: nat)
      requires Valid() && Sound(e)
      modifies this
      ensures Valid() && Contents() == TablesFor(old(Contents()), e, maxTasks)
      ensures out == old(out) + LinesFor(old(Contents()), e, before, behind, stamp, maxTasks)
    {
      var tl := TimelineOf(e);
      if tl.kind == TASKS {
        var known := Find(names[TASKS], tl.name);
        if known == -1 && |names[TASKS]| >= maxTasks {
          return;
        }
      }
      var slot := Intern(tl);
      var last := if e.Level? then prev[slot] else 0;
      out := out + before + [UseLine(e, Base(tl.kind) + slot, stamp, last)] + behind;
      if e.Level? {
        prev := prev[slot := e.value];
      }
    }

    /** addentry from the finished line on. */
    method AddEntry(item: Item)
      requires Valid() && WellFormed(item)
      modifies this
      ensures Valid() && Contents() == TablesAfter(old(Contents()), EventOf(item), maxTasks)
      ensures out == old(out) + Emitted(old(Contents()), EventOf(item), maxTasks)
    {
      EntryIsSound(item);
      var e := Classify(item);
      Put(e, Before(e, item.stamp), Behind(e, Detail(item), Tag(item)), item.stamp);
    }
  }
}
