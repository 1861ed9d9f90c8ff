/**
 From the characters of a traced text to the lines emitted for it: tags and signs, separators,
 the numbers of the timelines, amounts, stamps and descriptions, each written out.
 */
module TracedLines {
  import opened Numerals
  import opened Records
  import opened TextLine
  import opened Timelines
  import opened Translator
  import opened TimelineRuns
  import opened RecordItems

  // ------------------------------------------------------------------ numbers of timelines

  /** The number of a name: its place in the table of its kind, or the next free one. */
  ghost predicate IsNumber(t: Tables, kind: nat, first: nat, name: string, id: nat)
    requires kind < |t.names|
  {
    var names := t.names[kind];
    && first <= id
    && if name in names
       then id - first < |names| && names[id - first] == name && forall i :: 0 <= i < id - first ==> names[i] != name
       else id == first + |names|
  }

  /** The NAM of a name that is not in its table yet. */
  function Introduction(t: Tables, kind: nat, id: nat, name: string): seq<Line>
    requires kind < |t.names|
  {
    if name in t.names[kind] then [] else [Nam(kind, id, name)]
  }

  lemma {:induction false} LookupIsFirst(names: seq<string>, key: string)
    ensures key in names ==> Lookup(names, key) >= 0
    ensures forall i :: 0 <= i < Lookup(names, key) ==> names[i] != key
  {
    if names != [] && names[0] != key {
      LookupIsFirst(names[1..], key);
      assert forall i :: 1 <= i < |names| ==> names[i] == names[1..][i - 1];
    }
  }

  /** The numbers that the kinds start at. */
  lemma FirstNumbers()
    ensures Base(0) == 10000 && Base(1) == 20000 && Base(2) == 21000 && Base(3) == 22000 && Base(4) == 23000
    ensures Base(5) == 24000 && Base(6) == 25000 && Base(7) == 26000 && Base(8) == 27000
  {
  }

  lemma NumberedBy(t: Tables, tl: Timeline)
    requires Shaped(t) && tl.kind < KINDS
    ensures IsNumber(t, tl.kind, Base(tl.kind), tl.name, IdOf(t, tl))
    ensures NamLines(t, tl) == Introduction(t, tl.kind, IdOf(t, tl), tl.name)
  {
    LookupIsFirst(t.names[tl.kind], tl.name);
  }

  /** The task table is full and the name is not in it. */
  predicate NoRoom(t: Tables, name: string, maxTasks: int)
    requires |t.names| > 0
  {
    name !in t.names[0] && |t.names[0]| >= maxTasks
  }

  lemma IgnoredIsNoRoom(t: Tables, e: Entry, maxTasks: int)
    requires Shaped(t)
    ensures Ignored(t, e, maxTasks) <==> TimelineOf(e).kind == 0 && NoRoom(t, TimelineOf(e).name, maxTasks)
  {
    LookupIsFirst(t.names[0], TimelineOf(e).name);
  }

  // ------------------------------------------------------------------ marked texts

  /** "@", a tag, and "+" or "-". */
  predicate Tagged(text: string) { |text| >= 3 && text[0] == '@' && (text[2] == '+' || text[2] == '-') }

  /** What stands behind the mark in the line: prefix, text and numbers. */
  function BehindMark(prefix: string, r: Record): string
    requires |r.text| >= 3
  {
    Underscored(prefix + r.text[3..]) + NumberTail(r.numbers)
  }

  /** A first word, and behind it nothing or a space. */
  predicate IsFirstWord(name: string, rest: string) { ' ' !in name && (rest == "" || rest[0] == ' ') }

  function Commas(s: string): string { Replaced(s, ' ', ',') }

  lemma {:induction false} TokenIsFirstWord(name: string, rest: string)
    requires IsFirstWord(name, rest)
    ensures Token(name + rest) == name
    decreases |name|
  {
    if name == "" {
      assert name + rest == rest;
    } else {
      assert (name + rest)[1..] == name[1..] + rest;
      TokenIsFirstWord(name[1..], rest);
    }
  }

  lemma TaggedItem(prefix: string, r: Record) returns (item: Entered)
    requires Tagged(r.text)
    ensures item == ItemOf(prefix, r)
    ensures item.marked && |item.line| >= 3 && item.line[3..] == BehindMark(prefix, r)
    ensures item.line[2] == r.text[2] && SameTag(r.text[1], item.line[1])
    ensures item.prefixLen == |prefix| && item.stamp == Timestamp(r.sec, r.nsec)
  {
    item := ItemOf(prefix, r);
    var body := prefix + r.text[3..];
    assert Joined(prefix, r.text) == r.text[..3] + body;
    MarkStays(r.text[..3], body, NumberTail(r.numbers));
  }

  /** The mark is in front of the finished line, behind it comes the rest. */
  lemma MarkStays(mark: string, body: string, tail: string)
    requires |mark| == 3 && (mark[2] == '+' || mark[2] == '-')
    ensures var line := Underscored(mark + body) + tail;
      |line| >= 3 && line[3..] == Underscored(body) + tail && line[2] == mark[2] && SameTag(mark[1], line[1])
  {
    assert Underscored(mark + body)[3..] == Underscored(body);
  }

  /** A tag and how it appears in the line, where a line break has become an underscore. */
  predicate SameTag(tag: char, shown: char) { tag == shown || (shown == '_' && (tag == '\r' || tag == '\n')) }

  lemma LineOfEvent(t: Tables, ev: Event, maxTasks: int)
    requires Shaped(t)
    ensures var e, tl := ev.entry, TimelineOf(ev.entry);
      Emitted(t, ev, maxTasks) ==
        if tl.kind == 0 && NoRoom(t, tl.name, maxTasks) then []
        else Introduction(t, tl.kind, IdOf(t, tl), tl.name) + Before(e, ev.stamp)
             + [UseLine(e, IdOf(t, tl), ev.stamp, PrevOf(t, e))] + Behind(e, ev.detail, ev.tag)
  {
    NumberedBy(t, TimelineOf(ev.entry));
    IgnoredIsNoRoom(t, ev.entry, maxTasks);
  }

  lemma Grouped(nam: seq<Line>, use: seq<Line>, behind: seq<Line>)
    ensures nam + [] + use + behind == nam + use + behind
    ensures nam + use + [] == nam + use
  {
  }

  /** What is known of an event: its entry, stamp, description and tag. */
  predicate Is(ev: Event, e: Entry, stamp: nat, detail: string, tag: char) {
    ev.entry == e && ev.stamp == stamp && ev.detail == detail && ev.tag == tag
  }

  lemma TaskLines(
    t: Tables, ev: Event, maxTasks: int, up: bool, name: string, stamp: nat, detail: string, tag: char)
    returns (id: nat)
    requires Shaped(t) && Is(ev, Span(0, up, name), stamp, detail, tag)
    ensures IsNumber(t, 0, 10000, name, id)
    ensures Emitted(t, ev, maxTasks) ==
      if name !in t.names[0] && |t.names[0]| >= maxTasks then []
      else Introduction(t, 0, id, name) + [if up then Sta(0, id, stamp) else Sto(0, id, stamp)] + [Dsc(detail)]
  {
    id := IdOf(t, Timeline(0, name));
    NumberedBy(t, Timeline(0, name));
    LineOfEvent(t, ev, maxTasks);
    assert Behind(ev.entry, detail, tag) == [Dsc(detail)];
    Grouped(Introduction(t, 0, id, name), [if up then Sta(0, id, stamp) else Sto(0, id, stamp)], [Dsc(detail)]);
  }

  lemma InterruptLines(
    t: Tables, ev: Event, maxTasks: int, up: bool, name: string, stamp: nat, detail: string, tag: char)
    returns (id: nat)
    requires Shaped(t) && Is(ev, Span(1, up, name), stamp, detail, tag)
    ensures IsNumber(t, 1, 20000, name, id)
    ensures Emitted(t, ev, maxTasks) ==
      Introduction(t, 1, id, name) + [if up then Sta(1, id, stamp) else Sto(1, id, stamp)] + [Dsc(detail)]
  {
    id := IdOf(t, Timeline(1, name));
    NumberedBy(t, Timeline(1, name));
    LineOfEvent(t, ev, maxTasks);
    assert Behind(ev.entry, detail, tag) == [Dsc(detail)];
    Grouped(Introduction(t, 1, id, name), [if up then Sta(1, id, stamp) else Sto(1, id, stamp)], [Dsc(detail)]);
  }

  lemma AgentLines(
    t: Tables, ev: Event, maxTasks: int, up: bool, name: string, stamp: nat, detail: string, tag: char)
    returns (id: nat)
    requires Shaped(t) && Is(ev, Span(8, up, name), stamp, detail, tag)
    ensures IsNumber(t, 8, 27000, name, id)
    ensures Emitted(t, ev, maxTasks) ==
      Introduction(t, 8, id, name) + [if up then Sta(8, id, stamp) else Sto(8, id, stamp)]
      + ([Dsc(detail)] + ColorOf(tag, up))
  {
    id := IdOf(t, Timeline(8, name));
    NumberedBy(t, Timeline(8, name));
    LineOfEvent(t, ev, maxTasks);
    Grouped(Introduction(t, 8, id, name), [if up then Sta(8, id, stamp) else Sto(8, id, stamp)],
            Behind(ev.entry, detail, tag));
  }

  lemma PointLines(
    t: Tables, ev: Event, maxTasks: int, kind: nat, first: nat, name: string, stamp: nat, detail: string, tag: char)
    returns (id: nat)
    requires Shaped(t) && Is(ev, Point(kind, name), stamp, detail, tag) && 0 < kind < KINDS && kind != 3
    requires first == Base(kind)
    ensures IsNumber(t, kind, first, name, id)
    ensures Emitted(t, ev, maxTasks) == Introduction(t, kind, id, name) + [Occ(kind, id, stamp)] + [Dsc(detail)]
  {
    id := IdOf(t, Timeline(kind, name));
    NumberedBy(t, Timeline(kind, name));
    LineOfEvent(t, ev, maxTasks);
    assert Behind(ev.entry, detail, tag) == [Dsc(detail)];
    Grouped(Introduction(t, kind, id, name), [Occ(kind, id, stamp)], [Dsc(detail)]);
  }

  /** What a queue was at before. */
  function LevelBefore(t: Tables, name: string, id: nat): int
    requires Shaped(t)
  {
    if name in t.names[3] && 22000 <= id < 22000 + |t.prev| then t.prev[id - 22000] else 0
  }

  /** STA by what a queue rose, STO by what it fell. */
  function MoveLine(id: nat, stamp: nat, was: int, now: int): Line {
    if now >= was then StaBy(3, id, stamp, now - was) else StoBy(3, id, stamp, was - now)
  }

  lemma QueueLines(t: Tables, ev: Event, maxTasks: int, name: string, v: int, stamp: nat, detail: string, tag: char)
    returns (id: nat)
    requires Shaped(t) && Is(ev, Level(name, v), stamp, detail, tag)
    ensures IsNumber(t, 3, 22000, name, id)
    ensures Emitted(t, ev, maxTasks) == Introduction(t, 3, id, name) + [MoveLine(id, stamp, LevelBefore(t, name, id), v)]
  {
    id := IdOf(t, Timeline(3, name));
    NumberedBy(t, Timeline(3, name));
    LineOfEvent(t, ev, maxTasks);
    PreviousLevel(t, ev.entry);
    var use := UseLine(ev.entry, id, stamp, LevelBefore(t, name, id));
    Grouped(Introduction(t, 3, id, name), [use], []);
  }

  lemma ValueLines(
    t: Tables, ev: Event, maxTasks: int, cycle: bool, name: string, v: int, stamp: nat, detail: string, tag: char)
    returns (id: nat)
    requires Shaped(t) && Is(ev, if cycle then Cycle(name, v) else Value(name, v), stamp, detail, tag)
    ensures if cycle then IsNumber(t, 6, 25000, name, id) else IsNumber(t, 5, 24000, name, id)
    ensures var kind := if cycle then 6 else 5;
      Emitted(t, ev, maxTasks) ==
        Introduction(t, kind, id, name) + [Tim(stamp)] + [Val(kind, id, if cycle then v * 10_000_000 else v)]
  {
    var tl := Timeline(if cycle then 6 else 5, name);
    id := IdOf(t, tl);
    NumberedBy(t, tl);
    LineOfEvent(t, ev, maxTasks);
    var use := UseLine(ev.entry, id, stamp, 0);
    Grouped(Introduction(t, tl.kind, id, name) + [Tim(stamp)], [use], []);
  }

  function EventFor(prefix: string, r: Record): Event { EventOf(ItemOf(prefix, r)) }

  /** What a tagged line is about, by its tag and sign. */
  function TaggedEntry(tag: char, sign: char, name: string): Entry {
    if tag == 'T' then Span(0, sign == '+', name)
    else if tag == 'I' then Span(1, sign == '+', name)
    else if tag == 'S' && sign == '+' then Point(2, name)
    else if tag == 'E' && sign == '+' then Point(4, name)
    else Span(8, sign == '+', name)
  }

  lemma MarkedEntryIs(line: string, name: string, rest: string)
    requires |line| >= 3 && IsFirstWord(name, rest)
    requires name + rest == if line[1] == 'T' then Replaced(line[3..], '|', ' ') else line[3..]
    ensures MarkedEntry(line) == TaggedEntry(line[1], line[2], name) && MarkedRest(line) == name + rest
  {
    TokenIsFirstWord(name, rest);
  }

  lemma MarkedEvent(item: Entered)
    requires item.marked && item.prefixLen <= |item.line| - 3
    ensures Is(EventOf(item), MarkedEntry(item.line), item.stamp,
               Commas(MarkedRest(item.line)[item.prefixLen..]), item.line[1])
  {
  }

  lemma TaggedEvent(prefix: string, r: Record, name: string, rest: string) returns (ev: Event)
    requires Tagged(r.text) && IsFirstWord(name, rest)
    requires name + rest ==
      if r.text[1] == 'T' then Replaced(BehindMark(prefix, r), '|', ' ') else BehindMark(prefix, r)
    ensures ev == EventFor(prefix, r) && SameTag(r.text[1], ev.tag)
    ensures Is(ev, TaggedEntry(r.text[1], r.text[2], name), Timestamp(r.sec, r.nsec),
               Commas((name + rest)[|prefix|..]), ev.tag)
  {
    var item := TaggedItem(prefix, r);
    MarkedEvent(item);
    MarkedEntryIs(item.line, name, rest);
    SameEntry(r.text[1], item.line[1], r.text[2], name);
    ev := EventOf(item);
  }

  lemma SameEntry(tag: char, shown: char, sign: char, name: string)
    requires SameTag(tag, shown)
    ensures TaggedEntry(tag, sign, name) == TaggedEntry(shown, sign, name)
  {
  }

  /** `@T+` starts and `@T-` stops the task of the first word, unless its table is full. */
  lemma TaskIsTraced(t: Tables, prefix: string, r: Record, maxTasks: int, name: string, rest: string)
    returns (ev: Event, id: nat)
    requires Shaped(t) && Tagged(r.text) && r.text[1] == 'T'
    requires IsFirstWord(name, rest) && name + rest == Replaced(BehindMark(prefix, r), '|', ' ')
    ensures ev == EventFor(prefix, r)
    ensures IsNumber(t, 0, 10000, name, id)
    ensures var stamp := Timestamp(r.sec, r.nsec);
      Emitted(t, ev, maxTasks) ==
        if name !in t.names[0] && |t.names[0]| >= maxTasks then []
        else Introduction(t, 0, id, name) + [if r.text[2] == '+' then Sta(0, id, stamp) else Sto(0, id, stamp)]
             + [Dsc(Commas((name + rest)[|prefix|..]))]
  {
    ev := TaggedEvent(prefix, r, name, rest);
    id := TaskLines(t, ev, maxTasks, r.text[2] == '+', name, Timestamp(r.sec, r.nsec),
      Commas((name + rest)[|prefix|..]), ev.tag);
  }

  /** `@I+` starts and `@I-` stops an interrupt. */
  lemma InterruptIsTraced(t: Tables, prefix: string, r: Record, maxTasks: int, name: string, rest: string)
    returns (ev: Event, id: nat)
    requires Shaped(t) && Tagged(r.text) && r.text[1] == 'I'
    requires IsFirstWord(name, rest) && name + rest == BehindMark(prefix, r)
    ensures ev == EventFor(prefix, r)
    ensures IsNumber(t, 1, 20000, name, id)
    ensures var stamp := Timestamp(r.sec, r.nsec);
      Emitted(t, ev, maxTasks) ==
        Introduction(t, 1, id, name) + [if r.text[2] == '+' then Sta(1, id, stamp) else Sto(1, id, stamp)]
        + [Dsc(Commas((name + rest)[|prefix|..]))]
  {
    ev := TaggedEvent(prefix, r, name, rest);
    id := InterruptLines(t, ev, maxTasks, r.text[2] == '+', name, Timestamp(r.sec, r.nsec),
      Commas((name + rest)[|prefix|..]), ev.tag);
  }

  /** `@S+` is an occurrence of a semaphore. */
  lemma SemaphoreIsTraced(t: Tables, prefix: string, r: Record, maxTasks: int, name: string, rest: string)
    returns (ev: Event, id: nat)
    requires Shaped(t) && Tagged(r.text) && r.text[1] == 'S' && r.text[2] == '+'
    requires IsFirstWord(name, rest) && name + rest == BehindMark(prefix, r)
    ensures ev == EventFor(prefix, r)
    ensures IsNumber(t, 2, 21000, name, id)
    ensures Emitted(t, ev, maxTasks) ==
      Introduction(t, 2, id, name) + [Occ(2, id, Timestamp(r.sec, r.nsec))] + [Dsc(Commas((name + rest)[|prefix|..]))]
  {
    ev := TaggedEvent(prefix, r, name, rest);
    FirstNumbers();
    id := PointLines(t, ev, maxTasks, 2, 21000, name, Timestamp(r.sec, r.nsec),
      Commas((name + rest)[|prefix|..]), ev.tag);
  }

  /** `@E+` is an occurrence of an event. */
  lemma EventIsTraced(t: Tables, prefix: string, r: Record, maxTasks: int, name: string, rest: string)
    returns (ev: Event, id: nat)
    requires Shaped(t) && Tagged(r.text) && r.text[1] == 'E' && r.text[2] == '+'
    requires IsFirstWord(name, rest) && name + rest == BehindMark(prefix, r)
    ensures ev == EventFor(prefix, r)
    ensures IsNumber(t, 4, 23000, name, id)
    ensures Emitted(t, ev, maxTasks) ==
      Introduction(t, 4, id, name) + [Occ(4, id, Timestamp(r.sec, r.nsec))] + [Dsc(Commas((name + rest)[|prefix|..]))]
  {
    ev := TaggedEvent(prefix, r, name, rest);
    FirstNumbers();
    id := PointLines(t, ev, maxTasks, 4, 23000, name, Timestamp(r.sec, r.nsec),
      Commas((name + rest)[|prefix|..]), ev.tag);
  }

  /** The color line of an agent that starts with a tag '0' to '7'. */
  function ColorOf(tag: char, up: bool): seq<Line> {
    if up && '0' <= tag <= '7' then [Color(tag as int - '0' as int)] else []
  }

  lemma SameColor(tag: char, shown: char, up: bool)
    requires SameTag(tag, shown)
    ensures ColorOf(tag, up) == ColorOf(shown, up)
  {
  }

  /**
   Every other tag, and `@S-` and `@E-`, starts or stops an agent. A tag '0' to '7' also gives a
   starting agent its color.
   */
  lemma AgentIsTraced(t: Tables, prefix: string, r: Record, maxTasks: int, name: string, rest: string)
    returns (ev: Event, id: nat)
    requires Shaped(t) && Tagged(r.text) && r.text[1] != 'T' && r.text[1] != 'I'
    requires IsFirstWord(name, rest) && name + rest == BehindMark(prefix, r)
    requires !((r.text[1] == 'S' || r.text[1] == 'E') && r.text[2] == '+')
    ensures ev == EventFor(prefix, r)
    ensures IsNumber(t, 8, 27000, name, id)
    ensures var stamp := Timestamp(r.sec, r.nsec);
      Emitted(t, ev, maxTasks) ==
        Introduction(t, 8, id, name) + [if r.text[2] == '+' then Sta(8, id, stamp) else Sto(8, id, stamp)]
        + ([Dsc(Commas((name + rest)[|prefix|..]))] + ColorOf(r.text[1], r.text[2] == '+'))
  {
    ev := TaggedEvent(prefix, r, name, rest);
    SameColor(r.text[1], ev.tag, r.text[2] == '+');
    id := AgentLines(t, ev, maxTasks, r.text[2] == '+', name, Timestamp(r.sec, r.nsec),
      Commas((name + rest)[|prefix|..]), ev.tag);
  }

  // ------------------------------------------------------------------ plain texts

  /** The line of a text without a mark: prefix, text or identifier, numbers. */
  function PlainLine(prefix: string, r: Record): string {
    Underscored(prefix + if r.text == "" then Hex2(r.id) else r.text) + NumberTail(r.numbers)
  }

  lemma PlainItem(prefix: string, r: Record)
    requires !Tagged(r.text)
    ensures var item := ItemOf(prefix, r);
      && !item.marked && item.line == PlainLine(prefix, r)
      && item.prefixLen == |prefix| && item.stamp == Timestamp(r.sec, r.nsec)
  {
  }

  predicate IsSeparator(c: char) { c == '~' || c == '#' || c == '^' }

  /** The first `c` of the line, if there is one, has no digit behind it. */
  ghost predicate IsBare(line: string, c: char) {
    forall q :: 0 <= q < |line| - 1 && line[q] == c && (forall i :: 0 <= i < q ==> line[i] != c) ==>
      !('0' <= line[q + 1] <= '9')
  }

  /** The separator does not split the line with this first word. */
  ghost predicate DoesNotSplit(line: string, word: string, c: char) { c !in word || IsBare(line, c) }

  lemma NothingSplits(line: string, c: char)
    requires DoesNotSplit(line, Token(line), c)
    ensures SplitAt(line, c) == NoSplit && Tried(line, c) == line
  {
    if c !in Token(line) {
      NoneInToken(line, c);
    }
  }

  lemma PlainEvent(prefix: string, r: Record) returns (ev: Event)
    requires !Tagged(r.text)
    ensures ev == EventFor(prefix, r)
    ensures Is(ev, PlainEntry(PlainLine(prefix, r)), Timestamp(r.sec, r.nsec), ev.detail, ev.tag)
    ensures Unsplit(PlainLine(prefix, r)) == PlainLine(prefix, r) ==> ev.detail == Commas(PlainLine(prefix, r)[|prefix|..])
  {
    ev := EventFor(prefix, r);
    PlainItem(prefix, r);
    UnmarkedEvent(ItemOf(prefix, r));
  }

  lemma UnmarkedEvent(item: Entered)
    requires !item.marked && item.prefixLen <= |item.line|
    ensures Is(EventOf(item), PlainEntry(item.line), item.stamp, Commas(Unsplit(item.line)[item.prefixLen..]), ' ')
  {
  }

  /** A first word that no separator splits is a note. */
  lemma NoteIsTraced(t: Tables, prefix: string, r: Record, maxTasks: int, name: string, rest: string)
    returns (ev: Event, id: nat)
    requires Shaped(t) && !Tagged(r.text)
    requires IsFirstWord(name, rest) && PlainLine(prefix, r) == name + rest
    requires forall c :: IsSeparator(c) ==> DoesNotSplit(name + rest, name, c)
    ensures ev == EventFor(prefix, r)
    ensures IsNumber(t, 7, 26000, name, id)
    ensures Emitted(t, ev, maxTasks) ==
      Introduction(t, 7, id, name) + [Occ(7, id, Timestamp(r.sec, r.nsec))]
      + [Dsc(Commas((name + rest)[|prefix|..]))]
  {
    ev := PlainEvent(prefix, r);
    NoteEvent(name, rest);
    FirstNumbers();
    id := PointLines(t, ev, maxTasks, 7, 26000, name, Timestamp(r.sec, r.nsec),
      Commas((name + rest)[|prefix|..]), ev.tag);
  }

  lemma NoteEvent(name: string, rest: string)
    requires IsFirstWord(name, rest) && forall c :: IsSeparator(c) ==> DoesNotSplit(name + rest, name, c)
    ensures PlainEntry(name + rest) == Point(7, name) && Unsplit(name + rest) == name + rest
  {
    TokenIsFirstWord(name, rest);
    NothingSplits(name + rest, '~');
    NothingSplits(name + rest, '#');
    NothingSplits(name + rest, '^');
  }

  /** A separator and a digit at the start of a line, and no other such separator in its first word. */
  predicate IsLone(line: string, c: char) {
    IsSeparator(c) && |line| >= 2 && line[0] == c && '0' <= line[1] <= '9' && c !in Token(line[1..])
  }

  lemma LoneIsTried(line: string, c: char)
    requires IsLone(line, c)
    ensures SplitAt(line, c) == NoSplit && Tried(line, c) == " " + line[1..]
  {
    assert line == [c] + line[1..];
    TokenBehind([c], line[1..]);
    LastInToken([c], c, Token(line[1..]));
    FoundAt(line, c, 0);
    assert LastIndexOf(Token(line), c) == 0 && IndexOf(line, c) == 0 && IsDigit(line[1], 10);
    assert Blanks(line, c) && line[0 := ' '] == " " + line[1..];
  }

  lemma BlankSplitsNothing(rest: string, d: char)
    requires IsSeparator(d)
    ensures Token(" " + rest) == "" && SplitAt(" " + rest, d) == NoSplit && Tried(" " + rest, d) == " " + rest
  {
    NothingSplits(" " + rest, d);
  }

  /**
   A line that starts with a separator and a digit, with no other such separator in its first
   word, is blanked there and becomes a note without a name.
   */
  lemma LoneSeparatorIsBlanked(line: string, c: char)
    requires IsLone(line, c)
    requires c != '~' ==> DoesNotSplit(line, Token(line), '~')
    requires c == '^' ==> DoesNotSplit(line, Token(line), '#')
    ensures PlainEntry(line) == Point(7, "") && Unsplit(line) == " " + line[1..]
  {
    var rest := line[1..];
    LoneIsTried(line, c);
    BlankSplitsNothing(rest, '#');
    BlankSplitsNothing(rest, '^');
    if c != '~' {
      NothingSplits(line, '~');
      if c == '^' {
        NothingSplits(line, '#');
      }
    }
    TriedInTurn(line, if c == '~' then " " + rest else line, if c == '^' then line else " " + rest, " " + rest);
  }

  lemma TriedInTurn(line: string, line1: string, line2: string, line3: string)
    requires SplitAt(line, '~') == NoSplit && Tried(line, '~') == line1
    requires SplitAt(line1, '#') == NoSplit && Tried(line1, '#') == line2
    requires SplitAt(line2, '^') == NoSplit && Tried(line2, '^') == line3
    ensures PlainEntry(line) == Point(7, Token(line3)) && Unsplit(line) == line3
  {
  }

  /** The separators that are tried before `c`. */
  predicate TriedBefore(d: char, c: char) { (d == '~' && c != '~') || (d == '#' && c == '^') }

  /**
   A line that starts with a name, the separator `c` and digits: `c` stands nowhere else in the
   first word, and no separator tried before splits the line.
   */
  ghost predicate IsReading(line: string, name: string, c: char, digits: string, rest: string) {
    && IsSeparator(c) && name != "" && ' ' !in name && c !in name && c !in Token(rest)
    && IsNumeral(digits, 10) && digits != "" && (rest == "" || !IsDigit(rest[0], 10))
    && line == name + [c] + digits + rest
    && forall d :: TriedBefore(d, c) ==> DoesNotSplit(line, name + [c] + digits + Token(rest), d)
  }

  lemma {:induction false} TokenBehind(head: string, rest: string)
    requires ' ' !in head
    ensures Token(head + rest) == head + Token(rest)
    decreases |head|
  {
    if head == "" {
      assert head + rest == rest && head + Token(rest) == Token(rest);
    } else {
      assert (head + rest)[1..] == head[1..] + rest;
      TokenBehind(head[1..], rest);
    }
  }

  lemma ReadingToken(line: string, name: string, c: char, digits: string, rest: string)
    requires IsReading(line, name, c, digits, rest)
    ensures Token(line) == name + [c] + digits + Token(rest)
  {
    assert forall i :: 0 <= i < |digits| ==> IsDigit(digits[i], 10);
    TokenBehind(name + [c] + digits, rest);
  }

  lemma ReadingParts(line: string, name: string, c: char, digits: string, rest: string)
    requires IsReading(line, name, c, digits, rest)
    ensures var n := |name|;
      && line[n] == c && line[n + 1] == digits[0] && line[n + 1..] == digits + rest && line[..n] == name
      && IsDigit(digits[0], 10) && Absent(line, 0, n, c)
  {
    var n := |name|;
    assert forall i :: 0 <= i < n ==> line[i] == name[i];
  }

  lemma {:induction false} LastInToken(head: string, c: char, tail: string)
    requires head != "" && head[|head| - 1] == c && c !in tail
    ensures LastIndexOf(head + tail, c) == |head| - 1
    decreases |tail|
  {
    if tail == "" {
      assert head + tail == head;
    } else {
      var front := tail[..|tail| - 1];
      assert (head + tail)[..|head + tail| - 1] == head + front;
      assert (head + tail)[|head + tail| - 1] == tail[|tail| - 1] != c;
      LastInToken(head, c, front);
    }
  }

  lemma NoSeparatorBehind(c: char, digits: string, more: string)
    requires IsSeparator(c) && IsNumeral(digits, 10) && c !in more
    ensures c !in digits + more
  {
    assert forall i :: 0 <= i < |digits| ==> IsDigit(digits[i], 10);
  }

  lemma StringsAssociate(a: string, b: string, c: string)
    ensures a + b + c == a + (b + c)
  {
  }

  /** Once the places of the separator are known, the split is too. */
  lemma SplitKnown(line: string, c: char, n: nat, name: string, v: int)
    requires 0 < n && n + 1 < |line| && IndexOf(line, c) == n && LastIndexOf(Token(line), c) == n
    requires IsDigit(line[n + 1], 10) && line[..n] == name && c !in name && Atoi(line[n + 1..]) == v
    ensures SplitAt(line, c) == Split(name, v)
  {
    ReplacedNone(name, c);
  }

  lemma ReplacedNone(name: string, c: char)
    requires c !in name
    ensures Replaced(name, c, ' ') == name
  {
    forall i | 0 <= i < |name|
      ensures Replaced(name, c, ' ')[i] == name[i]
    {
      assert name[i] in name;
    }
  }

  lemma ReadingSplits(line: string, name: string, c: char, digits: string, rest: string)
    requires IsReading(line, name, c, digits, rest)
    ensures SplitAt(line, c) == Split(name, ValueOf(digits, 10))
  {
    ReadingParts(line, name, c, digits, rest);
    ReadingToken(line, name, c, digits, rest);
    FoundAt(line, c, |name|);
    NoSeparatorBehind(c, digits, Token(rest));
    LastInToken(name + [c], c, digits + Token(rest));
    StringsAssociate(name + [c], digits, Token(rest));
    AtoiOfDigits(digits, rest);
    SplitKnown(line, c, |name|, name, ValueOf(digits, 10));
  }

  lemma ReadingEntry(line: string, name: string, c: char, digits: string, rest: string)
    requires IsReading(line, name, c, digits, rest)
    ensures PlainEntry(line) ==
      if c == '~' then Level(name, ValueOf(digits, 10))
      else if c == '#' then Value(name, ValueOf(digits, 10))
      else Cycle(name, ValueOf(digits, 10))
  {
    ReadingToken(line, name, c, digits, rest);
    ReadingSplits(line, name, c, digits, rest);
    if c != '~' {
      assert TriedBefore('~', c);
      NothingSplits(line, '~');
      if c != '#' {
        assert TriedBefore('#', c);
        NothingSplits(line, '#');
      }
    }
  }

  lemma ReadingEvent(prefix: string, r: Record, name: string, c: char, digits: string, rest: string) returns (ev: Event)
    requires !Tagged(r.text) && IsReading(PlainLine(prefix, r), name, c, digits, rest)
    ensures ev == EventFor(prefix, r)
    ensures var v := ValueOf(digits, 10);
      Is(ev, if c == '~' then Level(name, v) else if c == '#' then Value(name, v) else Cycle(name, v),
         Timestamp(r.sec, r.nsec), ev.detail, ev.tag)
  {
    ev := PlainEvent(prefix, r);
    ReadingEntry(PlainLine(prefix, r), name, c, digits, rest);
  }

  /** name~value moves the queue from the value before to this one. */
  lemma QueueIsTraced(
    t: Tables, prefix: string, r: Record, maxTasks: int, name: string, digits: string, rest: string)
    returns (ev: Event, id: nat)
    requires Shaped(t) && !Tagged(r.text) && IsReading(PlainLine(prefix, r), name, '~', digits, rest)
    ensures ev == EventFor(prefix, r)
    ensures IsNumber(t, 3, 22000, name, id)
    ensures Emitted(t, ev, maxTasks) ==
      Introduction(t, 3, id, name)
      + [MoveLine(id, Timestamp(r.sec, r.nsec), LevelBefore(t, name, id), ValueOf(digits, 10))]
  {
    ev := ReadingEvent(prefix, r, name, '~', digits, rest);
    id := QueueLines(t, ev, maxTasks, name, ValueOf(digits, 10), Timestamp(r.sec, r.nsec), ev.detail, ev.tag);
  }

  lemma PreviousLevel(t: Tables, e: Entry)
    requires Shaped(t) && e.Level?
    ensures IsNumber(t, 3, 22000, e.name, IdOf(t, TimelineOf(e)))
    ensures PrevOf(t, e) == LevelBefore(t, e.name, IdOf(t, TimelineOf(e)))
  {
    NumberedBy(t, TimelineOf(e));
  }

  /** name#value shows the value, and name^value ten million times it, at the time of the record. */
  lemma ValueIsTraced(
    t: Tables, prefix: string, r: Record, maxTasks: int, name: string, c: char, digits: string, rest: string)
    returns (ev: Event, id: nat)
    requires Shaped(t) && !Tagged(r.text) && (c == '#' || c == '^')
    requires IsReading(PlainLine(prefix, r), name, c, digits, rest)
    ensures ev == EventFor(prefix, r)
    ensures if c == '^' then IsNumber(t, 6, 25000, name, id) else IsNumber(t, 5, 24000, name, id)
    ensures var kind, v := if c == '^' then 6 else 5, ValueOf(digits, 10);
      Emitted(t, ev, maxTasks) ==
        Introduction(t, kind, id, name) + [Tim(Timestamp(r.sec, r.nsec))]
        + [Val(kind, id, if c == '^' then v * 10_000_000 else v)]
  {
    ev := ReadingEvent(prefix, r, name, c, digits, rest);
    id := ValueLines(t, ev, maxTasks, c == '^', name, ValueOf(digits, 10), Timestamp(r.sec, r.nsec), ev.detail, ev.tag);
  }
}
