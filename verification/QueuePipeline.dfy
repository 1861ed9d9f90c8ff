/**
 The queue pipeline end to end: samples are suppressed while unchanged, printed as NAME~%u,
 stored as records, parsed back, split, and delta-coded on their queue's timeline.
 */
module QueuePipeline {
  import opened Wrappers
  import opened Words
  import opened Numerals
  import opened Records
  import opened TextLine
  import opened Timelines
  import opened Translator
  import opened TimelineRuns
  import opened RecordItems
  import Format

  // ------------------------------------------------------------------ samples

  datatype Sample = Sample(name: string, value: Word, sec: Word, nsec: Word)

  function TextOf(s: Sample): string {
    s.name + "~" + Numeral(s.value, 10)
  }

  /** A name that is itself no format, and a text that fits a record. */
  predicate Usable(s: Sample) {
    && '%' !in s.name && s.value < 0x8000_0000
    && Storable(RawRecord(0, s.sec, s.nsec, [], TextOf(s)))
  }

  type QueueSample = s: Sample | Usable(s) witness Sample("Q", 0, 0, 0)

  /** tditrace("NAME~%u", value) formats exactly the text of the record. */
  lemma SampleIsFormatted(name: string, value: Word)
    requires '%' !in name
    ensures Format.Matches(name + "~%u", [Format.Num(value)])
    ensures Format.Formatted(name + "~%u", [Format.Num(value)], Format.BLANK)
         == Format.Message(0, [], name + "~" + Numeral(value, 10))
  {
    Format.FormatLiteral(name + "~", Format.BLANK);
    assert "%u"[2..] == "" && [Format.Num(value)][1..] == [];
    assert name + "~%u" == (name + "~") + "%u" && [] + [Format.Num(value)] == [Format.Num(value)];
    Format.FormatConcat(name + "~", [], "%u", [Format.Num(value)], Format.BLANK);
  }

  function RecordOf(s: QueueSample): Record { RawRecord(0, s.sec, s.nsec, [], TextOf(s)) }

  // ------------------------------------------------------------------ which samples are read as levels

  /** Neither a space, nor a separator, nor a line break. */
  predicate IsClean(s: string) { forall i :: 0 <= i < |s| ==> s[i] != ' ' && s[i] != '~' && s[i] != '\r' && s[i] != '\n' }

  lemma DigitsAreClean(t: string)
    requires IsNumeral(t, 10)
    ensures IsClean(t)
  {
  }

  lemma UnderscoredParts(whole: string, digits: string)
    requires IsNumeral(digits, 10)
    ensures Underscored(whole + "~" + digits) == Underscored(whole) + "~" + digits
    ensures IsClean(whole) ==> Underscored(whole) == whole
  {
    DigitsAreClean(digits);
  }

  /** A line name~digits is split into that name and the number the digits denote. */
  lemma LineSplits(name: string, digits: string)
    requires IsClean(name) && name != "" && IsNumeral(digits, 10) && digits != ""
    ensures SplitAt(name + "~" + digits, '~') == Split(name, ValueOf(digits, 10))
  {
    var line := name + "~" + digits;
    var n := |name|;
    DigitsAreClean(digits);
    assert line[n] == '~' && line[n + 1] == digits[0] && line[n + 1..] == digits && line[..n] == name;
    NoSpaceIsToken(line);
    FoundAt(line, '~', n);
    LastFoundAt(line, '~', n);
    assert Replaced(name, '~', ' ') == name;
    assert digits + "" == digits;
    AtoiOfDigits(digits, "");
  }

  lemma NoSpaceIsToken(line: string)
    requires ' ' !in line
    ensures Token(line) == line
  {
    assert Token(line) <= line;
  }

  /** What is split off as a name and still is the whole name has nothing in it that would change. */
  lemma WholeNameIsClean(whole: string, digits: string)
    requires var split := SplitAt(Underscored(whole) + "~" + digits, '~'); split.Split? && split.name == whole
    ensures IsClean(whole) && whole != ""
  {
    var line := Underscored(whole) + "~" + digits;
    var last := LastIndexOf(Token(line), '~');
    assert |whole| == last > 0;
    forall i | 0 <= i < |whole|
      ensures whole[i] != ' ' && whole[i] != '~' && whole[i] != '\r' && whole[i] != '\n'
    {
      assert line[i] == Token(line)[i] != ' ';
      assert line[i] == Underscored(whole)[i];
      assert Replaced(line[..last], '~', ' ')[i] == whole[i];
    }
  }

  lemma MarkOfName(name: string, digits: string)
    requires IsNumeral(digits, 10) && digits != ""
    ensures IsMark(name + "~" + digits) <==> IsMark(name)
  {
    var text := name + "~" + digits;
    assert |name| >= 3 ==> text[0] == name[0] && text[2] == name[2];
    assert |name| == 2 ==> text[2] == '~';
    assert |name| == 1 ==> text[2] == digits[0];
    assert |name| == 0 ==> text[0] == '~';
  }

  /** The samples of this queue of this process can be read. */
  predicate Readable(prefix: string, name: string) {
    IsClean(prefix + name) && prefix + name != "" && !IsMark(name)
  }

  lemma LineOfSample(prefix: string, s: QueueSample)
    requires !IsMark(s.name)
    ensures var item := ItemOf(prefix, RecordOf(s));
      !item.marked && item.line == Underscored(prefix + s.name) + "~" + Numeral(s.value, 10)
  {
    var digits := Numeral(s.value, 10);
    MarkOfName(s.name, digits);
    UnderscoredParts(prefix + s.name, digits);
    assert prefix + TextOf(s) == prefix + s.name + "~" + digits;
    var line := Underscored(prefix + TextOf(s));
    assert line + NumberTail([]) == line;
  }

  lemma MarkedIsNoLevel(prefix: string, r: Record)
    requires IsMark(r.text)
    ensures !ItemEntry(ItemOf(prefix, r)).Level?
  {
  }

  /** The entry of an unmarked line is a level exactly if it splits at a tilde. */
  lemma LevelOfLine(item: Entered)
    requires !item.marked
    ensures var e, split := ItemEntry(item), SplitAt(item.line, '~');
      (e.Level? <==> split.Split?) && (e.Level? ==> e == Level(split.name, split.value))
  {
  }

  /**
   A sample is read as that level of that queue if and only if prefix and name together hold no
   space, tilde or line break, and the name does not look like a mark.
   */
  lemma SampleEntry(prefix: string, s: QueueSample)
    ensures ItemEntry(ItemOf(prefix, RecordOf(s))) == Level(prefix + s.name, s.value) <==> Readable(prefix, s.name)
  {
    var digits := Numeral(s.value, 10);
    var whole := prefix + s.name;
    MarkOfName(s.name, digits);
    if IsMark(s.name) {
      MarkedIsNoLevel(prefix, RecordOf(s));
    } else {
      LineOfSample(prefix, s);
      LevelOfLine(ItemOf(prefix, RecordOf(s)));
      if Readable(prefix, s.name) {
        UnderscoredParts(whole, digits);
        LineSplits(whole, digits);
      } else if ItemEntry(ItemOf(prefix, RecordOf(s))) == Level(whole, s.value) {
        WholeNameIsClean(whole, digits);
      }
    }
  }

  /** None of the characters that start a value behind a name, and no line break. */
  predicate HoldsNoSeparator(s: string) {
    forall i :: 0 <= i < |s| ==> s[i] != '~' && s[i] != '#' && s[i] != '^' && s[i] != '\r' && s[i] != '\n'
  }

  lemma NothingSplits(line: string, c: char)
    requires c !in Token(line)
    ensures SplitAt(line, c) == NoSplit && Tried(line, c) == line
  {
    NoneInToken(line, c);
  }

  lemma {:induction false} TokenStops(head: string, rest: string)
    requires ' ' !in head && rest != "" && rest[0] == ' '
    ensures Token(head + rest) == head
    decreases |head|
  {
    if head == "" {
      assert head + rest == rest;
    } else {
      assert (head + rest)[1..] == head[1..] + rest;
      TokenStops(head[1..], rest);
    }
  }

  /** A first word without separators makes the line a note of that name. */
  lemma FirstWordIsNote(line: string)
    requires HoldsNoSeparator(Token(line))
    ensures PlainEntry(line) == Point(NOTES, Token(line))
  {
    NothingSplits(line, '~');
    NothingSplits(line, '#');
    NothingSplits(line, '^');
  }

  /**
   A space in the process name hides all queues of the process: their samples become notes, all
   on the one timeline named by what stands before the space.
   */
  lemma SpaceHidesQueues(head: string, rest: string, s: QueueSample)
    requires ' ' !in head && HoldsNoSeparator(head) && rest != "" && rest[0] == ' ' && !IsMark(s.name)
    ensures ItemEntry(ItemOf(head + rest, RecordOf(s))) == Point(NOTES, head)
  {
    var digits := Numeral(s.value, 10);
    LineOfSample(head + rest, s);
    var line := Underscored(head + rest + s.name) + "~" + digits;
    var behind := line[|head|..];
    assert Underscored(head + rest + s.name)[..|head|] == head;
    assert line == head + behind && behind[0] == ' ';
    TokenStops(head, behind);
    FirstWordIsNote(line);
  }

  /** So it is for the process "a b" with the number 1. */
  lemma SpacedProcess(s: QueueSample)
    requires !IsMark(s.name)
    ensures ItemEntry(ItemOf("[1:a b]", RecordOf(s))) == Point(NOTES, "[1:a")
  {
    SpaceHidesQueues("[1:a", " b]", s);
    assert "[1:a" + " b]" == "[1:a b]";
  }

  // ------------------------------------------------------------------ suppression

  /** The last sample of this queue, if any. */
  function LastSample(run: seq<QueueSample>, name: string): Option<Word> {
    if run == [] then None
    else if run[|run| - 1].name == name then Some(run[|run| - 1].value)
    else LastSample(run[..|run| - 1], name)
  }

  /** After the samples `run` the sample is sent: it is the first of its queue, or a change. */
  predicate IsSent(run: seq<QueueSample>, s: QueueSample) { LastSample(run, s.name) != Some(s.value) }

  /** The samples that are sent. */
  function Sent(run: seq<QueueSample>): seq<QueueSample> {
    if run == [] then []
    else
      var before, s := run[..|run| - 1], run[|run| - 1];
      if IsSent(before, s) then Sent(before) + [s] else Sent(before)
  }

  /** The static seen and prev variables of all queues of sample_info. */
  class Sampler {
    var prev: map<string, Word>

    ghost predicate Follows(run: seq<QueueSample>)
      reads this
    {
      forall name :: LastSample(run, name) == if name in prev then Some(prev[name]) else None
    }

    constructor ()
      ensures Follows([])
    {
      prev := map[];
    }

    method Take(ghost run: seq<QueueSample>, s: QueueSample) returns (sent: bool)
      requires Follows(run)
      modifies this
      ensures Follows(run + [s]) && (sent <==> IsSent(run, s))
      ensures Sent(run + [s]) == if sent then Sent(run) + [s] else Sent(run)
    {
      ghost var all := run + [s];
      assert all[..|all| - 1] == run && all[|all| - 1] == s;
      if s.name !in prev {
        sent := true;
      } else {
        sent := prev[s.name] != s.value;
      }
      prev := prev[s.name := s.value];
    }
  }

  /** Suppressing unchanged samples loses nothing: every queue's last sent sample is its last. */
  lemma {:induction false} SentKeepsLast(run: seq<QueueSample>, name: string)
    ensures LastSample(Sent(run), name) == LastSample(run, name)
    decreases |run|
  {
    if run != [] {
      var before, s := run[..|run| - 1], run[|run| - 1];
      SentKeepsLast(before, name);
      SentKeepsLast(before, s.name);
      assert (Sent(before) + [s])[..|Sent(before) + [s]| - 1] == Sent(before);
    }
  }

  /** The values of one queue, in order. */
  function ValuesOf(run: seq<QueueSample>, name: string): seq<Word> {
    if run == [] then []
    else
      var before, s := ValuesOf(run[..|run| - 1], name), run[|run| - 1];
      if s.name == name then before + [s.value] else before
  }

  /** A sequence with every element that equals the next one dropped. */
  function Deduped(values: seq<Word>): seq<Word> {
    if |values| < 2 then values
    else if values[0] == values[1] then Deduped(values[1..])
    else [values[0]] + Deduped(values[1..])
  }

  lemma {:induction false} DedupedSnoc(values: seq<Word>, v: Word)
    ensures Deduped(values + [v]) ==
      if values != [] && values[|values| - 1] == v then Deduped(values) else Deduped(values) + [v]
  {
    if |values| >= 2 {
      assert (values + [v])[1..] == values[1..] + [v];
      DedupedSnoc(values[1..], v);
    } else if values == [] {
      assert [] + [v] == [v];
    } else {
      assert (values + [v])[1..] == [v];
    }
  }

  lemma {:induction false} DedupedHasNoRepeats(values: seq<Word>)
    ensures values != [] ==> Deduped(values) != [] && Deduped(values)[0] == values[0]
    ensures forall i :: 0 < i < |Deduped(values)| ==> Deduped(values)[i - 1] != Deduped(values)[i]
  {
    if |values| >= 2 {
      DedupedHasNoRepeats(values[1..]);
    }
  }

  lemma {:induction false} LastOfValues(run: seq<QueueSample>, name: string)
    ensures var values := ValuesOf(run, name);
      LastSample(run, name) == if values == [] then None else Some(values[|values| - 1])
    decreases |run|
  {
    if run != [] {
      LastOfValues(run[..|run| - 1], name);
    }
  }

  lemma ValuesSnoc(run: seq<QueueSample>, s: QueueSample, name: string)
    ensures ValuesOf(run + [s], name) == if s.name == name then ValuesOf(run, name) + [s.value] else ValuesOf(run, name)
  {
    assert (run + [s])[..|run|] == run;
  }

  lemma SentSnoc(run: seq<QueueSample>, s: QueueSample)
    ensures Sent(run + [s]) == if IsSent(run, s) then Sent(run) + [s] else Sent(run)
  {
    assert (run + [s])[..|run|] == run;
  }

  lemma DedupedStep(run: seq<QueueSample>, s: QueueSample, all: seq<QueueSample>, name: string)
    requires ValuesOf(Sent(run), name) == Deduped(ValuesOf(run, name)) && all == run + [s]
    ensures ValuesOf(Sent(all), name) == Deduped(ValuesOf(all, name))
  {
    SentSnoc(run, s);
    ValuesSnoc(run, s, name);
    ValuesSnoc(Sent(run), s, name);
    if s.name == name {
      LastOfValues(run, name);
      DedupedSnoc(ValuesOf(run, name), s.value);
    }
  }

  /**
   Exactly the unchanged samples are dropped: of every queue, what is sent is the sequence of its
   values without the repeats.
   */
  lemma {:induction false} SentIsDeduped(run: seq<QueueSample>, name: string)
    ensures ValuesOf(Sent(run), name) == Deduped(ValuesOf(run, name))
    decreases |run|
  {
    if run != [] {
      var before, s := run[..|run| - 1], run[|run| - 1];
      SentIsDeduped(before, name);
      DedupedStep(before, s, run, name);
    }
  }

  // ------------------------------------------------------------------ runs of calls

  /** What is traced into one buffer: a sample of a queue, or any other record. */
  datatype Call = Sampled(sample: QueueSample) | Traced(rec: Record)

  function SamplesIn(calls: seq<Call>): seq<QueueSample> {
    if calls == [] then []
    else
      var call := calls[|calls| - 1];
      SamplesIn(calls[..|calls| - 1]) + (if call.Sampled? then [call.sample] else [])
  }

  /** The record a call stores after the samples `run`, if any. */
  function Kept(run: seq<QueueSample>, call: Call): seq<Record> {
    match call
    case Sampled(s) => if IsSent(run, s) then [RecordOf(s)] else []
    case Traced(r) => [r]
  }

  /** The records of a run of calls: the samples sent among all other records. */
  function StoredBy(calls: seq<Call>): seq<Record> {
    if calls == [] then []
    else
      var before := calls[..|calls| - 1];
      StoredBy(before) + Kept(SamplesIn(before), calls[|calls| - 1])
  }

  /** Later calls only add records. */
  lemma {:induction false} StoredByPrefix(calls: seq<Call>, k: nat)
    requires k <= |calls|
    ensures StoredBy(calls[..k]) <= StoredBy(calls)
    decreases |calls|
  {
    if k < |calls| {
      var before := calls[..|calls| - 1];
      StoredByPrefix(before, k);
      assert before[..k] == calls[..k];
    } else {
      assert calls[..k] == calls;
    }
  }

  /** The record is read as a level of this queue. */
  predicate Sets(prefix: string, r: Record, queue: string) {
    var input := InputOf(prefix, r);
    input.ToText? && SetsLevel(EventOf(input.item), queue)
  }

  predicate SetsLevel(ev: Event, queue: string) { ev.entry.Level? && ev.entry.name == queue }

  function RecordBy(call: Call): Record {
    match call
    case Sampled(s) => RecordOf(s)
    case Traced(r) => r
  }

  /** The call is a sample of this queue, or its record is not read as a level of it. */
  predicate KeepsOff(prefix: string, call: Call, name: string) {
    (call.Sampled? && call.sample.name == name) || !Sets(prefix, RecordBy(call), prefix + name)
  }

  lemma NamesApart(prefix: string, name: string, other: string)
    ensures prefix + name == prefix + other <==> name == other
  {
    assert (prefix + name)[|prefix|..] == name && (prefix + other)[|prefix|..] == other;
  }

  /** Samples that can be read keep off each other's queues. */
  lemma SamplesKeepOff(prefix: string, s: QueueSample, name: string)
    requires Readable(prefix, s.name)
    ensures KeepsOff(prefix, Sampled(s), name)
  {
    SampleEntry(prefix, s);
    NamesApart(prefix, s.name, name);
  }

  /** The level last reported for a queue, if any was. */
  function LevelSeen(events: seq<Event>, queue: string): Option<int> {
    if events == [] then None
    else
      var ev := events[|events| - 1];
      if SetsLevel(ev, queue) then Some(ev.entry.value) else LevelSeen(events[..|events| - 1], queue)
  }

  lemma LevelSeenSnoc(events: seq<Event>, ev: Event, queue: string)
    ensures LevelSeen(events + [ev], queue) ==
      if SetsLevel(ev, queue) then Some(ev.entry.value) else LevelSeen(events, queue)
  {
    assert (events + [ev])[..|events|] == events;
  }

  /** One more input changes the level seen only if it sets it. */
  lemma LevelSeenBy(events: seq<Event>, input: Input, queue: string)
    ensures LevelSeen(events + EventsBy(input), queue) ==
      if input.ToText? && SetsLevel(EventOf(input.item), queue) then Some(EventOf(input.item).entry.value)
      else LevelSeen(events, queue)
  {
    if input.ToText? {
      LevelSeenSnoc(events, EventOf(input.item), queue);
    } else {
      assert events + [] == events;
    }
  }

  lemma EntryNames(t: Tables, e: Entry, maxTasks: int, queue: string)
    requires Shaped(t) && Sound(e)
    ensures queue in t.names[QUEUES] || (e.Level? && e.name == queue) ==> queue in TablesFor(t, e, maxTasks).names[QUEUES]
  {
    EntryGrows(t, e, maxTasks, QUEUES);
    if e.Level? {
      var t' := Interned(t, TimelineOf(e));
      assert t'.names[QUEUES][SlotOf(t, TimelineOf(e))] == e.name;
    }
  }

  /** The queue whose level was seen is in the tables, and shows that level. */
  lemma {:induction false} SeenIsLast(events: seq<Event>, maxTasks: int, queue: string)
    requires LevelSeen(events, queue).Some?
    ensures queue in TablesOf(events, maxTasks).names[QUEUES]
    ensures LastLevel(events, queue) == LevelSeen(events, queue).value
    decreases |events|
  {
    var before, ev := events[..|events| - 1], events[|events| - 1];
    if !SetsLevel(ev, queue) {
      SeenIsLast(before, maxTasks, queue);
    }
    EntryNames(TablesOf(before, maxTasks), ev.entry, maxTasks, queue);
  }

  lemma SeenIsShown(events: seq<Event>, maxTasks: int, queue: string)
    requires LevelSeen(events, queue).Some?
    ensures QueueShows(TablesOf(events, maxTasks), LinesOf(events, maxTasks), queue, LevelSeen(events, queue).value)
  {
    SeenIsLast(events, maxTasks, queue);
    QueueShowsLevel(events, maxTasks, queue);
  }

  lemma LastSampleSnoc(run: seq<QueueSample>, call: Call, name: string)
    ensures var more := if call.Sampled? then [call.sample] else [];
      LastSample(run + more, name) ==
      if call.Sampled? && call.sample.name == name then Some(call.sample.value) else LastSample(run, name)
  {
    if call.Sampled? {
      assert (run + [call.sample])[..|run|] == run;
    } else {
      assert run + [] == run;
    }
  }

  /** What one more call does to the level of a queue, as the translator sees it. */
  lemma LevelOfCall(prefix: string, rs: seq<Record>, run: seq<QueueSample>, call: Call, name: string)
    requires Readable(prefix, name) && KeepsOff(prefix, call, name)
    requires LevelSeen(EventsIn(prefix, rs), prefix + name) == LastSample(run, name)
    ensures LevelSeen(EventsIn(prefix, rs + Kept(run, call)), prefix + name) ==
      if call.Sampled? && call.sample.name == name then Some(call.sample.value) else LastSample(run, name)
  {
    var kept := Kept(run, call);
    if kept == [] {
      assert rs + kept == rs;
    } else {
      var r := RecordBy(call);
      assert kept == [r];
      EventsInSnoc(prefix, rs, r);
      LevelSeenBy(EventsIn(prefix, rs), InputOf(prefix, r), prefix + name);
      if call.Sampled? && call.sample.name == name {
        SampleEntry(prefix, call.sample);
      }
    }
  }

  /** The level the translator sees of a queue is its last sample, sent or suppressed. */
  lemma {:induction false} LevelsOfCalls(prefix: string, calls: seq<Call>, name: string)
    requires Readable(prefix, name) && forall i :: 0 <= i < |calls| ==> KeepsOff(prefix, calls[i], name)
    ensures LevelSeen(EventsIn(prefix, StoredBy(calls)), prefix + name) == LastSample(SamplesIn(calls), name)
    decreases |calls|
  {
    if calls != [] {
      var before, call := calls[..|calls| - 1], calls[|calls| - 1];
      LevelsOfCalls(prefix, before, name);
      LevelOfCall(prefix, StoredBy(before), SamplesIn(before), call, name);
      LastSampleSnoc(SamplesIn(before), call, name);
    }
  }

  // ------------------------------------------------------------------ end to end

  /** The inputs read from the records of the first `k` calls are those records'. */
  lemma PartIsRead(
    prefix: string, calls: seq<Call>, mem: seq<Word>, p: nat, end: nat, inputs: seq<Input>, k: nat)
    requires IsText(prefix) && Chain(mem, p, StoredBy(calls), end) && end + 2 < |mem|
    requires NoneMisread(StoredBy(calls)) && ReadsAs(prefix, mem, p, StoredBy(calls), inputs) && k <= |calls|
    ensures |StoredBy(calls[..k])| <= |inputs|
    ensures EventsFrom(inputs[..|StoredBy(calls[..k])|]) == EventsIn(prefix, StoredBy(calls[..k]))
  {
    var rs, part := StoredBy(calls), StoredBy(calls[..k]);
    StoredByPrefix(calls, k);
    forall j: nat | j < |rs| {
      ReadBack(prefix, mem, p, rs, end, inputs, j);
    }
    EventsRead(prefix, part, inputs[..|part|]);
  }

  /** A queue shows the last sample of a run of calls, and no delta goes backwards. */
  lemma CallsShow(prefix: string, calls: seq<Call>, maxTasks: int, name: string)
    requires Readable(prefix, name) && forall i :: 0 <= i < |calls| ==> KeepsOff(prefix, calls[i], name)
    requires LastSample(SamplesIn(calls), name).Some?
    ensures ShowsSample(EventsIn(prefix, StoredBy(calls)), maxTasks, prefix + name, LastSample(SamplesIn(calls), name).value)
  {
    LevelsOfCalls(prefix, calls, name);
    SeenIsShown(EventsIn(prefix, StoredBy(calls)), maxTasks, prefix + name);
    DeltasAreForward(EventsIn(prefix, StoredBy(calls)), maxTasks);
  }

  /** On the queue's timeline STA minus STO is `value`, and every amount is non-negative. */
  ghost predicate ShowsSample(events: seq<Event>, maxTasks: int, queue: string, value: int) {
    && QueueShows(TablesOf(events, maxTasks), LinesOf(events, maxTasks), queue, value)
    && Forward(LinesOf(events, maxTasks))
  }

  /**
   End to end: take any run of queue samples among any other trace records, store the others
   and what the sampler sends, read the buffer back and translate it. After the records of any
   number `k` of the calls, STA minus STO on the queue's timeline is the last sample of those
   calls, and every delta so far is non-negative.
   */
  lemma QueueFidelity(
    prefix: string, calls: seq<Call>, mem: seq<Word>, p: nat, end: nat, inputs: seq<Input>, maxTasks: int, name: string,
    k: nat)
    requires IsText(prefix) && Chain(mem, p, StoredBy(calls), end) && end + 2 < |mem|
    requires NoneMisread(StoredBy(calls)) && ReadsAs(prefix, mem, p, StoredBy(calls), inputs)
    requires Readable(prefix, name) && forall i :: 0 <= i < |calls| ==> KeepsOff(prefix, calls[i], name)
    requires k <= |calls| && LastSample(SamplesIn(calls[..k]), name).Some?
    ensures |StoredBy(calls[..k])| <= |inputs|
    ensures ShowsSample(EventsFrom(inputs[..|StoredBy(calls[..k])|]), maxTasks, prefix + name,
                        LastSample(SamplesIn(calls[..k]), name).value)
  {
    PartIsRead(prefix, calls, mem, p, end, inputs, k);
    CallsShow(prefix, calls[..k], maxTasks, name);
  }
}
