/**
 From a record in memory to the translator's line: which records go there at all, and what line
 it makes of the bytes it finds.
 */
module RecordItems {
  import opened Words
  import opened Records
  import opened TextLine
  import opened Translator
  import opened TimelineRuns

  lemma {:induction false} BytesOfConcat(a: seq<Word>, b: seq<Word>)
    ensures BytesOf(a + b) == BytesOf(a) + BytesOf(b)
  {
    if a == [] {
      assert a + b == b;
    } else {
      assert (a + b)[1..] == a[1..] + b;
      BytesOfConcat(a[1..], b);
    }
  }

  /** What the translator makes of a parsed header: the bytes run on into the memory behind. */
  function ItemAt(prefix: string, mem: seq<Word>, h: Header): Item
    requires h.numbersAt <= h.textAt <= |mem| && h.textLen >= 0
  {
    var bytes := BytesOf(mem[h.textAt..]);
    Item(IsMark(bytes),
         Underscored(Rebuilt(prefix, bytes, h.textLen, h.id)) + NumberTail(mem[h.numbersAt..h.textAt]),
         |prefix|, h.timestamp)
  }

  /** The item of a record, in terms of what was traced. */
  function ItemOf(prefix: string, r: Record): (item: Entered) {
    Item(IsMark(r.text), Underscored(Shown(prefix, r.text, r.id)) + NumberTail(r.numbers),
         |prefix|, Timestamp(r.sec, r.nsec))
  }

  /**
   The translator works on exactly the text, numbers and identifier that were traced. Without
   text that takes memory behind the record that does not look marked.
   */
  lemma ItemIsFaithful(prefix: string, mem: seq<Word>, h: Header, r: Record)
    requires IsText(prefix) && Describes(mem, h, r)
    requires r.text == "" ==> !IsMark(BytesOf(mem[h.next..]))
    ensures h.numbersAt <= h.textAt <= |mem| && h.textLen >= 0
    ensures ItemAt(prefix, mem, h) == ItemOf(prefix, r)
  {
    var rest := BytesOf(mem[h.next..]);
    assert mem[h.textAt..] == mem[h.textAt..h.next] + mem[h.next..];
    BytesOfConcat(mem[h.textAt..h.next], mem[h.next..]);
    assert BytesOf(mem[h.textAt..]) == Padded(r.text) + rest && h.textLen == |Padded(r.text)|;
    RebuiltIsShown(prefix, r.text, rest, r.id);
  }

  lemma RebuiltIsShown(prefix: string, text: string, rest: string, id: Byte)
    requires IsText(prefix) && IsText(text) && (text == "" ==> !IsMark(rest))
    ensures IsMark(Padded(text) + rest) <==> IsMark(text)
    ensures Rebuilt(prefix, Padded(text) + rest, |Padded(text)|, id) == Shown(prefix, text, id)
  {
    if text == "" {
      assert Padded(text) + rest == rest;
      EmptyTextShown(prefix, rest, id);
    } else {
      MarkOfPadded(text, rest);
      TextRecovered(prefix, text, rest, id);
    }
  }

  // ------------------------------------------------------------------ tables and text

  /** Identifiers CPUINFO to NETSLIST: their records go to the tables, not to the text path. */
  predicate IsTable(id: Byte) { 128 <= id <= 138 }

  datatype RawInput = ToTables | ToText(item: Item)

  /** What one call of the translator does first: dispatch, or build the line. */
  type Input = i: RawInput | i.ToText? ==> WellFormed(i.item) witness ToTables

  function InputAt(prefix: string, mem: seq<Word>, h: Header): RawInput
    requires h.numbersAt <= h.textAt <= |mem| && h.textLen >= 0
  {
    if IsTable(h.id) then ToTables else ToText(ItemAt(prefix, mem, h))
  }

  function InputOf(prefix: string, r: Record): Input {
    if IsTable(r.id) then ToTables else ToText(ItemOf(prefix, r))
  }

  /** The identifiers that never reach the text path, one by one. */
  lemma TablesTake(prefix: string, r: Record)
    ensures InputOf(prefix, r).ToTables? <==> r.id in {128, 129, 130, 131, 132, 133, 134, 135, 136, 137, 138}
  {
  }

  /** The events on the text path. */
  function EventsBy(input: Input): seq<Event> {
    if input.ToText? then [EventOf(input.item)] else []
  }

  function EventsFrom(inputs: seq<Input>): seq<Event> {
    if inputs == [] then [] else EventsFrom(inputs[..|inputs| - 1]) + EventsBy(inputs[|inputs| - 1])
  }

  /** How the translator sees the records of one process. */
  function EventsIn(prefix: string, rs: seq<Record>): seq<Event> {
    if rs == [] then [] else EventsIn(prefix, rs[..|rs| - 1]) + EventsBy(InputOf(prefix, rs[|rs| - 1]))
  }

  lemma EventsInSnoc(prefix: string, rs: seq<Record>, r: Record)
    ensures EventsIn(prefix, rs + [r]) == EventsIn(prefix, rs) + EventsBy(InputOf(prefix, r))
  {
    assert (rs + [r])[..|rs|] == rs;
  }

  lemma EventsFromSnoc(inputs: seq<Input>, input: Input)
    ensures EventsFrom(inputs + [input]) == EventsFrom(inputs) + EventsBy(input)
  {
    assert (inputs + [input])[..|inputs|] == inputs;
  }

  // ------------------------------------------------------------------ reading a chain

  /** No text record without text is followed by a record whose marker looks like text. */
  predicate NoneMisread(rs: seq<Record>) {
    forall k :: 0 < k < |rs| ==> rs[k - 1].text != "" || IsTable(rs[k - 1].id) || !LooksMarked(rs[k])
  }

  lemma BytesAt(mem: seq<Word>, at: nat)
    requires at < |mem|
    ensures BytesOf(mem[at..]) == BytesOf([mem[at]]) + BytesOf(mem[at + 1..])
  {
    assert mem[at..] == [mem[at]] + mem[at + 1..];
    BytesOfConcat([mem[at]], mem[at + 1..]);
  }

  /** What follows a text record in a chain then does not look marked to it. */
  lemma NextIsNotMarked(mem: seq<Word>, p: nat, rs: seq<Record>, end: nat, k: nat)
    requires Chain(mem, p, rs, end) && k < |rs| && NoneMisread(rs) && rs[k].text == "" && !IsTable(rs[k].id)
    ensures OffsetOf(p, rs, k + 1) < |mem| && !IsMark(BytesOf(mem[OffsetOf(p, rs, k + 1)..]))
  {
    var at := OffsetOf(p, rs, k + 1);
    ChainAt(mem, p, rs, end, k + 1);
    ChainEnd(mem, p, rs, end);
    BytesAt(mem, at);
    if k + 1 < |rs| {
      HoldsMarker(mem, at, rs[k + 1]);
      EmptyTextMisread(rs[k + 1], BytesOf(mem[at + 1..]));
    } else {
      assert BytesOf([0])[0] == OctetAt(0, 0) == '\0';
    }
  }

  /** What a reader of memory hands to the translator, record by record. */
  ghost predicate ReadsAs(prefix: string, mem: seq<Word>, p: nat, rs: seq<Record>, inputs: seq<Input>) {
    && |inputs| == |rs|
    && forall k :: 0 <= k < |rs| ==>
         && OffsetOf(p, rs, k) + 2 < |mem|
         && var h := ParseAt(mem, OffsetOf(p, rs, k));
            h.numbersAt <= h.textAt <= |mem| && h.textLen >= 0 && inputs[k] == InputAt(prefix, mem, h)
  }

  /** That is what was traced. */
  lemma ReadBack(prefix: string, mem: seq<Word>, p: nat, rs: seq<Record>, end: nat, inputs: seq<Input>, k: nat)
    requires IsText(prefix) && Chain(mem, p, rs, end) && end + 2 < |mem| && NoneMisread(rs)
    requires ReadsAs(prefix, mem, p, rs, inputs) && k < |rs|
    ensures inputs[k] == InputOf(prefix, rs[k])
  {
    ChainRoundTrip(mem, p, rs, end, k);
    if !IsTable(rs[k].id) {
      if rs[k].text == "" {
        NextIsNotMarked(mem, p, rs, end, k);
      }
      ItemIsFaithful(prefix, mem, ParseAt(mem, OffsetOf(p, rs, k)), rs[k]);
    }
  }

  lemma {:induction false} EventsRead(prefix: string, rs: seq<Record>, inputs: seq<Input>)
    requires |inputs| == |rs| && forall k :: 0 <= k < |rs| ==> inputs[k] == InputOf(prefix, rs[k])
    ensures EventsFrom(inputs) == EventsIn(prefix, rs)
    decreases |rs|
  {
    if rs != [] {
      EventsRead(prefix, rs[..|rs| - 1], inputs[..|rs| - 1]);
    }
  }
}
