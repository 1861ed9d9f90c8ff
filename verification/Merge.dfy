/**
 Playing out all trace buffers: `parse` as an object that updates its cursor and header, the
 two selection loops, and the loop that emits the records of all buffers by timestamp.
 */
module Merge {
  import opened Words
  import opened Records

  /** What one call of the translator is given for a record. */
  datatype View = View(timestamp: nat, id: Byte, numbers: seq<Word>, region: string)

  function ViewOf(r: Record): View {
    View(Timestamp(r.sec, r.nsec), r.id, r.numbers, Padded(r.text))
  }

  /** The translator is given exactly what was traced; the text ends at the first zero byte. */
  lemma ViewShowsRecord(r: Record)
    ensures var v := ViewOf(r);
      && v.timestamp == Timestamp(r.sec, r.nsec) && v.id == r.id && v.numbers == r.numbers
      && |v.region| == 4 * (Size(r) - 3 - |r.numbers|) && |r.text| <= |v.region| < |r.text| + 4
      && v.region[..|r.text|] == r.text && forall i :: |r.text| <= i < |v.region| ==> v.region[i] == '\0'
  {
    PaddedLength(r.text);
    DwordsOfLength(Padded(r.text));
  }

  function Views(rs: seq<Record>): (vs: seq<View>)
    ensures |vs| == |rs|
  {
    seq(|rs|, i requires 0 <= i < |rs| => ViewOf(rs[i]))
  }

  datatype Played = Played(source: nat, view: View)

  datatype Head = Gone | At(timestamp: nat)

  // ------------------------------------------------------------------ the order of play

  ghost predicate IsLastValid(heads: seq<Head>, d: int) {
    0 <= d < |heads| && heads[d].At? && forall i :: d < i < |heads| ==> heads[i].Gone?
  }

  /**
   The buffer played next has a least timestamp; among equals it is the last valid buffer if
   that is one of them, and the lowest otherwise.
   */
  ghost predicate IsPick(heads: seq<Head>, d: int) {
    && 0 <= d < |heads| && heads[d].At?
    && (forall i :: 0 <= i < |heads| && heads[i].At? ==> heads[d].timestamp <= heads[i].timestamp)
    && (IsLastValid(heads, d) ||
        ((forall i :: IsLastValid(heads, i) ==> heads[d].timestamp < heads[i].timestamp) &&
         (forall i :: 0 <= i < d && heads[i].At? ==> heads[d].timestamp < heads[i].timestamp)))
  }

  lemma {:induction false} LastValidExists(heads: seq<Head>, d: nat)
    requires d < |heads| && heads[d].At?
    ensures exists v :: IsLastValid(heads, v)
    decreases |heads| - d
  {
    if i :| d < i < |heads| && heads[i].At? {
      LastValidExists(heads, i);
    } else {
      assert IsLastValid(heads, d);
    }
  }

  lemma PickIsUnique(heads: seq<Head>, d: int, e: int)
    requires IsPick(heads, d) && IsPick(heads, e)
    ensures d == e
  {
    assert heads[d].timestamp == heads[e].timestamp;
    LastValidExists(heads, d);
  }

  /** The records of one source among those played, in the order played. */
  function FromSource(out: seq<Played>, i: nat): seq<View> {
    if out == [] then []
    else
      var last := out[|out| - 1];
      FromSource(out[..|out| - 1], i) + (if last.source == i then [last.view] else [])
  }

  lemma FromSourceSnoc(out: seq<Played>, p: Played, i: nat)
    ensures FromSource(out + [p], i) == if p.source == i then FromSource(out, i) + [p.view] else FromSource(out, i)
  {
    assert (out + [p])[..|out|] == out;
  }

  /** What source `i` still has to play. */
  function Rest(source: seq<View>, played: nat): seq<View> {
    if played <= |source| then source[played..] else []
  }

  function HeadOf(rest: seq<View>): Head {
    if rest == [] then Gone else At(rest[0].timestamp)
  }

  function HeadsAfter(sources: seq<seq<View>>, out: seq<Played>): (heads: seq<Head>)
    ensures |heads| == |sources|
  {
    seq(|sources|, i requires 0 <= i < |sources| => HeadOf(Rest(sources[i], |FromSource(out, i)|)))
  }

  /** The next record played is the head of the buffer to be picked. */
  ghost predicate IsNext(sources: seq<seq<View>>, out: seq<Played>, p: Played) {
    && IsPick(HeadsAfter(sources, out), p.source)
    && p.view == Rest(sources[p.source], |FromSource(out, p.source)|)[0]
  }

  /** Every record played was the next one at its time. */
  ghost predicate PlaysOut(sources: seq<seq<View>>, out: seq<Played>) {
    forall k {:trigger IsNext(sources, out[..k], out[k])} ::
      0 <= k < |out| ==> IsNext(sources, out[..k], out[k])
  }

  /** Every source is played to its end. */
  ghost predicate Complete(sources: seq<seq<View>>, out: seq<Played>) {
    PlaysOut(sources, out) && forall i :: 0 <= i < |sources| ==> HeadsAfter(sources, out)[i].Gone?
  }

  lemma PlaysOutSnoc(sources: seq<seq<View>>, out: seq<Played>, p: Played)
    requires PlaysOut(sources, out) && IsNext(sources, out, p)
    ensures PlaysOut(sources, out + [p])
  {
    var out' := out + [p];
    forall k | 0 <= k < |out'|
      ensures IsNext(sources, out'[..k], out'[k])
    {
      assert out'[..k] == out[..k];
      assert if k == |out| then out[..k] == out else IsNext(sources, out[..k], out[k]);
    }
  }

  /** A playout up to some point is one. */
  lemma PrefixPlaysOut(sources: seq<seq<View>>, out: seq<Played>, n: nat)
    requires PlaysOut(sources, out) && n <= |out|
    ensures PlaysOut(sources, out[..n])
    ensures n < |out| ==> IsNext(sources, out[..n], out[n])
  {
    forall k | 0 <= k < n
      ensures IsNext(sources, out[..n][..k], out[..n][k])
    {
      assert out[..n][..k] == out[..k] && IsNext(sources, out[..k], out[k]);
    }
    assert n < |out| ==> IsNext(sources, out[..n], out[n]);
  }

  /** A playout is a shorter one and its last step. */
  lemma LastStep(sources: seq<seq<View>>, out: seq<Played>) returns (before: seq<Played>, p: Played)
    requires PlaysOut(sources, out) && out != []
    ensures out == before + [p] && |before| < |out|
    ensures PlaysOut(sources, before) && IsNext(sources, before, p)
  {
    before, p := out[..|out| - 1], out[|out| - 1];
    PrefixPlaysOut(sources, out, |out| - 1);
  }

  lemma RestSplits(source: seq<View>, played: seq<View>, v: View)
    requires |played| < |source| && played + Rest(source, |played|) == source
    requires v == Rest(source, |played|)[0]
    ensures played + [v] + Rest(source, |played| + 1) == source
  {
    assert Rest(source, |played|) == [v] + Rest(source, |played| + 1);
  }

  /** A picked source has something left to play. */
  lemma NextIsLeft(sources: seq<seq<View>>, out: seq<Played>, p: Played)
    requires IsNext(sources, out, p)
    ensures |FromSource(out, p.source)| < |sources[p.source]|
  {
    assert HeadsAfter(sources, out)[p.source].At?;
  }

  /** What was played of source `i` and its rest make up the source. */
  ghost predicate Accounted(sources: seq<seq<View>>, out: seq<Played>, i: nat)
    requires i < |sources|
  {
    && |FromSource(out, i)| <= |sources[i]|
    && FromSource(out, i) + Rest(sources[i], |FromSource(out, i)|) == sources[i]
  }

  lemma AccountedStep(sources: seq<seq<View>>, out: seq<Played>, p: Played, i: nat)
    requires i < |sources| && Accounted(sources, out, i) && IsNext(sources, out, p)
    ensures Accounted(sources, out + [p], i)
  {
    FromSourceSnoc(out, p, i);
    if p.source == i {
      NextIsLeft(sources, out, p);
      RestSplits(sources[i], FromSource(out, i), p.view);
    }
  }

  lemma NothingPlayed(sources: seq<seq<View>>, i: nat)
    requires i < |sources|
    ensures Accounted(sources, [], i)
  {
    assert Rest(sources[i], 0) == sources[i];
  }

  /** Nothing is lost, duplicated or reordered: each source is what was played of it and its rest. */
  lemma {:induction false} Interleaving(sources: seq<seq<View>>, out: seq<Played>, i: nat)
    requires PlaysOut(sources, out) && i < |sources|
    ensures Accounted(sources, out, i)
    decreases |out|
  {
    if out == [] {
      NothingPlayed(sources, i);
    } else {
      var before, p := LastStep(sources, out);
      Interleaving(sources, before, i);
      AccountedStep(sources, before, p, i);
    }
  }

  lemma CompleteInterleaving(sources: seq<seq<View>>, out: seq<Played>, i: nat)
    requires Complete(sources, out) && i < |sources|
    ensures FromSource(out, i) == sources[i]
  {
    Interleaving(sources, out, i);
    assert HeadsAfter(sources, out)[i].Gone?;
  }

  /** Only buffers that exist are played. */
  lemma SourceExists(sources: seq<seq<View>>, out: seq<Played>, k: nat)
    requires PlaysOut(sources, out) && k < |out|
    ensures out[k].source < |sources|
  {
    assert IsNext(sources, out[..k], out[k]);
  }

  ghost predicate Sorted(views: seq<View>) {
    forall i, j :: 0 <= i < j < |views| ==> views[i].timestamp <= views[j].timestamp
  }

  ghost predicate SortedOut(out: seq<Played>) {
    forall i, j :: 0 <= i < j < |out| ==> out[i].view.timestamp <= out[j].view.timestamp
  }

  /** Everything played so far is no later than anything still to be played. */
  ghost predicate Behind(sources: seq<seq<View>>, out: seq<Played>) {
    forall k, i :: 0 <= k < |out| && 0 <= i < |sources| && HeadsAfter(sources, out)[i].At? ==>
      out[k].view.timestamp <= HeadsAfter(sources, out)[i].timestamp
  }

  /** After a play the head of the picked source moves on; the other heads stay. */
  lemma HeadsMove(sources: seq<seq<View>>, out: seq<Played>, p: Played, i: nat)
    requires PlaysOut(sources, out) && IsNext(sources, out, p) && i < |sources|
    ensures i != p.source ==> HeadsAfter(sources, out + [p])[i] == HeadsAfter(sources, out)[i]
    ensures HeadsAfter(sources, out)[p.source] == At(p.view.timestamp)
    ensures i == p.source && Sorted(sources[i]) && HeadsAfter(sources, out + [p])[i].At? ==>
      p.view.timestamp <= HeadsAfter(sources, out + [p])[i].timestamp
  {
    FromSourceSnoc(out, p, i);
    Interleaving(sources, out, p.source);
  }

  lemma SortedStep(sources: seq<seq<View>>, out: seq<Played>, p: Played)
    requires PlaysOut(sources, out) && IsNext(sources, out, p) && SortedOut(out) && Behind(sources, out)
    requires forall i :: 0 <= i < |sources| ==> Sorted(sources[i])
    ensures SortedOut(out + [p]) && Behind(sources, out + [p])
  {
    var out' := out + [p];
    HeadsMove(sources, out, p, p.source);
    forall k | 0 <= k < |out'|
      ensures out'[k].view.timestamp <= p.view.timestamp
    {
      assert k < |out| ==> out'[k] == out[k];
    }
    forall k, i | 0 <= k < |out'| && 0 <= i < |sources| && HeadsAfter(sources, out')[i].At?
      ensures out'[k].view.timestamp <= HeadsAfter(sources, out')[i].timestamp
    {
      HeadsMove(sources, out, p, i);
    }
  }

  /** Sorted buffers give a sorted playout. */
  lemma {:induction false} SortedPlayout(sources: seq<seq<View>>, out: seq<Played>)
    requires PlaysOut(sources, out)
    requires forall i :: 0 <= i < |sources| ==> Sorted(sources[i])
    ensures SortedOut(out) && Behind(sources, out)
    decreases |out|
  {
    if out != [] {
      var before, p := LastStep(sources, out);
      SortedPlayout(sources, before);
      SortedStep(sources, before, p);
    }
  }

  /** The playout is determined by the buffers: all its ties are decided. */
  lemma {:induction false} PlayoutIsDetermined(sources: seq<seq<View>>, out: seq<Played>, out': seq<Played>)
    requires PlaysOut(sources, out) && PlaysOut(sources, out') && |out| == |out'|
    ensures out == out'
    decreases |out|
  {
    if out != [] {
      var before, p := LastStep(sources, out);
      var before', p' := LastStep(sources, out');
      PlayoutIsDetermined(sources, before, before');
      PickIsUnique(HeadsAfter(sources, before), p.source, p'.source);
    }
  }

  /** The last timestamp played, 0 before anything was. */
  function LastStamp(out: seq<Played>): nat {
    if out == [] then 0 else out[|out| - 1].view.timestamp
  }

  /** The timestamp of the closing TDITRACE_EXIT entry, 0.1 s behind the last one played. */
  function ExitStamp(last: nat): nat {
    (last + 100 * 1_000_000) % 0x1_0000_0000_0000_0000
  }

  // ------------------------------------------------------------------ the loops

  /** One entry of the tracebuffers table: the mapped buffer, the cursor and the parsed header. */
  class Reader {
    const data: array<Word>
    var ptr: nat
    var head: Header

    constructor (data: array<Word>, start: nat)
      ensures this.data == data && ptr == start && !head.valid
    {
      this.data := data;
      ptr := start;
      head := Header(false, 0, 0, 0, 0, 0, 0, start);
    }

    /** parse: take the header at the cursor and move the cursor past the record. */
    method Parse()
      requires ptr + 2 < data.Length
      modifies this
      ensures head == ParseAt(data[..], old(ptr)) && ptr == head.next
    {
      head := ParseAt(data[..], ptr);
      ptr := head.next;
    }

    function Shown(): View
      requires head.numbersAt <= head.textAt <= head.next <= data.Length
      reads this, data
    {
      View(head.timestamp, head.id, data[head.numbersAt..head.textAt], BytesOf(data[head.textAt..head.next]))
    }

    /** The header describes the first of `left`, and the cursor is at the chain of the others. */
    ghost predicate Holding(left: seq<Record>, end: nat)
      reads this, data
    {
      && end + 2 < data.Length
      && if left == [] then !head.valid && ptr == end && Chain(data[..], end, [], end)
         else
           && head.next == ptr
           && Describes(data[..], head, left[0])
           && Chain(data[..], ptr, left[1..], end)
    }

    /** Before the first parse: the cursor is at the chain of all its records. */
    ghost predicate Ready(rs: seq<Record>, end: nat)
      reads this, data
    {
      Chain(data[..], ptr, rs, end) && end + 2 < data.Length
    }

    /** The next parse moves the reader to the next record or to the end. */
    method Advance(ghost left: seq<Record>, ghost end: nat)
      requires Ready(left, end)
      modifies this
      ensures Holding(left, end)
    {
      ChainEnd(data[..], ptr, left, end);
      if left == [] {
        ParseEnd(data[..], ptr);
      } else {
        ParseStored(data[..], ptr, left[0]);
      }
      Parse();
    }
  }

  lemma HoldingShows(r: Reader, left: seq<Record>, end: nat)
    requires r.Holding(left, end)
    ensures r.head.valid <==> left != []
    ensures left != [] ==>
      && r.head.numbersAt <= r.head.textAt <= r.head.next <= r.data.Length
      && r.Shown() == ViewOf(left[0]) && r.head.timestamp == ViewOf(left[0]).timestamp
  {
  }

  function HeadsOf(readers: seq<Reader>): (heads: seq<Head>)
    reads readers
    ensures |heads| == |readers|
  {
    seq(|readers|, i requires 0 <= i < |readers| reads readers =>
      if readers[i].head.valid then At(readers[i].head.timestamp) else Gone)
  }

  /** The selection loops: the last valid buffer first, then any strictly earlier one. */
  method Select(readers: seq<Reader>) returns (d: int)
    ensures d == -1 ==> forall i :: 0 <= i < |readers| ==> HeadsOf(readers)[i].Gone?
    ensures d != -1 ==> IsPick(HeadsOf(readers), d)
  {
    ghost var heads := HeadsOf(readers);
    d := -1;
    for i := 0 to |readers|
      invariant d == -1 ==> forall j :: 0 <= j < i ==> heads[j].Gone?
      invariant d != -1 ==> 0 <= d < i && heads[d].At? && forall j :: d < j < i ==> heads[j].Gone?
    {
      if readers[i].head.valid {
        d := i;
      }
    }
    if d == -1 {
      return;
    }
    ghost var last := d;
    for i := 0 to |readers|
      invariant 0 <= d < |readers| && heads[d].At?
      invariant forall j :: 0 <= j < i && heads[j].At? ==> heads[d].timestamp <= heads[j].timestamp
      invariant d == last || (d < i && heads[d].timestamp < heads[last].timestamp &&
                              forall j :: 0 <= j < d && heads[j].At? ==> heads[d].timestamp < heads[j].timestamp)
    {
      if readers[i].head.valid && readers[i].head.timestamp < readers[d].head.timestamp {
        d := i;
      }
    }
  }

  ghost predicate Distinct(readers: seq<Reader>) {
    forall i, j :: 0 <= i < j < |readers| ==> readers[i] != readers[j]
  }

  ghost predicate AllHolding(readers: seq<Reader>, left: seq<seq<Record>>, ends: seq<nat>)
    reads readers, set i | 0 <= i < |readers| :: readers[i].data
  {
    && |readers| == |left| == |ends|
    && forall i :: 0 <= i < |readers| ==> readers[i].Holding(left[i], ends[i])
  }

  /** What the readers still hold agrees with what the playout has left of each source. */
  ghost predicate Agrees(sources: seq<seq<View>>, out: seq<Played>, left: seq<seq<Record>>) {
    && |left| == |sources|
    && forall i :: 0 <= i < |left| ==> Views(left[i]) == Rest(sources[i], |FromSource(out, i)|)
  }

  lemma HeadsAgree(readers: seq<Reader>, sources: seq<seq<View>>, out: seq<Played>, left: seq<seq<Record>>, ends: seq<nat>)
    requires AllHolding(readers, left, ends) && Agrees(sources, out, left)
    ensures HeadsOf(readers) == HeadsAfter(sources, out)
  {
    forall i | 0 <= i < |readers|
      ensures HeadsOf(readers)[i] == HeadsAfter(sources, out)[i]
    {
      HoldingShows(readers[i], left[i], ends[i]);
      assert |Views(left[i])| == |left[i]|;
      assert left[i] != [] ==> Views(left[i])[0] == ViewOf(left[i][0]);
    }
  }

  lemma RestTail(source: seq<View>, played: nat)
    requires played < |source|
    ensures Rest(source, played)[1..] == Rest(source, played + 1)
  {
  }

  lemma ViewsTail(rs: seq<Record>)
    requires rs != []
    ensures Views(rs)[0] == ViewOf(rs[0]) && Views(rs[1..]) == Views(rs)[1..]
  {
  }

  /** The played source moves on by one; every other source stays. */
  lemma PlayAgreesAt(sources: seq<seq<View>>, out: seq<Played>, left: seq<seq<Record>>, d: nat, i: nat)
    requires PlaysOut(sources, out) && Agrees(sources, out, left)
    requires d < |left| && left[d] != [] && i < |left|
    ensures var p := Played(d, ViewOf(left[d][0]));
      Views(left[d := left[d][1..]][i]) == Rest(sources[i], |FromSource(out + [p], i)|)
  {
    var p := Played(d, ViewOf(left[d][0]));
    FromSourceSnoc(out, p, i);
    if i == d {
      ViewsTail(left[d]);
      RestTail(sources[d], |FromSource(out, d)|);
    }
  }

  /** Playing the picked reader's record is the next step, and leaves the rest of its source. */
  lemma PlayAgrees(sources: seq<seq<View>>, out: seq<Played>, left: seq<seq<Record>>, d: nat)
    requires PlaysOut(sources, out) && Agrees(sources, out, left)
    requires IsPick(HeadsAfter(sources, out), d) && left[d] != []
    ensures PlaysOut(sources, out + [Played(d, ViewOf(left[d][0]))])
    ensures Agrees(sources, out + [Played(d, ViewOf(left[d][0]))], left[d := left[d][1..]])
  {
    ViewsTail(left[d]);
    PlaysOutSnoc(sources, out, Played(d, ViewOf(left[d][0])));
    forall i: nat | i < |left| {
      PlayAgreesAt(sources, out, left, d, i);
    }
  }

  lemma StartAgrees(rs: seq<seq<Record>>, sources: seq<seq<View>>)
    requires |sources| == |rs| && forall i :: 0 <= i < |rs| ==> sources[i] == Views(rs[i])
    ensures Agrees(sources, [], rs)
  {
    assert forall i :: 0 <= i < |rs| ==> Rest(sources[i], 0) == sources[i];
  }

  /** After `i` parses: the readers before `i` hold a header, the others are still to start. */
  ghost predicate Started(readers: seq<Reader>, i: nat, rs: seq<seq<Record>>, ends: seq<nat>)
    requires |readers| == |rs| == |ends|
    reads readers, set k | 0 <= k < |readers| :: readers[k].data
  {
    forall j :: 0 <= j < |readers| ==> if j < i then readers[j].Holding(rs[j], ends[j]) else readers[j].Ready(rs[j], ends[j])
  }

  /** The first loop: one `parse` for every buffer. */
  method ParseAll(readers: seq<Reader>, ghost rs: seq<seq<Record>>, ghost ends: seq<nat>)
    requires Distinct(readers) && |readers| == |rs| == |ends|
    requires forall i :: 0 <= i < |readers| ==> readers[i].Ready(rs[i], ends[i])
    modifies readers
    ensures AllHolding(readers, rs, ends)
  {
    for i := 0 to |readers|
      invariant Started(readers, i, rs, ends)
    {
      ParseOne(readers, i, rs, ends);
    }
  }

  method ParseOne(readers: seq<Reader>, i: nat, ghost rs: seq<seq<Record>>, ghost ends: seq<nat>)
    requires Distinct(readers) && |readers| == |rs| == |ends| && i < |readers|
    requires Started(readers, i, rs, ends)
    modifies readers[i]
    ensures Started(readers, i + 1, rs, ends)
  {
    readers[i].Advance(rs[i], ends[i]);
    forall j | 0 <= j < |readers| && j != i
      ensures if j < i then readers[j].Holding(rs[j], ends[j]) else readers[j].Ready(rs[j], ends[j])
    {
      assert readers[j] != readers[i];
    }
  }

  /** Emit the record the picked reader holds and parse that buffer's next one. */
  method PlayNext(readers: seq<Reader>, d: nat, ghost left: seq<seq<Record>>, ghost ends: seq<nat>)
    returns (p: Played)
    requires Distinct(readers) && AllHolding(readers, left, ends) && d < |readers| && left[d] != []
    modifies readers[d]
    ensures p == Played(d, ViewOf(left[d][0]))
    ensures AllHolding(readers, left[d := left[d][1..]], ends)
  {
    HoldingShows(readers[d], left[d], ends[d]);
    p := Played(d, readers[d].Shown());
    readers[d].Advance(left[d][1..], ends[d]);
  }

  datatype Step = Done | Play(p: Played)

  /** How the playout so far, the readers and what they have left belong together. */
  ghost predicate Midway(
    readers: seq<Reader>, sources: seq<seq<View>>, out: seq<Played>, left: seq<seq<Record>>, ends: seq<nat>)
    reads readers, set i | 0 <= i < |readers| :: readers[i].data
  {
    AllHolding(readers, left, ends) && PlaysOut(sources, out) && Agrees(sources, out, left)
  }

  /** Emitting the record of the picked reader is the next step of the playout. */
  method PlayPicked(
    readers: seq<Reader>, d: nat, ghost sources: seq<seq<View>>, ghost out: seq<Played>,
    ghost left: seq<seq<Record>>, ghost ends: seq<nat>)
    returns (p: Played, ghost left': seq<seq<Record>>)
    requires Distinct(readers) && Midway(readers, sources, out, left, ends)
    requires IsPick(HeadsAfter(sources, out), d) && left[d] != []
    modifies readers[d]
    ensures Midway(readers, sources, out + [p], left', ends) && Total(left') < Total(left)
  {
    PlayAgrees(sources, out, left, d);
    TotalDrops(left, d);
    left' := left[d := left[d][1..]];
    p := PlayNext(readers, d, left, ends);
  }

  /** One pass of the endless loop: select, then stop or emit. */
  method PlayStep(
    readers: seq<Reader>, ghost sources: seq<seq<View>>, ghost out: seq<Played>,
    ghost left: seq<seq<Record>>, ghost ends: seq<nat>)
    returns (step: Step, ghost left': seq<seq<Record>>)
    requires Distinct(readers) && Midway(readers, sources, out, left, ends)
    modifies readers
    ensures step.Done? ==> Complete(sources, out)
    ensures step.Play? ==>
      Midway(readers, sources, out + [step.p], left', ends) && Total(left') < Total(left)
  {
    HeadsAgree(readers, sources, out, left, ends);
    var d := Select(readers);
    left' := left;
    if d == -1 {
      CompleteWhenGone(sources, out, HeadsOf(readers));
      step := Done;
    } else {
      HoldingShows(readers[d], left[d], ends[d]);
      var p;
      p, left' := PlayPicked(readers, d, sources, out, left, ends);
      step := Play(p);
    }
  }

  /**
   tditrace_exit: parse every buffer once, then play out the earliest record again and again
   until no buffer has a valid one, and stamp the closing entry.
   */
  method PlayOut(readers: seq<Reader>, ghost rs: seq<seq<Record>>, ghost ends: seq<nat>, ghost sources: seq<seq<View>>)
    returns (out: seq<Played>, exit: nat)
    requires Distinct(readers) && |readers| == |rs| == |ends| == |sources|
    requires forall i :: 0 <= i < |rs| ==> sources[i] == Views(rs[i])
    requires forall i :: 0 <= i < |readers| ==> readers[i].Ready(rs[i], ends[i])
    modifies readers
    ensures Complete(sources, out) && exit == ExitStamp(LastStamp(out))
  {
    ParseAll(readers, rs, ends);
    out := [];
    var lastTimestamp := 0;
    ghost var left := rs;
    StartAgrees(rs, sources);
    while true
      invariant Midway(readers, sources, out, left, ends)
      invariant lastTimestamp == LastStamp(out)
      decreases Total(left)
    {
      var step;
      step, left := PlayStep(readers, sources, out, left, ends);
      if step.Done? {
        break;
      }
      out := out + [step.p];
      lastTimestamp := step.p.view.timestamp;
    }
    exit := ExitStamp(lastTimestamp);
  }

  lemma CompleteWhenGone(sources: seq<seq<View>>, out: seq<Played>, heads: seq<Head>)
    requires PlaysOut(sources, out) && heads == HeadsAfter(sources, out)
    requires forall i :: 0 <= i < |heads| ==> heads[i].Gone?
    ensures Complete(sources, out)
  {
  }

  ghost function Total(left: seq<seq<Record>>): nat {
    if left == [] then 0 else |left[0]| + Total(left[1..])
  }

  lemma {:induction false} TotalDrops(left: seq<seq<Record>>, d: nat)
    requires d < |left| && left[d] != []
    ensures Total(left[d := left[d][1..]]) < Total(left)
  {
    if d == 0 {
      assert left[d := left[d][1..]][1..] == left[1..];
    } else {
      assert left[d := left[d][1..]][1..] == left[1..][d - 1 := left[d][1..]];
      TotalDrops(left[1..], d - 1);
    }
  }
}
