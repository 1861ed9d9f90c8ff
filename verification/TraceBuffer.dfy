/**
 The trace buffer as one caller sees it: creation, appending a record (with wrap or
 disabling when nearly full), rewinding, and the statistics walk over the stored markers.
 */
module TraceBuffer {
  import opened Words
  import opened Records

  /** Dwords before the first record: "TDITRACE", time of day, monotonic start. */
  const HEADER: nat := 6

  /** The reserve at the end of the buffer: 1024 bytes. */
  const RESERVE: nat := 256

  /** The clocks at the start: time of day with microseconds, monotonic with nanoseconds. */
  datatype StartTimes = StartTimes(sec: Word, usec: Word, monotonicSec: Word, monotonicNsec: Word)

  /** The dwords before the first record. */
  function HeaderWords(start: StartTimes): seq<Word> {
    DwordsOf("TDITRACE") + [start.sec, start.usec, start.monotonicSec, start.monotonicNsec]
  }

  /** A reader finds the eight letters and both clocks, and the first record behind them. */
  lemma HeaderReadsBack(start: StartTimes)
    ensures var h := HeaderWords(start);
      && |h| == HEADER && BytesOf(h[..2]) == "TDITRACE"
      && h[2] == start.sec && h[3] == start.usec && h[4] == start.monotonicSec && h[5] == start.monotonicNsec
  {
    DwordsOfLength("TDITRACE");
    BytesOfDwordsOf("TDITRACE");
    assert HeaderWords(start)[..2] == DwordsOf("TDITRACE");
  }

  /** The buffer's memory, the writer's cursor and the enabled flag. */
  datatype Image = Image(mem: seq<Word>, cursor: nat, inited: bool)

  function Overwrite(mem: seq<Word>, p: nat, ws: seq<Word>): (m: seq<Word>)
    requires p + |ws| <= |mem|
    ensures |m| == |mem|
  {
    mem[..p] + ws + mem[p + |ws|..]
  }

  function ZeroWords(n: nat): (z: seq<Word>)
    ensures |z| == n
    ensures forall i :: 0 <= i < n ==> z[i] == 0
  {
    seq(n, _ => 0)
  }

  /** What happens when an append ends at the cursor: nothing, a wrap, or disabling. */
  function Settle(img: Image, wrap: bool): (s: Image)
    requires RESERVE <= |img.mem| && img.cursor <= |img.mem|
    ensures |s.mem| == |img.mem|
  {
    if img.cursor <= |img.mem| - RESERVE then img
    else if wrap then
      Image(Overwrite(img.mem, img.cursor, ZeroWords(|img.mem| - img.cursor)), HEADER, img.inited)
    else img.(inited := false)
  }

  /** The record stored at the cursor, and a zero where the next marker will be. */
  function Stored(img: Image, r: Record): (s: Image)
    requires img.cursor + Size(r) < |img.mem|
    ensures |s.mem| == |img.mem|
  {
    Image(Overwrite(img.mem, img.cursor, Encode(r) + [0]), img.cursor + Size(r), img.inited)
  }

  /** The effect of one complete append. */
  function Append(img: Image, r: Record, wrap: bool): (s: Image)
    requires RESERVE <= |img.mem| && img.cursor + Size(r) < |img.mem|
    ensures |s.mem| == |img.mem|
  {
    Settle(Stored(img, r), wrap)
  }

  /**
   The states between appends. `current` holds the records since the last wrap; when there
   are none yet, the chain of the `previous` generation is still readable.
   */
  ghost predicate Quiet(img: Image, current: seq<Record>, previous: seq<Record>) {
    && HEADER + RESERVE <= |img.mem|
    && img.cursor == HEADER + |EncodeAll(current)| < |img.mem|
    && img.mem[HEADER..img.cursor] == EncodeAll(current)
    && Readable(img.mem, Visible(current, previous))
  }

  /** A reader that starts at the first record finds exactly the records `rs`. */
  ghost predicate Readable(mem: seq<Word>, rs: seq<Record>) {
    Chain(mem, HEADER, rs, HEADER + |EncodeAll(rs)|)
  }

  /** The records a reader finds: the current generation, or right after a wrap the previous one. */
  function Visible(current: seq<Record>, previous: seq<Record>): seq<Record> {
    if current == [] then previous else current
  }

  lemma OverwriteParts(mem: seq<Word>, p: nat, ws: seq<Word>)
    requires p + |ws| <= |mem|
    ensures Overwrite(mem, p, ws)[..p] == mem[..p]
    ensures Overwrite(mem, p, ws)[p..p + |ws|] == ws
    ensures Overwrite(mem, p, ws)[p + |ws|..] == mem[p + |ws|..]
  {
  }

  lemma StoredAfterAppend(mem: seq<Word>, p: nat, stored: seq<Word>, ws: seq<Word>)
    requires HEADER <= p && p + |ws| < |mem| && mem[HEADER..p] == stored
    ensures var m := Overwrite(mem, p, ws + [0]);
      && m[HEADER..p + |ws|] == stored + ws
      && m[p + |ws|] == 0
  {
    var m := Overwrite(mem, p, ws + [0]);
    OverwriteParts(mem, p, ws + [0]);
    assert m[HEADER..p] == m[..p][HEADER..] == mem[..p][HEADER..] == stored;
    assert m[p..p + |ws|] == m[p..p + |ws| + 1][..|ws|] == ws;
    assert m[HEADER..p + |ws|] == m[HEADER..p] + m[p..p + |ws|];
    assert m[p + |ws|] == m[p..p + |ws| + 1][|ws|];
  }

  lemma TerminatedIsChain(mem: seq<Word>, rs: seq<Record>, end: nat)
    requires end == HEADER + |EncodeAll(rs)| < |mem|
    requires mem[HEADER..end] == EncodeAll(rs) && mem[end] == 0
    ensures Readable(mem, rs)
  {
    StoredIsChain(mem, HEADER, rs, end);
  }

  /** Settling keeps what the terminated chain shows, and makes a wrap start a new generation. */
  lemma SettleKeepsChain(img: Image, rs: seq<Record>, wrap: bool)
    requires Terminated(img, rs)
    ensures var s := Settle(img, wrap);
      && Readable(s.mem, rs)
      && (img.cursor <= |img.mem| - RESERVE || !wrap ==> s.mem == img.mem && s.cursor == img.cursor)
      && (img.cursor > |img.mem| - RESERVE && wrap ==> s.cursor == HEADER)
  {
    var s := Settle(img, wrap);
    if img.cursor > |img.mem| - RESERVE && wrap {
      var zeros := ZeroWords(|img.mem| - img.cursor);
      OverwriteParts(img.mem, img.cursor, zeros);
      assert s.mem[HEADER..img.cursor] == s.mem[..img.cursor][HEADER..] == img.mem[HEADER..img.cursor];
      assert s.mem[img.cursor] == s.mem[img.cursor..img.cursor + |zeros|][0];
    }
    TerminatedIsChain(s.mem, rs, img.cursor);
  }

  lemma EmptyIsQuiet(img: Image)
    requires HEADER + RESERVE <= |img.mem| && img.cursor == HEADER && img.mem[HEADER] == 0
    ensures Quiet(img, [], [])
  {
    assert img.mem[HEADER..HEADER] == EncodeAll([]);
    TerminatedIsChain(img.mem, [], HEADER);
  }

  predicate Wraps(img: Image, r: Record, wrap: bool) {
    wrap && img.cursor + Size(r) > |img.mem| - RESERVE
  }

  /**
   Append on the abstract buffer: the record joins the current generation, which a wrap
   closes: it becomes the previous one, still readable in full.
   */
  lemma AppendKeepsQuiet(img: Image, current: seq<Record>, previous: seq<Record>, r: Record, wrap: bool)
    requires Quiet(img, current, previous)
    requires img.cursor + Size(r) < |img.mem|
    ensures if Wraps(img, r, wrap) then Quiet(Append(img, r, wrap), [], current + [r])
            else Quiet(Append(img, r, wrap), current + [r], previous)
  {
    StoredIsTerminated(img, current, r);
    SettleKeepsQuiet(Stored(img, r), current + [r], previous, wrap);
  }

  /**
   The effect of an append dword by dword: before the record nothing changes, then come the
   record and a zero, and behind that a wrap leaves only zeros, while otherwise nothing changes.
   The buffer is nearly full when the record ends less than 1024 bytes before its end.
   */
  lemma AppendDwords(img: Image, r: Record, wrap: bool)
    requires RESERVE <= |img.mem| && img.cursor + Size(r) < |img.mem|
    ensures var img', end := Append(img, r, wrap), img.cursor + Size(r);
      var full := 4 * end > 4 * |img.mem| - 1024;
      && (forall a :: 0 <= a < img.cursor ==> img'.mem[a] == img.mem[a])
      && img'.mem[img.cursor..end] == Encode(r) && img'.mem[end] == 0
      && (forall a :: end < a < |img.mem| ==> img'.mem[a] == if wrap && full then 0 else img.mem[a])
      && img'.cursor == (if wrap && full then 6 else end)
      && img'.inited == (img.inited && (wrap || !full))
  {
    var stored, end := Stored(img, r), img.cursor + Size(r);
    var img' := Settle(stored, wrap);
    StoredDwords(img.mem, img.cursor, Encode(r), stored.mem);
    SettleDwords(stored, wrap);
    forall a | 0 <= a < img.cursor
      ensures img'.mem[a] == img.mem[a]
    {
      assert img'.mem[a] == stored.mem[a];
    }
    forall a | end < a < |img.mem|
      ensures img'.mem[a] == if wrap && 4 * end > 4 * |img.mem| - 1024 then 0 else img.mem[a]
    {
      assert stored.mem[a] == img.mem[a];
    }
    assert img'.mem[img.cursor..end] == stored.mem[img.cursor..end];
    assert img'.mem[end] == 0;
  }

  lemma StoredDwords(mem: seq<Word>, p: nat, ws: seq<Word>, m: seq<Word>)
    requires p + |ws| < |mem| && m == Overwrite(mem, p, ws + [0])
    ensures (forall a :: 0 <= a < p ==> m[a] == mem[a]) && m[p..p + |ws|] == ws && m[p + |ws|] == 0
    ensures forall a :: p + |ws| < a < |mem| ==> m[a] == mem[a]
  {
  }

  /** A wrap clears everything from the cursor on, and nothing else changes memory. */
  lemma SettleDwords(img: Image, wrap: bool)
    requires RESERVE <= |img.mem| && img.cursor <= |img.mem|
    ensures var img', full := Settle(img, wrap), 4 * img.cursor > 4 * |img.mem| - 1024;
      && (forall a :: 0 <= a < |img.mem| ==> img'.mem[a] == if wrap && full && img.cursor <= a then 0 else img.mem[a])
      && img'.cursor == (if wrap && full then 6 else img.cursor)
      && img'.inited == (img.inited && (wrap || !full))
  {
  }

  /** Before settling, memory holds the whole generation followed by a zero marker. */
  ghost predicate Terminated(img: Image, rs: seq<Record>) {
    && HEADER + RESERVE <= |img.mem|
    && img.cursor == HEADER + |EncodeAll(rs)| < |img.mem|
    && img.mem[HEADER..img.cursor] == EncodeAll(rs)
    && img.mem[img.cursor] == 0
  }

  lemma StoredIsTerminated(img: Image, current: seq<Record>, r: Record)
    requires HEADER + RESERVE <= |img.mem| && img.cursor + Size(r) < |img.mem|
    requires img.cursor == HEADER + |EncodeAll(current)| && img.mem[HEADER..img.cursor] == EncodeAll(current)
    ensures Terminated(Stored(img, r), current + [r])
  {
    EncodeAllSnoc(current, r);
    StoredAfterAppend(img.mem, img.cursor, EncodeAll(current), Encode(r));
  }

  lemma SettleKeepsQuiet(img: Image, rs: seq<Record>, previous: seq<Record>, wrap: bool)
    requires Terminated(img, rs) && rs != []
    ensures if wrap && img.cursor > |img.mem| - RESERVE then Quiet(Settle(img, wrap), [], rs)
            else Quiet(Settle(img, wrap), rs, previous)
  {
    SettleKeepsChain(img, rs, wrap);
    var s := Settle(img, wrap);
    assert s.mem[HEADER..HEADER] == EncodeAll([]);
  }

  /** The buffer object of one process. */
  class Buffer {
    const data: array<Word>
    const wrap: bool
    var cursor: nat
    var inited: bool
    ghost var current: seq<Record>
    ghost var previous: seq<Record>

    ghost function Contents(): Image
      reads this, data
    {
      Image(data[..], cursor, inited)
    }

    /** Between appends; while enabled, the reserve is free. */
    ghost predicate Valid()
      reads this, data
    {
      Quiet(Contents(), current, previous) && (inited ==> cursor <= data.Length - RESERVE)
    }

    /** create_trace_buffer: zero-fill, header, zero marker. */
    constructor (size: nat, wrap: bool, header: seq<Word>)
      requires HEADER + RESERVE <= size && |header| == HEADER
      ensures Valid() && fresh(data) && data.Length == size && this.wrap == wrap
      ensures current == previous == [] && inited && cursor == HEADER
      ensures data[..] == header + ZeroWords(size - HEADER)
    {
      data := new Word[size];
      this.wrap := wrap;
      cursor, inited := HEADER, true;
      current, previous := [], [];
      new;
      Fill(header);
      EmptyIsQuiet(Contents());
    }

    method Fill(header: seq<Word>)
      requires |header| == HEADER <= data.Length
      modifies data
      ensures data[..] == header + ZeroWords(data.Length - HEADER)
    {
      for i := 0 to data.Length
        invariant forall j :: 0 <= j < i ==> data[j] == 0
      {
        data[i] := 0;
      }
      for i := 0 to HEADER
        invariant data[..i] == header[..i]
        invariant forall j :: HEADER <= j < data.Length ==> data[j] == 0
      {
        data[i] := header[i];
        assert data[..i + 1] == data[..i] + [header[i]];
      }
    }

    /** Store dwords one by one at the advancing cursor. */
    method StoreAll(ws: seq<Word>)
      requires cursor + |ws| <= data.Length
      modifies this`cursor, data
      ensures cursor == old(cursor) + |ws|
      ensures data[..] == Overwrite(old(data[..]), old(cursor), ws)
    {
      var i := 0;
      ghost var p, before := cursor, data[..];
      while i < |ws|
        invariant 0 <= i <= |ws| && cursor == p + i
        invariant data[..] == Overwrite(before, p, ws[..i])
      {
        data[cursor] := ws[i];
        cursor := cursor + 1;
        assert ws[..i + 1] == ws[..i] + [ws[i]];
        i := i + 1;
      }
      assert ws[..i] == ws;
    }

    /** Zero the buffer from the cursor to its end. */
    method ClearRest()
      requires cursor <= data.Length
      modifies data
      ensures data[..] == Overwrite(old(data[..]), cursor, ZeroWords(data.Length - cursor))
    {
      for i := cursor to data.Length
        invariant forall j :: 0 <= j < cursor ==> data[j] == old(data[j])
        invariant forall j :: cursor <= j < i ==> data[j] == 0
      {
        data[i] := 0;
      }
    }

    /**
     tditrace_internal, from the flag check on; the record is already formatted. The record and
     the zero behind it must fit the buffer, as they always do if they fit the reserve.
     */
    method Trace(r: Record)
      requires Valid() && (inited ==> cursor + Size(r) < data.Length)
      modifies this, data
      ensures Valid()
      ensures Contents() == if old(inited) then Append(old(Contents()), r, wrap) else old(Contents())
      ensures !old(inited) ==> current == old(current) && previous == old(previous)
      ensures old(inited) ==>
        if Wraps(old(Contents()), r, wrap) then current == [] && previous == old(current) + [r]
        else current == old(current) + [r] && previous == old(previous)
      ensures old(inited) ==>
        var start, end := old(cursor), old(cursor) + Size(r);
        var wraps := wrap && 4 * end > 4 * data.Length - 1024;
        && (forall a :: 0 <= a < start ==> data[a] == old(data[a]))
        && data[start..end] == Encode(r) && data[end] == 0
        && (forall a :: end < a < data.Length ==> data[a] == if wraps then 0 else old(data[a]))
        && cursor == (if wraps then 6 else end)
        && inited == (wrap || 4 * end <= 4 * data.Length - 1024)
    {
      if !inited {
        return;
      }
      AppendKeepsQuiet(Contents(), current, previous, r, wrap);
      ghost var wrapped := Wraps(Contents(), r, wrap);
      AppendRecord(r);
      if wrapped {
        current, previous := [], current + [r];
      } else {
        current := current + [r];
      }
    }

    /** The locked part. */
    method AppendRecord(r: Record)
      requires RESERVE <= data.Length && cursor + Size(r) < data.Length
      modifies this`cursor, this`inited, data
      ensures Contents() == Append(old(Contents()), r, wrap)
      ensures
        var start, end := old(cursor), old(cursor) + Size(r);
        var wraps := wrap && 4 * end > 4 * data.Length - 1024;
        && (forall a :: 0 <= a < start ==> data[a] == old(data[a]))
        && data[start..end] == Encode(r) && data[end] == 0
        && (forall a :: end < a < data.Length ==> data[a] == if wraps then 0 else old(data[a]))
        && cursor == (if wraps then 6 else end)
        && inited == (old(inited) && (wrap || 4 * end <= 4 * data.Length - 1024))
    {
      AppendDwords(Contents(), r, wrap);
      ghost var before := Contents();
      StoreRecord(r);
      SettleCursor();
      assert Contents() == Append(before, r, wrap);
    }

    /** The locked stores: marker, clock, numbers, text, then a zero for the next marker. */
    method StoreRecord(r: Record)
      requires cursor + Size(r) < data.Length
      modifies this`cursor, data
      ensures cursor == old(cursor) + Size(r)
      ensures data[..] == Overwrite(old(data[..]), old(cursor), Encode(r) + [0])
    {
      var text := TextDwords(r.text);
      var length := 3 + |r.numbers| + |text|;
      PackedMarkerIsMarker(length, |r.numbers|, r.id);
      var first := [PackedMarker(length, |r.numbers|, r.id), r.sec, r.nsec];
      assert Encode(r) == first + r.numbers + text;
      StoreParts(first, r.numbers, text);
    }

    method StoreParts(first: seq<Word>, numbers: seq<Word>, text: seq<Word>)
      requires cursor + |first| + |numbers| + |text| < data.Length
      modifies this`cursor, data
      ensures cursor == old(cursor) + |first| + |numbers| + |text|
      ensures data[..] == Overwrite(old(data[..]), old(cursor), first + numbers + text + [0])
    {
      ghost var p, m0 := cursor, data[..];
      StoreAll(first);
      ghost var m1 := data[..];
      StoreAll(numbers);
      ghost var m2 := data[..];
      StoreAll(text);
      ghost var m3 := data[..];
      data[cursor] := 0;
      assert data[..] == m3[cursor := 0];
      StoresInTurn(p, m0, first, m1, numbers, m2, text, m3);
    }

    /** When nearly full: clear the rest and wrap, or disable the buffer. */
    method SettleCursor()
      requires RESERVE <= data.Length && cursor <= data.Length
      modifies this`cursor, this`inited, data
      ensures Contents() == Settle(old(Contents()), wrap)
    {
      if 4 * cursor > 4 * data.Length - 1024 {
        if wrap {
          ClearRest();
          cursor := HEADER;
        } else {
          inited := false;
        }
      }
    }

    /** tditrace_rewind with no call in flight: header again, empty chain, enabled. */
    method Rewind(header: seq<Word>)
      requires Valid() && |header| == HEADER
      modifies this, data
      ensures Valid() && inited && cursor == HEADER && current == previous == []
      ensures data[..] == header + [0] + old(data[HEADER + 1..])
    {
      inited := false;
      StoreHeader(header);
      current, previous, inited := [], [], true;
      ghost var img := Contents();
      assert img.mem[HEADER] == 0 && img.cursor == HEADER;
      EmptyIsQuiet(img);
    }

    /** The header from the start of the buffer, and a zero where the first marker will be. */
    method StoreHeader(header: seq<Word>)
      requires |header| == HEADER < data.Length
      modifies this`cursor, data
      ensures cursor == HEADER && data[..] == header + [0] + old(data[HEADER + 1..])
    {
      ghost var before := data[..];
      cursor := 0;
      StoreAll(header);
      data[cursor] := 0;
      RewoundMemory(before, header);
      assert before[HEADER + 1..] == old(data[HEADER + 1..]);
    }
  }

  lemma RewoundMemory(mem: seq<Word>, header: seq<Word>)
    requires |header| == HEADER < |mem|
    ensures Overwrite(mem, 0, header)[HEADER := 0] == header + [0] + mem[HEADER + 1..]
  {
  }

  /** Two stores in a row are one overwrite. */
  lemma OverwriteTwo(mem: seq<Word>, p: nat, a: seq<Word>, b: seq<Word>)
    requires p + |a| + |b| <= |mem|
    ensures Overwrite(Overwrite(mem, p, a), p + |a|, b) == Overwrite(mem, p, a + b)
  {
  }

  lemma OverwriteLast(mem: seq<Word>, p: nat, a: seq<Word>)
    requires p + |a| < |mem|
    ensures Overwrite(mem, p, a)[p + |a| := 0] == Overwrite(mem, p, a + [0])
  {
  }

  /** Three stores in a row and the terminator are one overwrite. */
  lemma StoresInTurn(
    p: nat, m0: seq<Word>, a: seq<Word>, m1: seq<Word>, b: seq<Word>, m2: seq<Word>, c: seq<Word>, m3: seq<Word>)
    requires p + |a| + |b| + |c| < |m0| && m1 == Overwrite(m0, p, a)
    requires m2 == Overwrite(m1, p + |a|, b) && m3 == Overwrite(m2, p + |a| + |b|, c)
    ensures m3[p + |a| + |b| + |c| := 0] == Overwrite(m0, p, a + b + c + [0])
  {
    OverwriteTwo(m0, p, a, b);
    OverwriteTwo(m0, p, a + b, c);
    OverwriteLast(m0, p, a + b + c);
  }

  /** Where a length walk that still has `rs` in front of it stands. */
  ghost predicate Ahead(mem: seq<Word>, p: nat, rs: seq<Record>, end: nat) {
    && Chain(mem, p, rs, end)
    && p <= end < |mem|
    && (rs == [] <==> mem[p] == 0)
    && (rs == [] ==> p == end)
  }

  lemma ChainIsAhead(mem: seq<Word>, p: nat, rs: seq<Record>, end: nat)
    requires Chain(mem, p, rs, end)
    ensures Ahead(mem, p, rs, end)
  {
    ChainEnd(mem, p, rs, end);
    ChainEmptiness(mem, p, rs, end);
  }

  /** Following one marker's length leads to the rest of the chain. */
  lemma WalkStep(mem: seq<Word>, p: nat, rs: seq<Record>, end: nat)
    requires Ahead(mem, p, rs, end) && rs != []
    ensures LengthOf(mem[p]) > 0 && Ahead(mem, p + LengthOf(mem[p]), rs[1..], end)
  {
    HoldsMarker(mem, p, rs[0]);
    ChainIsAhead(mem, p + Size(rs[0]), rs[1..], end);
  }

  /** The length walk from the first record to the end marker. */
  method Walk(data: array<Word>, ghost rs: seq<Record>, ghost end: nat) returns (count: nat, ptr: nat)
    requires Chain(data[..], HEADER, rs, end)
    ensures count == |rs| && ptr == end < data.Length
  {
    ptr, count := HEADER, 0;
    ghost var mem, left := data[..], rs;
    ChainIsAhead(mem, ptr, left, end);
    while data[ptr] != 0
      invariant 0 <= ptr <= end < data.Length
      invariant Ahead(mem, ptr, left, end)
      invariant count + |left| == |rs|
      decreases |left|
    {
      WalkStep(mem, ptr, left, end);
      ptr := ptr + LengthOf(data[ptr]);
      left := left[1..];
      count := count + 1;
    }
  }

  /**
   The tdistat walk over a buffer: number of records, bytes used and percentage printed.
   */
  method Stat(data: array<Word>, ghost rs: seq<Record>, ghost end: nat) returns (count: nat, bytes: nat, percent: nat)
    requires Chain(data[..], HEADER, rs, end)
    ensures count == |rs| && bytes == 4 * end
    ensures 1 <= percent <= 100
    ensures IsPercent(percent, bytes, 4 * data.Length)
  {
    var ptr;
    count, ptr := Walk(data, rs, end);
    bytes := 4 * ptr;
    percent := Percent(bytes, 4 * data.Length);
  }

  lemma EncodeAllIsEmpty(rs: seq<Record>)
    ensures |EncodeAll(rs)| == 0 <==> rs == []
  {
    if rs != [] {
      EncodeAllCons(rs);
    }
  }

  /**
   Reader agreement: between appends the length walk meets one length for each record `parse`
   yields, and both stop at the writer's cursor, except in the instant right after a wrap.
   */
  lemma ReadersAgree(img: Image, current: seq<Record>, previous: seq<Record>)
    requires Quiet(img, current, previous)
    ensures var rs := Visible(current, previous);
      var end := HEADER + |EncodeAll(rs)|;
      && WalksTo(img.mem, HEADER, Sizes(rs), end) && |Sizes(rs)| == |rs|
      && OffsetOf(HEADER, rs, |rs|) == end
      && (end == img.cursor <==> current != [] || previous == [])
  {
    var rs := Visible(current, previous);
    ChainWalks(img.mem, HEADER, rs, HEADER + |EncodeAll(rs)|);
    ChainAt(img.mem, HEADER, rs, HEADER + |EncodeAll(rs)|, |rs|);
    EncodeAllIsEmpty(current);
    EncodeAllIsEmpty(previous);
  }

  /** `used` is at least `percent` - 1 hundredths of `size`, and less than `percent`. */
  predicate IsPercent(percent: int, used: nat, size: nat) {
    (percent - 1) * size <= used * 100 < percent * size
  }

  method Percent(used: nat, size: nat) returns (percent: nat)
    requires used < size
    ensures 1 <= percent <= 100 && IsPercent(percent, used, size)
  {
    PercentInRange(used, size);
    percent := used * 100 / size + 1;
  }

  lemma PercentInRange(used: nat, size: nat)
    requires used < size
    ensures var q := used * 100 / size;
      0 <= q <= 99 && q * size <= used * 100 < (q + 1) * size
  {
    var q := used * 100 / size;
    assert size * q <= used * 100 < size * q + size;
    assert (q + 1) * size == q * size + size && q * size == size * q;
    assert q >= 100 ==> size * q >= size * 100;
    assert q < 0 ==> size * q <= 0 - size;
  }
}
