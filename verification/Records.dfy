/**
 The record format of the trace buffer: what a writer stores for one record, what a chain
 of records looks like in memory, and what the reader's `parse` makes of it.
 */
module Records {
  import opened Words

  /** One trace record. `text` is what the formatter produced, before padding. */
  datatype RawRecord = RawRecord(id: Byte, sec: Word, nsec: Word, numbers: seq<Word>, text: string)

  /** What the writer's local arrays hold: a byte-sized number count, 512 dwords of text. */
  predicate Storable(r: RawRecord) {
    && |r.numbers| < 0x100
    && IsText(r.text)
    && |TextDwords(r.text)| <= 512
  }

  type Record = r: RawRecord | Storable(r) witness RawRecord(0, 0, 0, [], "")

  /** Bytes of a C string: none of them is NUL. */
  predicate IsText(s: string) {
    IsOctets(s) && forall i :: 0 <= i < |s| ==> s[i] != '\0'
  }

  function TextDwords(text: string): (ws: seq<Word>)
    requires IsText(text)
  {
    DwordsOf(Padded(text))
  }

  /** Length in dwords: marker, seconds, nanoseconds, numbers, padded text. */
  function Size(r: Record): nat {
    3 + |r.numbers| + |TextDwords(r.text)|
  }

  function MarkerOf(r: Record): Word {
    Marker(Size(r), |r.numbers|, r.id)
  }

  /** The dwords stored for one record, in store order. */
  function Encode(r: Record): (ws: seq<Word>)
    ensures |ws| == Size(r)
  {
    [MarkerOf(r), r.sec, r.nsec] + r.numbers + TextDwords(r.text)
  }

  ghost function Flatten(parts: seq<seq<Word>>): seq<Word> {
    if parts == [] then [] else parts[0] + Flatten(parts[1..])
  }

  lemma {:induction false} FlattenSnoc(parts: seq<seq<Word>>, part: seq<Word>)
    ensures Flatten(parts + [part]) == Flatten(parts) + part
  {
    if parts == [] {
      assert parts + [part] == [part];
    } else {
      assert (parts + [part])[1..] == parts[1..] + [part];
      FlattenSnoc(parts[1..], part);
    }
  }

  lemma ConcatAssociates(a: seq<Word>, b: seq<Word>, c: seq<Word>)
    ensures a + b + c == a + (b + c)
  {
  }

  ghost function Encodings(rs: seq<Record>): seq<seq<Word>> {
    seq(|rs|, i requires 0 <= i < |rs| => Encode(rs[i]))
  }

  /** Records stored back to back. */
  ghost function EncodeAll(rs: seq<Record>): seq<Word> {
    Flatten(Encodings(rs))
  }

  lemma EncodeAllCons(rs: seq<Record>)
    requires rs != []
    ensures EncodeAll(rs) == Encode(rs[0]) + EncodeAll(rs[1..])
  {
    assert Encodings(rs)[1..] == Encodings(rs[1..]);
  }

  lemma EncodeAllSnoc(rs: seq<Record>, r: Record)
    ensures EncodeAll(rs + [r]) == EncodeAll(rs) + Encode(r)
  {
    assert Encodings(rs + [r]) == Encodings(rs) + [Encode(r)];
    FlattenSnoc(Encodings(rs), Encode(r));
  }

  /** From dword `p` on, memory holds exactly the records `rs`, then a zero marker at `end`. */
  ghost predicate Chain(mem: seq<Word>, p: nat, rs: seq<Record>, end: nat)
    decreases rs
  {
    if rs == [] then p == end < |mem| && mem[end] == 0
    else Holds(mem, p, rs[0]) && Chain(mem, p + Size(rs[0]), rs[1..], end)
  }

  ghost predicate Holds(mem: seq<Word>, p: nat, r: Record) {
    && p + Size(r) < |mem|
    && mem[p..p + Size(r)] == Encode(r)
  }

  /** Stored records are the first one and behind it the stored others. */
  lemma StoredCons(mem: seq<Word>, p: nat, rs: seq<Record>)
    requires rs != [] && p + |EncodeAll(rs)| < |mem| && mem[p..p + |EncodeAll(rs)|] == EncodeAll(rs)
    ensures var n, behind := Size(rs[0]), EncodeAll(rs[1..]);
      && n + |behind| == |EncodeAll(rs)|
      && mem[p..p + n] == Encode(rs[0]) && mem[p + n..p + n + |behind|] == behind
  {
    var n, all := Size(rs[0]), EncodeAll(rs);
    EncodeAllCons(rs);
    SliceOfSlice(mem, p, all, 0, n);
    SliceOfSlice(mem, p, all, n, |all|);
    assert all[..n] == Encode(rs[0]) && all[n..] == EncodeAll(rs[1..]);
  }

  /** Records stored back to back and terminated form a chain. */
  lemma {:induction false} StoredIsChain(mem: seq<Word>, p: nat, rs: seq<Record>, end: nat)
    requires end == p + |EncodeAll(rs)| < |mem|
    requires mem[p..end] == EncodeAll(rs) && mem[end] == 0
    ensures Chain(mem, p, rs, end)
    decreases rs
  {
    if rs != [] {
      StoredCons(mem, p, rs);
      StoredIsChain(mem, p + Size(rs[0]), rs[1..], end);
    }
  }

  lemma SlicesJoin(mem: seq<Word>, p: nat, q: nat, end: nat)
    requires p <= q <= end <= |mem|
    ensures mem[p..end] == mem[p..q] + mem[q..end]
  {
  }

  /** A chain is its records stored back to back. */
  lemma {:induction false} ChainIsStored(mem: seq<Word>, p: nat, rs: seq<Record>, end: nat)
    requires Chain(mem, p, rs, end)
    ensures end == p + |EncodeAll(rs)| < |mem|
    ensures mem[p..end] == EncodeAll(rs) && mem[end] == 0
    decreases rs
  {
    if rs != [] {
      var next := p + Size(rs[0]);
      ChainIsStored(mem, next, rs[1..], end);
      EncodeAllCons(rs);
      SlicesJoin(mem, p, next, end);
    }
  }

  /** The part of a slice between two of its indices. */
  lemma SliceOfSlice(mem: seq<Word>, p: nat, e: seq<Word>, i: nat, j: nat)
    requires p + |e| <= |mem| && mem[p..p + |e|] == e && i <= j <= |e|
    ensures mem[p + i..p + j] == e[i..j]
    ensures i < |e| ==> mem[p + i] == e[i]
  {
    forall k | i <= k < |e|
      ensures mem[p + k] == e[k]
    {
      assert mem[p..p + |e|][k] == e[k];
    }
  }

  /** What `parse` leaves in its tracebuffer entry; `numbersAt` and `textAt` are dword offsets. */
  datatype Header = Header(
    valid: bool, id: Byte, timestamp: nat, nrNumbers: Byte,
    numbersAt: nat, textAt: nat, textLen: int, next: nat)

  /** An int stored in a dword, widened to the unsigned 64-bit type. */
  function Widen(w: Word): nat {
    if w < 0x8000_0000 then w else w + 0x1_0000_0000_0000_0000 - 0x1_0000_0000
  }

  function Timestamp(sec: Word, nsec: Word): nat {
    (Widen(sec) * 1_000_000_000 + Widen(nsec)) % 0x1_0000_0000_0000_0000
  }

  lemma TimestampOfClock(sec: Word, nsec: Word)
    requires sec < 0x8000_0000 && nsec < 0x8000_0000
    ensures Timestamp(sec, nsec) == sec * 1_000_000_000 + nsec
  {
  }

  function ParseAt(mem: seq<Word>, p: nat): Header
    requires p + 2 < |mem|
  {
    var marker := mem[p];
    Header(marker != 0, IdOf(marker), Timestamp(mem[p + 1], mem[p + 2]), NrNumbersOf(marker),
           p + 3, p + 3 + NrNumbersOf(marker),
           (LengthOf(marker) - 3 - NrNumbersOf(marker)) * 4,
           p + LengthOf(marker))
  }

  /** The header describes record `r`, whose numbers and zero-padded text lie in memory. */
  ghost predicate Describes(mem: seq<Word>, h: Header, r: Record) {
    && h.valid && h.id == r.id && h.timestamp == Timestamp(r.sec, r.nsec)
    && h.nrNumbers == |r.numbers|
    && h.numbersAt + h.nrNumbers == h.textAt <= |mem|
    && mem[h.numbersAt..h.textAt] == r.numbers
    && h.textAt <= h.next <= |mem|
    && h.textLen == 4 * (h.next - h.textAt)
    && IsText(r.text)
    && BytesOf(mem[h.textAt..h.next]) == Padded(r.text)
  }

  /** The bits of a 32-bit int that was stored in a dword. */
  function WordOf(n: int): Word
    requires -0x8000_0000 <= n < 0x8000_0000
  {
    n % 0x1_0000_0000
  }

  /** For every pair of ints the timestamp is their sum modulo 2^64, negative ones included. */
  lemma TimestampOfInts(sec: int, nsec: int)
    requires -0x8000_0000 <= sec < 0x8000_0000 && -0x8000_0000 <= nsec < 0x8000_0000
    ensures Timestamp(WordOf(sec), WordOf(nsec)) == (sec * 1_000_000_000 + nsec) % 0x1_0000_0000_0000_0000
  {
    var m := 0x1_0000_0000_0000_0000;
    var a, b := if sec < 0 then 1 else 0, if nsec < 0 then 1 else 0;
    assert Widen(WordOf(sec)) == sec + a * m && Widen(WordOf(nsec)) == nsec + b * m;
    AddMultiple(sec * 1_000_000_000 + nsec, a * 1_000_000_000 + b, m);
  }

  lemma AddMultiple(x: int, k: int, m: int)
    requires m > 0
    ensures (x + k * m) % m == x % m
  {
    var q, r := x / m, x % m;
    assert x + k * m == (q + k) * m + r;
    RemainderOf(q + k, r, m);
  }

  lemma RemainderOf(q: int, r: int, m: int)
    requires 0 <= r < m
    ensures (q * m + r) % m == r
  {
    var d := (q * m + r) / m;
    assert q * m + r == d * m + (q * m + r) % m;
    assert (q - d) * m == (q * m + r) % m - r;
    assert q - d >= 1 ==> (q - d) * m >= m;
    assert q - d <= -1 ==> (q - d) * m <= 0 - m;
  }

  lemma EncodeParts(r: Record)
    ensures var e, nn := Encode(r), |r.numbers|;
      && e[0] == MarkerOf(r) && e[1] == r.sec && e[2] == r.nsec
      && e[3..3 + nn] == r.numbers && e[3 + nn..] == TextDwords(r.text)
  {
  }

  /** The parts of any sequence that is stored at `p`. */
  lemma PartsAt(mem: seq<Word>, p: nat, e: seq<Word>, nn: nat)
    requires p + |e| <= |mem| && mem[p..p + |e|] == e && 3 + nn <= |e|
    ensures mem[p] == e[0] && mem[p + 1] == e[1] && mem[p + 2] == e[2]
    ensures mem[p + 3..p + 3 + nn] == e[3..3 + nn] && mem[p + 3 + nn..p + |e|] == e[3 + nn..]
  {
    SliceOfSlice(mem, p, e, 0, |e|);
    SliceOfSlice(mem, p, e, 1, |e|);
    SliceOfSlice(mem, p, e, 2, |e|);
    SliceOfSlice(mem, p, e, 3, 3 + nn);
    SliceOfSlice(mem, p, e, 3 + nn, |e|);
  }

  lemma StoredParts(mem: seq<Word>, p: nat, r: Record)
    requires Holds(mem, p, r)
    ensures var nn := |r.numbers|;
      && mem[p] == MarkerOf(r) && mem[p + 1] == r.sec && mem[p + 2] == r.nsec
      && mem[p + 3..p + 3 + nn] == r.numbers
      && mem[p + 3 + nn..p + Size(r)] == TextDwords(r.text)
  {
    EncodeParts(r);
    PartsAt(mem, p, Encode(r), |r.numbers|);
  }

  lemma HoldsMarker(mem: seq<Word>, p: nat, r: Record)
    requires Holds(mem, p, r)
    ensures mem[p] == MarkerOf(r) && mem[p] != 0 && LengthOf(mem[p]) == Size(r)
    ensures NrNumbersOf(mem[p]) == |r.numbers| && IdOf(mem[p]) == r.id
  {
    StoredParts(mem, p, r);
    MarkerFields(Size(r), |r.numbers|, r.id);
  }

  /** Parsing a record that was stored gives back everything that was stored. */
  lemma ParseStored(mem: seq<Word>, p: nat, r: Record)
    requires Holds(mem, p, r)
    ensures Describes(mem, ParseAt(mem, p), r)
    ensures ParseAt(mem, p).next == p + Size(r)
  {
    HoldsMarker(mem, p, r);
    StoredParts(mem, p, r);
    TextRegion(r.text);
    var h := ParseAt(mem, p);
    assert h.numbersAt == p + 3 && h.textAt == p + 3 + |r.numbers| && h.next == p + Size(r);
  }

  lemma TextRegion(text: string)
    requires IsText(text)
    ensures BytesOf(TextDwords(text)) == Padded(text)
  {
    PaddedLength(text);
    BytesOfDwordsOf(Padded(text));
  }

  ghost predicate ParseStops(mem: seq<Word>, p: nat)
    requires p + 2 < |mem|
  {
    !ParseAt(mem, p).valid && ParseAt(mem, p).next == p
  }

  lemma ParseEnd(mem: seq<Word>, p: nat)
    requires p + 2 < |mem| && mem[p] == 0
    ensures ParseStops(mem, p)
  {
  }

  lemma {:induction false} ChainEnd(mem: seq<Word>, p: nat, rs: seq<Record>, end: nat)
    requires Chain(mem, p, rs, end)
    ensures p <= end < |mem| && mem[end] == 0
    decreases rs
  {
    if rs != [] {
      ChainEnd(mem, p + Size(rs[0]), rs[1..], end);
    }
  }

  /** Where record `k` of a chain at `p` starts; for `k == |rs|`, where the chain ends. */
  ghost function OffsetOf(p: nat, rs: seq<Record>, k: nat): nat
    requires k <= |rs|
    decreases k
  {
    if k == 0 then p else OffsetOf(p, rs, k - 1) + Size(rs[k - 1])
  }

  /** The chain from record `k` on. */
  lemma {:induction false} ChainFrom(mem: seq<Word>, p: nat, rs: seq<Record>, end: nat, k: nat)
    requires Chain(mem, p, rs, end) && k <= |rs|
    ensures p <= OffsetOf(p, rs, k) && Chain(mem, OffsetOf(p, rs, k), rs[k..], end)
    decreases k
  {
    if k == 0 {
      assert rs[0..] == rs;
    } else {
      ChainFrom(mem, p, rs, end, k - 1);
      assert rs[k - 1..][0] == rs[k - 1] && rs[k - 1..][1..] == rs[k..];
    }
  }

  lemma ChainAt(mem: seq<Word>, p: nat, rs: seq<Record>, end: nat, k: nat)
    requires Chain(mem, p, rs, end) && k <= |rs|
    ensures p <= OffsetOf(p, rs, k) <= end
    ensures if k == |rs| then OffsetOf(p, rs, k) == end
            else Holds(mem, OffsetOf(p, rs, k), rs[k]) && OffsetOf(p, rs, k + 1) == OffsetOf(p, rs, k) + Size(rs[k])
  {
    ChainFrom(mem, p, rs, end, k);
    ChainEnd(mem, OffsetOf(p, rs, k), rs[k..], end);
    if k < |rs| {
      assert rs[k..][0] == rs[k];
    }
  }

  /**
   Write/read round trip: the cursor starts at `p`; call `k` of `parse` describes record `k`
   and moves the cursor to record `k + 1`; from the end of the chain on `parse` reports
   invalid and stays.
   */
  lemma ChainRoundTrip(mem: seq<Word>, p: nat, rs: seq<Record>, end: nat, k: nat)
    requires Chain(mem, p, rs, end) && end + 2 < |mem| && k <= |rs|
    ensures OffsetOf(p, rs, 0) == p && OffsetOf(p, rs, |rs|) == end
    ensures OffsetOf(p, rs, k) + 2 < |mem|
    ensures var h := ParseAt(mem, OffsetOf(p, rs, k));
      if k < |rs| then Describes(mem, h, rs[k]) && h.next == OffsetOf(p, rs, k + 1)
      else !h.valid && h.next == end
  {
    ChainEnd(mem, p, rs, end);
    ChainAt(mem, p, rs, end, |rs|);
    ChainAt(mem, p, rs, end, k);
    if k < |rs| {
      ParseStored(mem, OffsetOf(p, rs, k), rs[k]);
    } else {
      ParseEnd(mem, end);
    }
  }

  /** The C string at the start of a byte region. */
  function CString(bytes: string): string {
    if bytes == "" || bytes[0] == '\0' then "" else [bytes[0]] + CString(bytes[1..])
  }

  lemma {:induction false} CStringOfTerminated(text: string, rest: string)
    requires IsText(text) && (rest == "" || rest[0] == '\0')
    ensures CString(text + rest) == text
  {
    if text == "" {
      assert text + rest == rest;
    } else {
      assert (text + rest)[1..] == text[1..] + rest;
      CStringOfTerminated(text[1..], rest);
    }
  }

  /** Two records with the same description agree in all the reader can see. */
  lemma DescribesDetermines(mem: seq<Word>, h: Header, r: Record, s: Record)
    requires Describes(mem, h, r) && Describes(mem, h, s)
    ensures r.id == s.id && r.numbers == s.numbers && r.text == s.text
    ensures Timestamp(r.sec, r.nsec) == Timestamp(s.sec, s.nsec)
  {
    assert Padded(r.text) == Padded(s.text);
    CStringOfTerminated(r.text, Zeros(PadLength(|r.text|)));
    CStringOfTerminated(s.text, Zeros(PadLength(|s.text|)));
  }

  lemma HoldsDetermines(mem: seq<Word>, p: nat, r: Record, s: Record)
    requires Holds(mem, p, r) && Holds(mem, p, s)
    ensures r == s
  {
    ParseStored(mem, p, r);
    ParseStored(mem, p, s);
    DescribesDetermines(mem, ParseAt(mem, p), r, s);
    EncodeParts(r);
    EncodeParts(s);
  }

  lemma ChainEmptiness(mem: seq<Word>, p: nat, rs: seq<Record>, end: nat)
    requires Chain(mem, p, rs, end)
    ensures p < |mem| && (rs == [] <==> mem[p] == 0)
  {
    if rs != [] {
      HoldsMarker(mem, p, rs[0]);
    }
  }

  /** Two chains at the same place start with the same record and go on from the same place. */
  lemma SameHead(mem: seq<Word>, p: nat, rs: seq<Record>, end: nat, ss: seq<Record>, end': nat)
    requires Chain(mem, p, rs, end) && Chain(mem, p, ss, end') && rs != []
    ensures ss != [] && rs[0] == ss[0]
    ensures Chain(mem, p + Size(rs[0]), rs[1..], end) && Chain(mem, p + Size(rs[0]), ss[1..], end')
  {
    ChainEmptiness(mem, p, rs, end);
    ChainEmptiness(mem, p, ss, end');
    HoldsDetermines(mem, p, rs[0], ss[0]);
  }

  lemma SameSeq(rs: seq<Record>, ss: seq<Record>)
    requires rs != [] && ss != [] && rs[0] == ss[0] && rs[1..] == ss[1..]
    ensures rs == ss
  {
    assert rs == [rs[0]] + rs[1..] && ss == [ss[0]] + ss[1..];
  }

  lemma {:induction false} SameRecords(
    mem: seq<Word>, p: nat, rs: seq<Record>, end: nat, ss: seq<Record>, end': nat)
    requires Chain(mem, p, rs, end) && Chain(mem, p, ss, end')
    ensures rs == ss
    decreases |rs|
  {
    if rs == [] {
      ChainEmptiness(mem, p, ss, end');
    } else {
      SameHead(mem, p, rs, end, ss, end');
      SameRecords(mem, p + Size(rs[0]), rs[1..], end, ss[1..], end');
      SameSeq(rs, ss);
    }
  }

  /** The format is unambiguous: one memory holds one chain. */
  lemma ChainDetermines(mem: seq<Word>, p: nat, rs: seq<Record>, end: nat, ss: seq<Record>, end': nat)
    requires Chain(mem, p, rs, end) && Chain(mem, p, ss, end')
    ensures rs == ss && end == end'
  {
    SameRecords(mem, p, rs, end, ss, end');
    ChainIsStored(mem, p, rs, end);
    ChainIsStored(mem, p, ss, end');
  }

  /** The walk that only follows marker lengths (`tdistat`): the lengths met, and its end. */
  ghost predicate WalksTo(mem: seq<Word>, p: nat, lengths: seq<nat>, end: nat)
    decreases lengths
  {
    if lengths == [] then p == end < |mem| && mem[p] == 0
    else
      && p < |mem| && mem[p] != 0 && LengthOf(mem[p]) == lengths[0] > 0
      && WalksTo(mem, p + lengths[0], lengths[1..], end)
  }

  /** The length walk from `p` meets exactly these lengths and stops inside memory. */
  ghost predicate Walks(mem: seq<Word>, p: nat, lengths: seq<nat>) {
    exists end: nat :: WalksTo(mem, p, lengths, end)
  }

  function Sizes(rs: seq<Record>): (lengths: seq<nat>)
    ensures |lengths| == |rs|
  {
    seq(|rs|, i requires 0 <= i < |rs| => Size(rs[i]))
  }

  lemma WalkOne(mem: seq<Word>, p: nat, r: Record, lengths: seq<nat>, end: nat)
    requires p + Size(r) < |mem| && mem[p..p + Size(r)] == Encode(r)
    requires WalksTo(mem, p + Size(r), lengths, end)
    ensures WalksTo(mem, p, [Size(r)] + lengths, end)
  {
    HoldsMarker(mem, p, r);
    assert ([Size(r)] + lengths)[1..] == lengths;
  }

  lemma SizesCons(rs: seq<Record>, lengths: seq<nat>)
    requires rs != []
    ensures Sizes(rs) + lengths == [Size(rs[0])] + (Sizes(rs[1..]) + lengths)
    ensures (Sizes(rs) + lengths)[1..] == Sizes(rs[1..]) + lengths
  {
  }

  /** Walking over stored records reaches what lies behind them. */
  lemma {:induction false} WalkStored(mem: seq<Word>, p: nat, rs: seq<Record>, lengths: seq<nat>, end: nat)
    requires p + |EncodeAll(rs)| < |mem| && mem[p..p + |EncodeAll(rs)|] == EncodeAll(rs)
    requires WalksTo(mem, p + |EncodeAll(rs)|, lengths, end)
    ensures WalksTo(mem, p, Sizes(rs) + lengths, end)
    decreases |rs|
  {
    if rs == [] {
      assert Sizes(rs) + lengths == lengths;
    } else {
      StoredCons(mem, p, rs);
      WalkStored(mem, p + Size(rs[0]), rs[1..], lengths, end);
      WalkOne(mem, p, rs[0], Sizes(rs[1..]) + lengths, end);
      SizesCons(rs, lengths);
    }
  }

  lemma {:induction false} WalkBehindStored(mem: seq<Word>, p: nat, rs: seq<Record>, lengths: seq<nat>, end: nat)
    requires p + |EncodeAll(rs)| < |mem| && mem[p..p + |EncodeAll(rs)|] == EncodeAll(rs)
    requires WalksTo(mem, p, Sizes(rs) + lengths, end)
    ensures WalksTo(mem, p + |EncodeAll(rs)|, lengths, end)
    decreases |rs|
  {
    if rs == [] {
      assert Sizes(rs) + lengths == lengths;
    } else {
      StoredCons(mem, p, rs);
      SizesCons(rs, lengths);
      assert WalksTo(mem, p + Size(rs[0]), Sizes(rs[1..]) + lengths, end);
      WalkBehindStored(mem, p + Size(rs[0]), rs[1..], lengths, end);
    }
  }

  /** The length walk and `parse` agree on how many records there are and where they end. */
  lemma ChainWalks(mem: seq<Word>, p: nat, rs: seq<Record>, end: nat)
    requires Chain(mem, p, rs, end)
    ensures WalksTo(mem, p, Sizes(rs), end)
  {
    ChainIsStored(mem, p, rs, end);
    WalkStored(mem, p, rs, [], end);
    assert Sizes(rs) + [] == Sizes(rs);
  }

  // ------------------------------------------------------------------ records of a given size

  /** Dwords of the longest record there can be. */
  const LONGEST: nat := 3 + 255 + 512

  predicate Unstamped(r: Record) { r.sec == 0 && r.nsec == 0 }

  function Letters(n: nat): (t: string)
    ensures |t| == n && IsText(t)
  {
    seq(n, _ => 'a')
  }

  /** There is a record with any number of numbers and dwords of text. */
  lemma RecordWith(numbers: nat, dwords: nat) returns (r: Record)
    requires numbers < 0x100 && dwords <= 512
    ensures |r.numbers| == numbers && Size(r) == 3 + numbers + dwords && Unstamped(r)
  {
    var text := Letters(4 * dwords);
    assert Padded(text) == text;
    DwordsOfLength(text);
    r := RawRecord(0, 0, 0, seq(numbers, _ => 0), text);
  }

  /** There are records of every size. */
  lemma RecordOfSize(size: nat) returns (r: Record)
    requires 3 <= size <= LONGEST
    ensures Size(r) == size && Unstamped(r)
  {
    var k := if size <= 3 + 255 then size - 3 else 255;
    r := RecordWith(k, size - 3 - k);
  }
}
