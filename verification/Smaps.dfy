/**
 Scanning a buffer of /proc/self/smaps text by fixed offsets: one block for each mapping, with
 a header line, a fixed number of 28-byte lines and, on most targets, a VmFlags line.
 */
module Smaps {
  import opened Numerals

  /** Fixed lines of a block, the index of its Swap line, and whether a VmFlags line ends it. */
  datatype Layout = Layout(lines: nat, swapLine: nat, flags: bool)

  const GENERIC: Layout := Layout(14, 10, true)
  const MIPS: Layout := Layout(12, 9, false)

  /** The layouts there are: MIPS and all others. */
  predicate IsTarget(layout: Layout) { layout == GENERIC || layout == MIPS }

  const LINE: nat := 28
  const RSS_LINE: nat := 1
  const REF_LINE: nat := 7

  datatype Mapping = Mapping(layout: Layout, header: string, lines: seq<string>, flags: string)

  datatype Totals = Totals(codeRss: int, codeRef: int, dataRss: int, dataRef: int, dataSwap: int)

  const NONE: Totals := Totals(0, 0, 0, 0, 0)

  function Plus(a: Totals, b: Totals): Totals {
    Totals(a.codeRss + b.codeRss, a.codeRef + b.codeRef, a.dataRss + b.dataRss, a.dataRef + b.dataRef,
           a.dataSwap + b.dataSwap)
  }

  // ------------------------------------------------------------------ five-digit fields

  /** Spaces, then digits only. */
  predicate RightAligned(s: string) {
    if s == "" then true
    else if s[0] == ' ' then RightAligned(s[1..])
    else IsNumeral(s, 10)
  }

  function Trimmed(s: string): string {
    if s != "" && s[0] == ' ' then Trimmed(s[1..]) else s
  }

  /** The number a right-aligned field shows, 0 if it is blank. */
  function FieldValue(s: string): int
    requires RightAligned(s)
  {
    TrimmedIsNumeral(s);
    ValueOf(Trimmed(s), 10)
  }

  lemma {:induction false} TrimmedIsNumeral(s: string)
    requires RightAligned(s)
    ensures IsNumeral(Trimmed(s), 10)
  {
    if s != "" && s[0] == ' ' {
      TrimmedIsNumeral(s[1..]);
    }
  }

  /** The macro I: a space counts as 0. */
  function I(c: char): int { if c == ' ' then 0 else c as int - '0' as int }

  /** The macro I5: all five positions. */
  function I5(s: string): int
    requires |s| == 5
  {
    I(s[0]) * 10000 + I(s[1]) * 1000 + I(s[2]) * 100 + I(s[3]) * 10 + I(s[4])
  }

  /** The macro II: from the last position to the left, stopping at the first space. */
  function II(s: string): int
    requires |s| == 5
  {
    if s[4] == ' ' then 0
    else
      I(s[4]) +
      if s[3] == ' ' then 0
      else
        I(s[3]) * 10 +
        if s[2] == ' ' then 0
        else
          I(s[2]) * 100 +
          if s[1] == ' ' then 0
          else I(s[1]) * 1000 + if s[0] == ' ' then 0 else I(s[0]) * 10000
  }

  /** A numeral is the sum of its digits by place. */
  lemma {:induction false} ValueByPlace(s: string, n: int)
    requires IsNumeral(s, 10) && s != "" && n == ValueOf(s[..|s| - 1], 10)
    ensures ValueOf(s, 10) == n * 10 + I(s[|s| - 1])
  {
  }

  lemma ShortValues(s: string)
    requires IsNumeral(s, 10) && |s| <= 5
    ensures |s| == 0 ==> ValueOf(s, 10) == 0
    ensures |s| == 1 ==> ValueOf(s, 10) == I(s[0])
    ensures |s| == 2 ==> ValueOf(s, 10) == I(s[0]) * 10 + I(s[1])
    ensures |s| == 3 ==> ValueOf(s, 10) == I(s[0]) * 100 + I(s[1]) * 10 + I(s[2])
    ensures |s| == 4 ==> ValueOf(s, 10) == I(s[0]) * 1000 + I(s[1]) * 100 + I(s[2]) * 10 + I(s[3])
    ensures |s| == 5 ==> ValueOf(s, 10) == I5(s)
  {
    if s != "" {
      ShortValues(s[..|s| - 1]);
      ValueByPlace(s, ValueOf(s[..|s| - 1], 10));
    }
  }

  lemma TrimmedOfFive(s: string)
    requires RightAligned(s) && |s| == 5
    ensures var t := Trimmed(s);
      |t| <= 5 && t == s[5 - |t|..] && (forall i :: 0 <= i < 5 - |t| ==> s[i] == ' ')
  {
    TrimmedSuffix(s);
  }

  lemma {:induction false} TrimmedSuffix(s: string)
    ensures |Trimmed(s)| <= |s| && Trimmed(s) == s[|s| - |Trimmed(s)|..]
    ensures forall i :: 0 <= i < |s| - |Trimmed(s)| ==> s[i] == ' '
  {
    if s != "" && s[0] == ' ' {
      TrimmedSuffix(s[1..]);
      assert forall i :: 1 <= i < |s| - |Trimmed(s)| ==> s[i] == s[1..][i - 1];
    }
  }

  /** On right-aligned fields the early exit agrees with the plain sum: both read the number. */
  lemma EarlyExitAgrees(s: string)
    requires RightAligned(s) && |s| == 5
    ensures II(s) == I5(s) == FieldValue(s)
  {
    var t := Trimmed(s);
    TrimmedIsNumeral(s);
    TrimmedOfFive(s);
    ShortValues(t);
    assert forall i :: 0 <= i < |t| ==> t[i] == s[5 - |t| + i];
  }

  // ------------------------------------------------------------------ blocks

  function Field(line: string): string
    requires |line| == LINE
  {
    line[19..24]
  }

  /** Ends with the first line feed behind its first `behind` characters. */
  predicate IsLine(s: string, behind: nat) {
    |s| > behind && s[|s| - 1] == '\n' && forall i :: behind <= i < |s| - 1 ==> s[i] != '\n'
  }

  predicate WellFormed(m: Mapping) {
    var layout := m.layout;
    && IsTarget(layout)
    && IsLine(m.header, 36)
    && |m.lines| == layout.lines && (forall k :: 0 <= k < |m.lines| ==> |m.lines[k]| == LINE)
    && RightAligned(Field(m.lines[RSS_LINE])) && RightAligned(Field(m.lines[REF_LINE]))
    && RightAligned(Field(m.lines[layout.swapLine]))
    && (if layout.flags then IsLine(m.flags, 10) else m.flags == "")
  }

  function Blanks(n: nat): (s: string)
    ensures |s| == n
    ensures forall i :: 0 <= i < n ==> s[i] == ' '
  {
    seq(n, _ => ' ')
  }

  lemma {:induction false} BlankIsAligned(s: string)
    requires forall i :: 0 <= i < |s| ==> s[i] == ' '
    ensures RightAligned(s)
  {
    if s != "" {
      BlankIsAligned(s[1..]);
    }
  }

  /** A block of blanks has the fixed layout. */
  function BlankBlock(): (m: Mapping)
    ensures WellFormed(m)
  {
    BlankIsAligned(Field(Blanks(LINE)));
    Mapping(MIPS, Blanks(36) + "\n", seq(12, _ => Blanks(LINE)), "")
  }

  /** A mapping whose block has the fixed layout. */
  type Block = m: Mapping | WellFormed(m) witness BlankBlock()

  function Joined(parts: seq<string>): string {
    if parts == [] then "" else parts[0] + Joined(parts[1..])
  }

  function BlockText(m: Block): string { m.header + Joined(m.lines) + m.flags }

  function Texts(ms: seq<Block>): (texts: seq<string>)
    ensures |texts| == |ms|
  {
    seq(|ms|, i requires 0 <= i < |ms| => BlockText(ms[i]))
  }

  /** The whole buffer: block after block. */
  function AllText(ms: seq<Block>): string { Joined(Texts(ms)) }

  predicate IsCode(header: string)
    requires |header| > 21
  {
    header[18] == 'r' && header[19] == '-' && header[20] == 'x' && header[21] == 'p'
  }

  predicate IsData(header: string)
    requires |header| > 21
  {
    !IsCode(header) && header[18] == 'r' && header[21] == 'p'
  }

  /** What a mapping adds to the totals. */
  function Share(m: Block): Totals {
    var rss := FieldValue(Field(m.lines[RSS_LINE]));
    var referenced := FieldValue(Field(m.lines[REF_LINE]));
    if IsCode(m.header) then Totals(rss, referenced, 0, 0, 0)
    else if IsData(m.header) then Totals(0, 0, rss, referenced, FieldValue(Field(m.lines[m.layout.swapLine])))
    else NONE
  }

  function Shares(ms: seq<Block>): (shares: seq<Totals>)
    ensures |shares| == |ms|
  {
    seq(|ms|, i requires 0 <= i < |ms| => Share(ms[i]))
  }

  function Total(shares: seq<Totals>): Totals {
    if shares == [] then NONE else Plus(shares[0], Total(shares[1..]))
  }

  function Sum(ms: seq<Block>): Totals { Total(Shares(ms)) }

  lemma {:induction false} JoinedLine(lines: seq<string>, k: nat)
    requires k < |lines| && forall i :: 0 <= i < |lines| ==> |lines[i]| == LINE
    ensures |Joined(lines)| == LINE * |lines|
    ensures Joined(lines)[LINE * k..LINE * k + LINE] == lines[k]
  {
    if |lines| > 1 {
      JoinedLine(lines[1..], if k == 0 then 0 else k - 1);
    } else {
      assert lines[1..] == [];
    }
    if k > 0 {
      assert Joined(lines)[LINE * k..LINE * k + LINE] == Joined(lines[1..])[LINE * (k - 1)..LINE * (k - 1) + LINE];
    }
  }

  // ------------------------------------------------------------------ the scan

  /** while (*p++ != 0x0a); from `p`, where `nl` is the next line feed. */
  method SkipLine(buf: string, p: nat, ghost nl: nat) returns (q: nat)
    requires p <= nl < |buf| && buf[nl] == '\n' && forall i :: p <= i < nl ==> buf[i] != '\n'
    ensures q == nl + 1
  {
    q := p;
    while buf[q] != '\n'
      invariant p <= q <= nl
      decreases nl - q
    {
      q := q + 1;
    }
    q := q + 1;
  }

  /** One field, read with the macro II from its last position. */
  function FieldAt(buf: string, p: nat, line: nat): int
    requires p + LINE * line + 24 <= |buf|
  {
    II(buf[p + LINE * line + 19..p + LINE * line + 24])
  }

  /** The buffer holds the block at `start`. */
  ghost predicate BlockAt(buf: string, start: nat, m: Block) {
    start + |BlockText(m)| <= |buf| && buf[start..start + |BlockText(m)|] == BlockText(m)
  }

  lemma SliceInSlice(s: string, a: nat, b: nat, i: nat, j: nat)
    requires i <= j && a + j <= b <= |s|
    ensures s[a..b][i..j] == s[a + i..a + j]
  {
    var outer, inner := s[a..b], s[a + i..a + j];
    assert |outer[i..j]| == |inner|;
    forall k | 0 <= k < |inner|
      ensures outer[i..j][k] == inner[k]
    {
      assert outer[i + k] == s[a + (i + k)];
    }
    assert outer[i..j] == inner;
  }

  /** Where the parts of a concatenation are. */
  lemma PartsAt(buf: string, start: nat, a: string, b: string, c: string)
    requires start + |a| + |b| + |c| <= |buf| && buf[start..start + |a| + |b| + |c|] == a + b + c
    ensures buf[start..start + |a|] == a
    ensures buf[start + |a|..start + |a| + |b|] == b
    ensures buf[start + |a| + |b|..start + |a| + |b| + |c|] == c
  {
    var n, all := |a| + |b| + |c|, a + b + c;
    SliceInSlice(buf, start, start + n, 0, |a|);
    SliceInSlice(buf, start, start + n, |a|, |a| + |b|);
    SliceInSlice(buf, start, start + n, |a| + |b|, n);
    assert all[0..|a|] == a && all[|a|..|a| + |b|] == b && all[|a| + |b|..n] == c;
  }

  /** Where the header, the fixed lines and the last line of a block are. */
  lemma BlockParts(buf: string, start: nat, m: Block)
    requires BlockAt(buf, start, m)
    ensures var p, q := start + |m.header|, start + |m.header| + LINE * m.layout.lines;
      && |BlockText(m)| == |m.header| + LINE * m.layout.lines + |m.flags|
      && q + |m.flags| <= |buf|
      && buf[start..p] == m.header && buf[p..q] == Joined(m.lines) && buf[q..q + |m.flags|] == m.flags
  {
    JoinedLine(m.lines, 0);
    PartsAt(buf, start, m.header, Joined(m.lines), m.flags);
  }

  lemma CharsAt(buf: string, start: nat, s: string)
    requires start + |s| <= |buf| && buf[start..start + |s|] == s
    ensures forall i :: start <= i < start + |s| ==> buf[i] == s[i - start]
  {
    forall i | start <= i < start + |s|
      ensures buf[i] == s[i - start]
    {
      assert buf[i] == buf[start..start + |s|][i - start];
    }
  }

  /** A line in the buffer ends where it ends. */
  lemma LineAt(buf: string, start: nat, s: string, behind: nat)
    requires start + |s| <= |buf| && buf[start..start + |s|] == s && IsLine(s, behind)
    ensures var nl := start + |s| - 1;
      start + behind <= nl && buf[nl] == '\n' && forall i :: start + behind <= i < nl ==> buf[i] != '\n'
  {
    CharsAt(buf, start, s);
  }

  /** The scan classifies by four characters of the header. */
  lemma HeaderAt(buf: string, start: nat, header: string)
    requires start + |header| <= |buf| && buf[start..start + |header|] == header && |header| > 21
    ensures IsCode(header) <==>
      buf[start + 18] == 'r' && buf[start + 19] == '-' && buf[start + 20] == 'x' && buf[start + 21] == 'p'
    ensures IsData(header) <==> !IsCode(header) && buf[start + 18] == 'r' && buf[start + 21] == 'p'
  {
    CharsAt(buf, start, header);
  }

  /** The last five digits of a field in its line, as the scan addresses them. */
  lemma FieldAtLine(buf: string, p: nat, lines: seq<string>, k: nat)
    requires k < |lines| && forall i :: 0 <= i < |lines| ==> |lines[i]| == LINE
    requires p + LINE * |lines| <= |buf| && buf[p..p + LINE * |lines|] == Joined(lines)
    ensures buf[p + LINE * k + 19..p + LINE * k + 24] == Field(lines[k])
  {
    JoinedLine(lines, k);
    var at := p + LINE * k;
    SliceInSlice(buf, p, p + LINE * |lines|, LINE * k, LINE * k + LINE);
    assert buf[at..at + LINE] == lines[k];
    SliceInSlice(buf, at, at + LINE, 19, 24);
  }

  lemma FieldReadsLine(buf: string, start: nat, m: Block, k: nat)
    requires BlockAt(buf, start, m) && k < m.layout.lines && RightAligned(Field(m.lines[k]))
    ensures start + |m.header| + LINE * k + 24 <= |buf|
    ensures FieldAt(buf, start + |m.header|, k) == FieldValue(Field(m.lines[k]))
  {
    BlockParts(buf, start, m);
    FieldAtLine(buf, start + |m.header|, m.lines, k);
    EarlyExitAgrees(Field(m.lines[k]));
  }

  lemma FieldsReadLines(buf: string, start: nat, m: Block)
    requires BlockAt(buf, start, m)
    ensures start + |m.header| + LINE * m.layout.lines <= |buf|
    ensures forall k | k in {RSS_LINE, REF_LINE, m.layout.swapLine} ::
      FieldAt(buf, start + |m.header|, k) == FieldValue(Field(m.lines[k]))
  {
    FieldReadsLine(buf, start, m, RSS_LINE);
    FieldReadsLine(buf, start, m, REF_LINE);
    FieldReadsLine(buf, start, m, m.layout.swapLine);
    BlockParts(buf, start, m);
  }

  /** Add the fields of the block whose fixed lines start at `p`. */
  method AddFields(buf: string, p: nat, s: Totals, layout: Layout, code: bool, data: bool, ghost m: Block)
    returns (s': Totals)
    requires |m.header| <= p && BlockAt(buf, p - |m.header|, m) && m.layout == layout
    requires (code <==> IsCode(m.header)) && (!code ==> (data <==> IsData(m.header)))
    ensures s' == Plus(s, Share(m))
  {
    FieldsReadLines(buf, p - |m.header|, m);
    s' := s;
    if code {
      s' := s.(codeRss := s.codeRss + FieldAt(buf, p, RSS_LINE), codeRef := s.codeRef + FieldAt(buf, p, REF_LINE));
    } else if data {
      s' := s.(dataRss := s.dataRss + FieldAt(buf, p, RSS_LINE), dataRef := s.dataRef + FieldAt(buf, p, REF_LINE),
               dataSwap := s.dataSwap + FieldAt(buf, p, layout.swapLine));
    }
  }

  /** One pass of the scan loop: classify, add the fields, move behind the block. */
  method ScanBlock(buf: string, start: nat, s: Totals, layout: Layout, ghost m: Block)
    returns (p: nat, s': Totals)
    requires BlockAt(buf, start, m) && m.layout == layout
    ensures p == start + |BlockText(m)|
    ensures s' == Plus(s, Share(m))
  {
    BlockParts(buf, start, m);
    HeaderAt(buf, start, m.header);
    LineAt(buf, start, m.header, 36);
    var code := buf[start + 18] == 'r' && buf[start + 19] == '-' && buf[start + 20] == 'x' && buf[start + 21] == 'p';
    var data := buf[start + 18] == 'r' && buf[start + 21] == 'p';
    p := SkipLine(buf, start + 36, start + |m.header| - 1);
    s' := AddFields(buf, p, s, layout, code, data, m);
    p := p + LINE * layout.lines;
    if layout.flags {
      LineAt(buf, p, m.flags, 10);
      p := SkipLine(buf, p + 10, start + |BlockText(m)| - 1);
    }
  }

  /** The cursor is at the first of the texts left, and the totals cover all before it. */
  ghost predicate Scanning(buf: string, p: nat, texts: seq<string>, shares: seq<Totals>, s: Totals, all: Totals) {
    && |texts| == |shares| && (forall i :: 0 <= i < |texts| ==> texts[i] != "")
    && p <= |buf| && buf[p..] == Joined(texts)
    && Plus(s, Total(shares)) == all
  }

  lemma ScanningStep(buf: string, p: nat, texts: seq<string>, shares: seq<Totals>, s: Totals, all: Totals)
    requires Scanning(buf, p, texts, shares, s, all) && texts != []
    ensures p + |texts[0]| <= |buf| && buf[p..p + |texts[0]|] == texts[0]
    ensures Scanning(buf, p + |texts[0]|, texts[1..], shares[1..], Plus(s, shares[0]), all)
  {
    var n := |texts[0]|;
    assert buf[p..p + n] == buf[p..][..n];
    assert buf[p + n..] == buf[p..][n..];
  }

  lemma ScanningEnd(buf: string, p: nat, texts: seq<string>, shares: seq<Totals>, s: Totals, all: Totals)
    requires Scanning(buf, p, texts, shares, s, all)
    ensures p == |buf| <==> texts == []
    ensures texts == [] ==> s == all
  {
    assert |buf[p..]| == |buf| - p;
    assert texts != [] ==> |Joined(texts)| >= |texts[0]| > 0;
  }

  lemma BlockIsNotEmpty(m: Block)
    ensures BlockText(m) != ""
  {
    assert |BlockText(m)| >= |m.header| > 0;
  }

  lemma ScanningStart(buf: string, ms: seq<Block>)
    requires buf == AllText(ms)
    ensures Scanning(buf, 0, Texts(ms), Shares(ms), NONE, Sum(ms))
  {
    forall i | 0 <= i < |ms|
      ensures Texts(ms)[i] != ""
    {
      BlockIsNotEmpty(ms[i]);
    }
    assert buf[0..] == buf;
    PlusNone(Sum(ms));
  }

  lemma PlusNone(t: Totals)
    ensures Plus(NONE, t) == t
  {
  }

  lemma TailOf(ms: seq<Block>)
    requires ms != []
    ensures Texts(ms)[1..] == Texts(ms[1..]) && Shares(ms)[1..] == Shares(ms[1..])
    ensures Texts(ms)[0] == BlockText(ms[0]) && Shares(ms)[0] == Share(ms[0])
  {
  }

  predicate AllOf(ms: seq<Block>, layout: Layout) {
    forall i :: 0 <= i < |ms| ==> ms[i].layout == layout
  }

  /** After one block the scan stands before the others. */
  lemma ScanOn(buf: string, p: nat, left: seq<Block>, s: Totals, all: Totals)
    requires left != [] && Scanning(buf, p, Texts(left), Shares(left), s, all)
    ensures BlockAt(buf, p, left[0])
    ensures Scanning(buf, p + |BlockText(left[0])|, Texts(left[1..]), Shares(left[1..]), Plus(s, Share(left[0])), all)
  {
    TailOf(left);
    ScanningStep(buf, p, Texts(left), Shares(left), s, all);
  }

  /**
   tdiprocsmaps on a buffer of well-formed blocks: the cursor stops at every block boundary
   and finally at the end, and the totals are the sums over the mappings.
   */
  method Scan(buf: string, layout: Layout, ghost ms: seq<Block>) returns (s: Totals, blocks: nat)
    requires AllOf(ms, layout) && buf == AllText(ms)
    ensures s == Sum(ms) && blocks == |ms|
  {
    var p := 0;
    s, blocks := NONE, 0;
    ghost var left, all := ms, Sum(ms);
    ScanningStart(buf, ms);
    ScanningEnd(buf, p, Texts(left), Shares(left), s, all);
    while p != |buf|
      invariant 0 <= p && Scanning(buf, p, Texts(left), Shares(left), s, all)
      invariant AllOf(left, layout) && (p == |buf| <==> left == [])
      invariant left == [] ==> s == all
      invariant blocks + |left| == |ms|
      decreases |left|
    {
      ScanOn(buf, p, left, s, all);
      p, s := ScanBlock(buf, p, s, layout, left[0]);
      left := left[1..];
      blocks := blocks + 1;
      ScanningEnd(buf, p, Texts(left), Shares(left), s, all);
    }
  }
}
