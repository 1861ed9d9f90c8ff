/**
 The translator behind the rebuilt line: which timeline a line belongs to, the name tables
 that number the timelines, and the lines emitted for it.
 */
module Timelines {
  import opened Numerals

  const TASKS: nat := 0
  const ISRS: nat := 1
  const SEMAS: nat := 2
  const QUEUES: nat := 3
  const EVENTS: nat := 4
  const VALUES: nat := 5
  const CYCLES: nat := 6
  const NOTES: nat := 7
  const AGENTS: nat := 8
  const KINDS: nat := 9

  /** First timeline id of a kind. */
  function Base(kind: nat): nat
    requires kind < KINDS
  {
    [10000, 20000, 21000, 22000, 23000, 24000, 25000, 26000, 27000][kind]
  }

  /** Size of a kind's name table. */
  function Limit(kind: nat): nat
    requires kind < KINDS
  {
    if kind == TASKS then 2048 else 512
  }

  // ------------------------------------------------------------------ strings

  /** The part of a line before its first space. */
  function Token(s: string): (t: string)
    ensures t <= s && ' ' !in t
    ensures |t| < |s| ==> s[|t|] == ' '
  {
    if s == "" || s[0] == ' ' then "" else [s[0]] + Token(s[1..])
  }

  ghost predicate Absent(s: string, lo: int, hi: int, c: char) {
    forall k :: 0 <= lo <= k < hi <= |s| ==> s[k] != c
  }

  /** strchr: index of the first `c`, or -1. */
  function IndexOf(s: string, c: char): (i: int)
    ensures -1 <= i < |s|
    ensures i >= 0 ==> s[i] == c && Absent(s, 0, i, c)
    ensures i == -1 ==> Absent(s, 0, |s|, c)
  {
    if s == "" then -1
    else if s[0] == c then 0
    else
      var i := IndexOf(s[1..], c);
      if i == -1 then -1 else i + 1
  }

  /** Index of the last `c`, or -1. */
  function LastIndexOf(s: string, c: char): (i: int)
    ensures -1 <= i < |s|
    ensures i >= 0 ==> s[i] == c && Absent(s, i + 1, |s|, c)
    ensures i == -1 ==> Absent(s, 0, |s|, c)
  {
    if s == "" then -1
    else if s[|s| - 1] == c then |s| - 1
    else LastIndexOf(s[..|s| - 1], c)
  }

  function Replaced(s: string, c: char, d: char): (t: string)
    ensures |t| == |s|
    ensures forall i :: 0 <= i < |s| ==> t[i] == if s[i] == c then d else s[i]
  {
    seq(|s|, i requires 0 <= i < |s| => if s[i] == c then d else s[i])
  }

  lemma {:induction false} TokenOfTail(s: string, tail: string)
    requires tail != "" && tail[0] == ' '
    ensures Token(s + tail) == Token(s)
  {
    if s == "" {
      assert s + tail == tail;
    } else if s[0] != ' ' {
      assert (s + tail)[1..] == s[1..] + tail;
      TokenOfTail(s[1..], tail);
    }
  }

  lemma {:induction false} IndexInToken(s: string, c: char)
    requires c != ' '
    ensures IndexOf(Token(s), c) >= 0 ==> IndexOf(s, c) == IndexOf(Token(s), c)
    ensures IndexOf(Token(s), c) == -1 <==> LastIndexOf(Token(s), c) == -1
  {
    if s != "" && s[0] != ' ' {
      assert Token(s)[1..] == Token(s[1..]);
      IndexInToken(s[1..], c);
    }
  }

  // ------------------------------------------------------------------ classification

  /** The timeline a line is about and what it says there. */
  datatype Entry =
    | Span(kind: nat, up: bool, key: string)
    | Point(kind: nat, key: string)
    | Level(name: string, value: int)
    | Value(name: string, value: int)
    | Cycle(name: string, value: int)

  datatype Timeline = Timeline(kind: nat, name: string)

  function TimelineOf(e: Entry): Timeline {
    match e
    case Span(kind, _, key) => Timeline(kind, key)
    case Point(kind, key) => Timeline(kind, key)
    case Level(name, _) => Timeline(QUEUES, name)
    case Value(name, _) => Timeline(VALUES, name)
    case Cycle(name, _) => Timeline(CYCLES, name)
  }

  /** The line behind the three characters of a marked line; for tasks '|' separates like ' '. */
  function MarkedRest(line: string): string
    requires |line| >= 3
  {
    if line[1] == 'T' then Replaced(line[3..], '|', ' ') else line[3..]
  }

  function MarkedEntry(line: string): Entry
    requires |line| >= 3
  {
    var up := line[2] == '+';
    var key := Token(MarkedRest(line));
    if line[1] == 'T' then Span(TASKS, up, key)
    else if line[1] == 'S' && up then Point(SEMAS, key)
    else if line[1] == 'I' then Span(ISRS, up, key)
    else if line[1] == 'E' && up then Point(EVENTS, key)
    else Span(AGENTS, up, key)
  }

  datatype Split = NoSplit | Split(name: string, value: int)

  /**
   name~value: the first separator of the whole line must be followed by a digit; name and
   value are then taken at the last separator of the first token, where earlier separators
   have been overwritten by spaces.
   */
  function SplitAt(line: string, c: char): Split {
    var q := IndexOf(line, c);
    if q == -1 || q + 1 >= |line| || !IsDigit(line[q + 1], 10) then NoSplit
    else
      var last := LastIndexOf(Token(line), c);
      if last <= 0 then NoSplit
      else Split(Replaced(line[..last], c, ' '), Atoi(line[last + 1..]))
  }

  /** A lone separator in front, with a digit behind it, is overwritten but splits nothing. */
  predicate Blanks(line: string, c: char) {
    && IndexOf(line, c) == 0 && 1 < |line| && IsDigit(line[1], 10)
    && LastIndexOf(Token(line), c) == 0
  }

  /** The line after an attempt to split it that found no name. */
  function Tried(line: string, c: char): (text: string)
    ensures |text| == |line|
  {
    if Blanks(line, c) then line[0 := ' '] else line
  }

  /** The line after all three attempts failed. */
  function Unsplit(line: string): (text: string)
    ensures |text| == |line|
  {
    Tried(Tried(Tried(line, '~'), '#'), '^')
  }

  function PlainEntry(line: string): Entry {
    var line1 := Tried(line, '~');
    var line2 := Tried(line1, '#');
    var q, v, c := SplitAt(line, '~'), SplitAt(line1, '#'), SplitAt(line2, '^');
    if q.Split? then Level(q.name, q.value)
    else if v.Split? then Value(v.name, v.value)
    else if c.Split? then Cycle(c.name, c.value)
    else Point(NOTES, Token(Unsplit(line)))
  }

  function EntryOf(marked: bool, line: string): Entry
    requires marked ==> |line| >= 3
  {
    if marked then MarkedEntry(line) else PlainEntry(line)
  }

  lemma ReplacedTail(s: string, tail: string, c: char, d: char)
    ensures Replaced(s + tail, c, d) == Replaced(s, c, d) + Replaced(tail, c, d)
  {
  }

  /** The separator test, the place of the split and the name only depend on the first token. */
  lemma SplitKeepsName(line: string, tail: string, c: char)
    requires tail != "" && tail[0] == ' ' && c != ' '
    ensures SplitAt(line, c).Split? <==> SplitAt(line + tail, c).Split?
    ensures SplitAt(line, c).Split? ==> SplitAt(line, c).name == SplitAt(line + tail, c).name
  {
    var t := Token(line);
    TokenOfTail(line, tail);
    IndexInToken(line, c);
    IndexInToken(line + tail, c);
    var q, last := IndexOf(t, c), LastIndexOf(t, c);
    if q >= 0 {
      SameSplit(line, tail, c, q, last);
    }
  }

  lemma SameSplit(line: string, tail: string, c: char, q: nat, last: nat)
    requires tail != "" && tail[0] == ' ' && q < |line| && last < |line|
    requires IndexOf(line, c) == q == IndexOf(line + tail, c)
    requires LastIndexOf(Token(line), c) == last == LastIndexOf(Token(line + tail), c)
    ensures SplitAt(line, c).Split? <==> SplitAt(line + tail, c).Split?
    ensures SplitAt(line, c).Split? ==> SplitAt(line, c).name == SplitAt(line + tail, c).name
  {
    assert (line + tail)[q + 1] == if q + 1 < |line| then line[q + 1] else ' ';
    assert (line + tail)[..last] == line[..last];
  }

  /** Nor do trailing words matter to what an attempt to split leaves of the line. */
  lemma TriedTail(line: string, tail: string, c: char)
    requires tail != "" && tail[0] == ' ' && c != ' '
    ensures Tried(line + tail, c) == Tried(line, c) + tail
    ensures SplitAt(line, c).Split? <==> SplitAt(line + tail, c).Split?
    ensures SplitAt(line, c).Split? ==> SplitAt(line, c).name == SplitAt(line + tail, c).name
  {
    SplitKeepsName(line, tail, c);
    TokenOfTail(line, tail);
    if line != "" {
      assert (line + tail)[0] == line[0] && (line + tail)[1] == if |line| > 1 then line[1] else ' ';
      StartsWith(line, c);
      StartsWith(line + tail, c);
      assert (line + tail)[0 := ' '] == line[0 := ' '] + tail;
    } else {
      assert line + tail == tail;
    }
  }

  lemma StartsWith(line: string, c: char)
    requires line != ""
    ensures IndexOf(line, c) == 0 <==> line[0] == c
  {
  }

  /** A line that was overwritten has no first word any more, so it is not split later. */
  lemma SplitsUntouched(line: string, c: char, d: char)
    ensures SplitAt(Tried(line, c), d).Split? ==> Tried(line, c) == line
  {
    if Blanks(line, c) {
      assert Token(Tried(line, c)) == "";
    }
  }

  lemma MarkedRestTail(line: string, tail: string)
    requires |line| >= 3 && tail != "" && tail[0] == ' '
    ensures Token(MarkedRest(line + tail)) == Token(MarkedRest(line))
  {
    var rest := line[3..];
    assert (line + tail)[3..] == rest + tail && (line + tail)[1] == line[1];
    if line[1] == 'T' {
      ReplacedTail(rest, tail, '|', ' ');
      TokenOfTail(Replaced(rest, '|', ' '), Replaced(tail, '|', ' '));
    } else {
      TokenOfTail(rest, tail);
    }
  }

  lemma MarkedTail(line: string, tail: string)
    requires |line| >= 3 && tail != "" && tail[0] == ' '
    ensures TimelineOf(MarkedEntry(line + tail)) == TimelineOf(MarkedEntry(line))
  {
    assert (line + tail)[1] == line[1] && (line + tail)[2] == line[2];
    MarkedRestTail(line, tail);
  }

  /** Trailing numbers or arguments never change the timeline a line is put on. */
  lemma TailKeepsTimeline(marked: bool, line: string, tail: string)
    requires marked ==> |line| >= 3
    requires tail != "" && tail[0] == ' '
    ensures TimelineOf(EntryOf(marked, line + tail)) == TimelineOf(EntryOf(marked, line))
  {
    if marked {
      MarkedTail(line, tail);
    } else {
      TriedTail(line, tail, '~');
      var line1 := Tried(line, '~');
      TriedTail(line1, tail, '#');
      var line2 := Tried(line1, '#');
      TriedTail(line2, tail, '^');
      TokenOfTail(Unsplit(line), tail);
    }
  }

  /** A split name is free of spaces exactly when the first token has one separator only. */
  lemma SplitNameSpaceFree(line: string, c: char)
    requires c != ' ' && SplitAt(line, c).Split?
    ensures ' ' !in SplitAt(line, c).name <==> IndexOf(Token(line), c) == LastIndexOf(Token(line), c)
  {
    var t := Token(line);
    var first, last := IndexOf(t, c), LastIndexOf(t, c);
    var name := SplitAt(line, c).name;
    IndexInToken(line, c);
    assert line[..last] == t[..last];
    assert 0 <= first <= last;
    if first < last {
      assert name[first] == ' ';
    } else {
      assert forall i :: 0 <= i < last ==> name[i] == t[i] && t[i] != ' ';
    }
  }

  /** With two separators the name keeps a space where the first one was. */
  lemma TwoSeparators(name: string, c: char)
    requires name != "" && ' ' !in name && c !in name && c != ' ' && !IsDigit(c, 10)
    ensures var line := name + [c] + "1" + [c] + "2";
      SplitAt(line, c) == Split(name + " 1", 2) && ' ' in SplitAt(line, c).name
  {
    var line := name + [c] + "1" + [c] + "2";
    var n := |name|;
    assert line[n] == c && line[n + 1] == '1' && line[n + 2] == c && line[n + 3] == '2' && |line| == n + 4;
    assert ' ' !in line;
    assert Token(line) == line;
    FoundAt(line, c, n);
    LastFoundAt(line, c, n + 2);
    var got := Replaced(line[..n + 2], c, ' ');
    assert got == name + " 1";
    assert got[n] == ' ';
    ValueOfTwo(line[n + 3..]);
  }

  lemma ValueOfTwo(s: string)
    requires s == "2"
    ensures Atoi(s) == 2
  {
    assert s + "" == s;
    AtoiOfDigits("2", "");
  }

  lemma FoundAt(s: string, c: char, i: nat)
    requires i < |s| && s[i] == c && Absent(s, 0, i, c)
    ensures IndexOf(s, c) == i
  {
  }

  lemma LastFoundAt(s: string, c: char, i: nat)
    requires i < |s| && s[i] == c && Absent(s, i + 1, |s|, c)
    ensures LastIndexOf(s, c) == i
  {
  }
}
