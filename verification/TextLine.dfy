/**
 The line the translator works on: the "[pid:proc]" prefix joined to a record's text region,
 line breaks replaced, and the record's numbers appended.
 */
module TextLine {
  import opened Words
  import opened Numerals
  import opened Records

  /** Bytes that make the translator treat a text as `@X+` or `@X-`. */
  predicate IsMark(bytes: string) {
    |bytes| > 2 && bytes[0] == '@' && (bytes[2] == '+' || bytes[2] == '-')
  }

  function Take(s: string, n: nat): string {
    if n <= |s| then s[..n] else s
  }

  /** %02X of a byte. */
  function Hex2(b: Byte): string {
    [UpperDigit(b / 16), UpperDigit(b % 16)]
  }

  function UpperDigit(d: nat): (c: char)
    requires d < 16
    ensures c == "0123456789ABCDEF"[d]
  {
    if d < 10 then (d + '0' as int) as char else (d + 'A' as int - 10) as char
  }

  /**
   The rebuilt line. `bytes` is memory from the text pointer on: the text region of `textLen`
   bytes and whatever follows it, since %s reads to a NUL and only snprintf's size stops it.
   */
  function Rebuilt(prefix: string, bytes: string, textLen: nat, id: Byte): string {
    if IsMark(bytes) then
      CString(bytes[..3] + (if |prefix| + textLen >= 3
                            then Take(prefix + CString(bytes[3..]), |prefix| + textLen - 3) else ""))
    else if textLen > 0 then Take(prefix + CString(bytes), |prefix| + textLen)
    else Take(prefix + Hex2(id), |prefix| + 2)
  }

  /** A marked text gets the prefix behind its first three characters, any other in front. */
  function Joined(prefix: string, text: string): string {
    if IsMark(text) then text[..3] + prefix + text[3..] else prefix + text
  }

  lemma PaddedTail(text: string, rest: string)
    requires IsText(text)
    ensures |Padded(text)| >= |text| && (Padded(text) + rest)[..|text|] == text
    ensures |Padded(text)| > |text| ==> CString(Padded(text) + rest) == text
    ensures |Padded(text)| == |text| ==> CString(Padded(text) + rest) == text + CString(rest)
  {
    if |Padded(text)| > |text| {
      var tail := Zeros(PadLength(|text|)) + rest;
      assert Padded(text) + rest == text + tail;
      CStringOfTerminated(text, tail);
    } else {
      assert Padded(text) == text;
      CStringOfText(text, rest);
    }
  }

  lemma {:induction false} CStringOfText(text: string, rest: string)
    requires IsText(text)
    ensures CString(text + rest) == text + CString(rest)
  {
    if text == "" {
      assert text + rest == rest;
    } else {
      assert (text + rest)[1..] == text[1..] + rest;
      CStringOfText(text[1..], rest);
    }
  }

  lemma MarkOfPadded(text: string, rest: string)
    requires IsText(text) && text != ""
    ensures IsMark(Padded(text) + rest) <==> IsMark(text)
  {
    var bytes := Padded(text) + rest;
    assert bytes[..|text|] == text;
    assert |Padded(text)| >= 4;
    if |text| == 1 || |text| == 2 {
      assert bytes[2] == Zeros(PadLength(|text|))[2 - |text|] == '\0';
    }
  }

  lemma PlainRecovered(prefix: string, text: string, rest: string)
    requires IsText(text)
    ensures Take(prefix + CString(Padded(text) + rest), |prefix| + |Padded(text)|) == prefix + text
  {
    PaddedTail(text, rest);
  }

  /** Behind the first three bytes of a padded text, the rest of the text is recovered. */
  lemma MarkRecovered(prefix: string, text: string, rest: string)
    requires IsText(prefix) && IsText(text) && |text| >= 3
    ensures Take(prefix + CString((Padded(text) + rest)[3..]), |prefix| + |Padded(text)| - 3) == prefix + text[3..]
  {
    PaddedTail(text, rest);
    var bytes := Padded(text) + rest;
    assert bytes == text[..3] + bytes[3..];
    CStringOfText(text[..3], bytes[3..]);
    var tail := CString(bytes[3..]);
    assert CString(bytes) == text[..3] + tail;
    assert tail == CString(bytes)[3..];
  }

  /**
   Text recovery: for any non-empty NUL-free text the rebuilt line is the prefix and exactly
   the text, also when its length is a multiple of four and nothing terminates it in memory.
   */
  lemma TextRecovered(prefix: string, text: string, rest: string, id: Byte)
    requires IsText(prefix) && IsText(text) && text != ""
    ensures Rebuilt(prefix, Padded(text) + rest, |Padded(text)|, id) == Joined(prefix, text)
  {
    MarkOfPadded(text, rest);
    if IsMark(text) {
      MarkRecovered(prefix, text, rest);
      var line := text[..3] + (prefix + text[3..]);
      PaddedTail(text, rest);
      assert (Padded(text) + rest)[..3] == text[..3];
      CStringOfTerminated(line, "");
      assert line + "" == line;
      assert text[..3] + prefix + text[3..] == line;
    } else {
      PlainRecovered(prefix, text, rest);
    }
  }

  /** What a record's line starts with: its text, or without text its identifier. */
  function Shown(prefix: string, text: string, id: Byte): string {
    if text == "" then prefix + Hex2(id) else Joined(prefix, text)
  }

  /** A record without text shows its identifier, unless the bytes that follow look marked. */
  lemma EmptyTextShown(prefix: string, rest: string, id: Byte)
    requires !IsMark(rest)
    ensures Rebuilt(prefix, rest, 0, id) == prefix + Hex2(id)
  {
  }

  /** Records whose marker, seen as bytes, starts like `@X+` or `@X-`. */
  predicate LooksMarked(next: Record) {
    Size(next) % 256 == 64 && (|next.numbers| == 43 || |next.numbers| == 45)
  }

  /**
   What follows an empty text is the next record's marker: it looks marked exactly when that
   record is 64 dwords long (modulo 256) and has 43 or 45 numbers.
   */
  lemma EmptyTextMisread(next: Record, rest: string)
    ensures IsMark(BytesOf([MarkerOf(next)]) + rest) <==> LooksMarked(next)
  {
    var w := MarkerOf(next);
    var n := Size(next);
    var bytes := BytesOf([w]);
    assert bytes == [OctetAt(w, 0), OctetAt(w, 1), OctetAt(w, 2), OctetAt(w, 3)] + BytesOf([]);
    MarkerFields(n, |next.numbers|, next.id);
    LowByte(n, |next.numbers| * 0x100 + next.id * 0x1_0000);
    assert w == n + 0x100 * (|next.numbers| * 0x100 + next.id * 0x1_0000);
    assert OctetAt(w, 2) == |next.numbers| as char;
    assert OctetAt(w, 0) == (n % 256) as char;
  }

  /** A line rebuilt from bytes that look marked starts with '@', not with the prefix. */
  lemma MisreadLine(prefix: string, bytes: string, id: Byte)
    requires IsMark(bytes) && prefix != "" && prefix[0] != '@'
    ensures Rebuilt(prefix, bytes, 0, id) != prefix + Hex2(id)
  {
    var line := Rebuilt(prefix, bytes, 0, id);
    assert line != "" && line[0] == '@';
    assert (prefix + Hex2(id))[0] == prefix[0];
  }

  /**
   So a record without text in front of another one shows its identifier if and only if the
   other one does not look marked; and there are records that do.
   */
  lemma EmptyTextExactly(prefix: string, next: Record, rest: string, id: Byte) returns (marked: Record)
    requires prefix != "" && prefix[0] != '@'
    ensures Rebuilt(prefix, BytesOf([MarkerOf(next)]) + rest, 0, id) == prefix + Hex2(id) <==> !LooksMarked(next)
    ensures LooksMarked(marked)
  {
    EmptyTextMisread(next, rest);
    if LooksMarked(next) {
      MisreadLine(prefix, BytesOf([MarkerOf(next)]) + rest, id);
    } else {
      EmptyTextShown(prefix, BytesOf([MarkerOf(next)]) + rest, id);
    }
    marked := RecordWith(43, 18);
  }

  lemma LowByte(n: nat, high: nat)
    ensures (n + 0x100 * high) % 0x100 == n % 0x100
  {
  }

  /** Carriage returns and line feeds become underscores. */
  function Underscored(s: string): (t: string)
    ensures |t| == |s|
    ensures forall i :: 0 <= i < |s| ==> t[i] == if s[i] == '\r' || s[i] == '\n' then '_' else s[i]
  {
    seq(|s|, i requires 0 <= i < |s| => if s[i] == '\r' || s[i] == '\n' then '_' else s[i])
  }

  /** " @0=1f@1=2" and so on. */
  function NumberTail(numbers: seq<Word>): string {
    if numbers == [] then ""
    else
      var n := |numbers| - 1;
      NumberTail(numbers[..n]) + (if n == 0 then " " else "") + "@" + Numeral(n, 10) + "=" + Numeral(numbers[n], 16)
  }

  /** Whatever numbers follow, they are set off by a space. */
  lemma {:induction false} NumberTailSetOff(numbers: seq<Word>)
    requires numbers != []
    ensures NumberTail(numbers) != "" && NumberTail(numbers)[0] == ' '
  {
    if |numbers| > 1 {
      NumberTailSetOff(numbers[..|numbers| - 1]);
    } else {
      assert numbers[..0] == [];
    }
  }

  /** One more number adds its place in decimal and its value in hexadecimal digits. */
  lemma NumberTailShows(numbers: seq<Word>, n: Word) returns (place: string, value: string)
    ensures NumberTail(numbers + [n]) ==
      NumberTail(numbers) + (if numbers == [] then " " else "") + "@" + place + "=" + value
    ensures IsCanonical(place, 10) && ValueOf(place, 10) == |numbers|
    ensures IsCanonical(value, 16) && ValueOf(value, 16) == n
  {
    assert (numbers + [n])[..|numbers|] == numbers;
    place, value := Numeral(|numbers|, 10), Numeral(n, 16);
  }

  /** The identifier is shown by its two upper-case hexadecimal digits. */
  lemma IdentifierShown(b: Byte) returns (high: nat, low: nat)
    ensures high < 16 && low < 16 && b == 16 * high + low
    ensures Hex2(b) == ["0123456789ABCDEF"[high], "0123456789ABCDEF"[low]]
  {
    high, low := b / 16, b % 16;
  }

  lemma NumberTailSnoc(numbers: seq<Word>, i: nat)
    requires i < |numbers|
    ensures NumberTail(numbers[..i + 1]) ==
      NumberTail(numbers[..i]) + ((if i == 0 then " " else "") + "@" + Numeral(i, 10) + "=" + Numeral(numbers[i], 16))
  {
    assert numbers[..i + 1][..i] == numbers[..i];
  }

  /** addentry's loop over the line that gets rid of line breaks. */
  method ReplaceBreaks(text: string) returns (line: string)
    ensures line == Underscored(text)
  {
    line := text;
    for i := 0 to |line|
      invariant |line| == |text|
      invariant forall j :: 0 <= j < i ==> line[j] == Underscored(text)[j]
      invariant forall j :: i <= j < |line| ==> line[j] == text[j]
    {
      if line[i] == '\r' || line[i] == '\n' {
        line := line[i := '_'];
      }
    }
  }

  /** addentry's loop that appends the numbers one by one. */
  method AppendNumbers(start: string, numbers: seq<Word>) returns (line: string)
    ensures line == start + NumberTail(numbers)
  {
    line := start;
    for i := 0 to |numbers|
      invariant line == start + NumberTail(numbers[..i])
    {
      var number := (if i == 0 then " " else "") + "@" + Numeral(i, 10) + "=" + Numeral(numbers[i], 16);
      NumberTailSnoc(numbers, i);
      StringsAssociate(start, NumberTail(numbers[..i]), number);
      line := line + number;
    }
    assert numbers[..|numbers|] == numbers;
  }

  lemma StringsAssociate(a: string, b: string, c: string)
    ensures a + b + c == a + (b + c)
  {
  }
}
