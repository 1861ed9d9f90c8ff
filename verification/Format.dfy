/**
 The trace call's own formatter: literal characters, %s, %d, %u, %x, %p, %n and %m. Numbers
 given to %n go to the record's number list, the one given to %m becomes its identifier.
 */
module Format {
  import opened Words
  import opened Numerals

  datatype Arg = Num(n: Word) | Str(s: string) | Null

  datatype Message = Message(id: Byte, numbers: seq<Word>, text: string)

  const BLANK: Message := Message(0, [], "")

  /** Characters of a %s argument that are copied at most. */
  const STRING_LIMIT: nat := 513

  predicate TakesNumber(c: char) { c in "duxpnm" }

  /** Conversions that read a whole array of numbers or set several fields at once. */
  predicate IsBulk(c: char) { c in "CMSDNIPKE0123456789" }

  /** The arguments are of the kinds the conversions ask for; any other conversion is skipped. */
  predicate Matches(format: string, args: seq<Arg>)
    decreases |format|
  {
    if format == "" then args == []
    else if format[0] != '%' then Matches(format[1..], args)
    else
      && |format| >= 2 && !IsBulk(format[1])
      && if TakesNumber(format[1]) then args != [] && args[0].Num? && Matches(format[2..], args[1..])
         else if format[1] == 's' then args != [] && !args[0].Num? && Matches(format[2..], args[1..])
         else Matches(format[2..], args)
  }

  function AsInt32(w: Word): Int32 { if w < 0x8000_0000 then w else w - 0x1_0000_0000 }

  function Copied(arg: Arg): string {
    match arg
    case Str(s) => if |s| <= STRING_LIMIT then s else s[..STRING_LIMIT]
    case _ => "nil"
  }

  /** One conversion on its argument. */
  function Converted(m: Message, c: char, arg: Arg): Message
    requires (TakesNumber(c) && arg.Num?) || (c == 's' && !arg.Num?)
  {
    if c == 's' then m.(text := m.text + Copied(arg))
    else if c == 'd' then m.(text := m.text + SignedNumeral(AsInt32(arg.n)))
    else if c == 'u' then m.(text := m.text + Numeral(arg.n, 10))
    else if c == 'x' || c == 'p' then m.(text := m.text + Numeral(arg.n, 16))
    else if c == 'n' then m.(numbers := m.numbers + [arg.n])
    else m.(id := arg.n % 0x100)
  }

  function Formatted(format: string, args: seq<Arg>, m: Message): Message
    requires Matches(format, args)
    decreases |format|
  {
    if format == "" then m
    else if format[0] != '%' then Formatted(format[1..], args, m.(text := m.text + [format[0]]))
    else if TakesNumber(format[1]) || format[1] == 's'
    then Formatted(format[2..], args[1..], Converted(m, format[1], args[0]))
    else Formatted(format[2..], args, m)
  }

  // ------------------------------------------------------------------ what a format asks for

  predicate TakesArg(c: char) { c in "duxpnms" }

  /** The arguments of the conversions `c`, in order. */
  function ArgsOf(format: string, args: seq<Arg>, c: char): (picked: seq<Arg>)
    requires Matches(format, args)
    ensures c in "duxpnm" ==> forall i :: 0 <= i < |picked| ==> picked[i].Num?
    decreases |format|
  {
    if format == "" then []
    else if format[0] != '%' then ArgsOf(format[1..], args, c)
    else if TakesArg(format[1])
    then (if format[1] == c then [args[0]] else []) + ArgsOf(format[2..], args[1..], c)
    else ArgsOf(format[2..], args, c)
  }

  /** The numbers given to %n, in argument order. */
  function NumbersAsked(format: string, args: seq<Arg>): seq<Word>
    requires Matches(format, args)
  {
    var picked := ArgsOf(format, args, 'n');
    seq(|picked|, i requires 0 <= i < |picked| => picked[i].n)
  }

  /** The low byte of the number given to the last %m, or `id` without one. */
  function IdAsked(format: string, args: seq<Arg>, id: Byte): Byte
    requires Matches(format, args)
  {
    var picked := ArgsOf(format, args, 'm');
    if picked == [] then id else picked[|picked| - 1].n % 256
  }

  /** What a conversion shows of its argument. */
  function Piece(c: char, arg: Arg): string
    requires (c in "duxpnm" && arg.Num?) || (c == 's' && !arg.Num?)
  {
    match c
    case 'd' => SignedNumeral(if arg.n < 0x8000_0000 then arg.n else arg.n - 0x1_0000_0000)
    case 'u' => Numeral(arg.n, 10)
    case 'x' => Numeral(arg.n, 16)
    case 'p' => Numeral(arg.n, 16)
    case 's' => if arg.Null? then "nil" else if |arg.s| > 513 then arg.s[..513] else arg.s
    case _ => ""
  }

  /** The text: literal characters and the pieces of the conversions, in format order. */
  function TextAsked(format: string, args: seq<Arg>): string
    requires Matches(format, args)
    decreases |format|
  {
    if format == "" then ""
    else if format[0] != '%' then [format[0]] + TextAsked(format[1..], args)
    else if TakesArg(format[1]) then Piece(format[1], args[0]) + TextAsked(format[2..], args[1..])
    else TextAsked(format[2..], args)
  }

  lemma ConvertedPieces(m: Message, c: char, arg: Arg)
    requires (TakesNumber(c) && arg.Num?) || (c == 's' && !arg.Num?)
    ensures var m' := Converted(m, c, arg);
      && m'.text == m.text + Piece(c, arg)
      && m'.numbers == m.numbers + (if c == 'n' then [arg.n] else [])
      && m'.id == if c == 'm' then arg.n % 256 else m.id
  {
    assert m.text + "" == m.text && m.numbers + [] == m.numbers;
  }

  lemma ArgsOfCons(format: string, args: seq<Arg>, c: char)
    requires Matches(format, args) && |format| >= 2 && format[0] == '%' && TakesArg(format[1])
    ensures ArgsOf(format, args, c) ==
      if format[1] == c then [args[0]] + ArgsOf(format[2..], args[1..], c) else ArgsOf(format[2..], args[1..], c)
  {
    var rest := ArgsOf(format[2..], args[1..], c);
    assert [] + rest == rest;
  }

  lemma NumbersAskedCons(format: string, args: seq<Arg>)
    requires Matches(format, args) && |format| >= 2 && format[0] == '%' && TakesArg(format[1])
    ensures NumbersAsked(format, args) ==
      (if format[1] == 'n' then [args[0].n] else []) + NumbersAsked(format[2..], args[1..])
  {
    ArgsOfCons(format, args, 'n');
  }

  lemma IdAskedCons(format: string, args: seq<Arg>, id: Byte)
    requires Matches(format, args) && |format| >= 2 && format[0] == '%' && TakesArg(format[1])
    ensures IdAsked(format, args, id) ==
      IdAsked(format[2..], args[1..], if format[1] == 'm' then args[0].n % 256 else id)
  {
    ArgsOfCons(format, args, 'm');
  }

  lemma StringsAssociate<T>(a: seq<T>, b: seq<T>, c: seq<T>)
    ensures a + b + c == a + (b + c)
  {
  }

  /** The message holds what the format asks for, behind what was there before. */
  lemma {:induction false} FormattedAsAsked(format: string, args: seq<Arg>, m: Message)
    requires Matches(format, args)
    ensures var m' := Formatted(format, args, m);
      && m'.numbers == m.numbers + NumbersAsked(format, args)
      && m'.id == IdAsked(format, args, m.id)
      && m'.text == m.text + TextAsked(format, args)
    decreases |format|
  {
    if format == "" {
      assert m.text + "" == m.text && m.numbers + [] == m.numbers;
    } else if format[0] != '%' {
      FormattedAsAsked(format[1..], args, m.(text := m.text + [format[0]]));
      StringsAssociate(m.text, [format[0]], TextAsked(format[1..], args));
    } else if TakesArg(format[1]) {
      var m1 := Converted(m, format[1], args[0]);
      ConvertedPieces(m, format[1], args[0]);
      NumbersAskedCons(format, args);
      IdAskedCons(format, args, m.id);
      FormattedAsAsked(format[2..], args[1..], m1);
      StringsAssociate(m.text, Piece(format[1], args[0]), TextAsked(format[2..], args[1..]));
      StringsAssociate(m.numbers, if format[1] == 'n' then [args[0].n] else [], NumbersAsked(format[2..], args[1..]));
    } else {
      FormattedAsAsked(format[2..], args, m);
    }
  }

  /** The inner loop of %s: copy up to the limit. */
  method CopyString(s: string) returns (copy: string)
    ensures copy == Copied(Str(s))
  {
    copy := "";
    var i := 0;
    while i < |s|
      invariant 0 <= i <= |s| && i < STRING_LIMIT
      invariant copy == s[..i]
    {
      copy := copy + [s[i]];
      i := i + 1;
      if i > 512 {
        break;
      }
    }
  }

  method Convert(m: Message, c: char, arg: Arg) returns (m': Message)
    requires (TakesNumber(c) && arg.Num?) || (c == 's' && !arg.Num?)
    ensures m' == Converted(m, c, arg)
  {
    if c == 's' {
      var copy := "nil";
      if arg.Str? {
        copy := CopyString(arg.s);
      }
      m' := m.(text := m.text + copy);
    } else if c == 'd' {
      var digits := PrintSigned(AsInt32(arg.n));
      m' := m.(text := m.text + digits);
    } else if c == 'u' {
      var digits := PrintUnsigned(arg.n, 10);
      m' := m.(text := m.text + digits);
    } else if c == 'x' || c == 'p' {
      var digits := PrintUnsigned(arg.n, 16);
      m' := m.(text := m.text + digits);
    } else if c == 'n' {
      m' := m.(numbers := m.numbers + [arg.n]);
    } else {
      m' := m.(id := arg.n % 0x100);
    }
  }

  /** The format loop of tditrace_internal. */
  method FormatMessage(format: string, args: seq<Arg>) returns (m: Message)
    requires Matches(format, args)
    ensures m == Formatted(format, args, BLANK)
    ensures m.numbers == NumbersAsked(format, args)
    ensures m.id == IdAsked(format, args, 0) && m.text == TextAsked(format, args)
  {
    FormattedAsAsked(format, args, BLANK);
    m := BLANK;
    var i, j := 0, 0;
    while i < |format|
      invariant 0 <= i <= |format| && 0 <= j <= |args|
      invariant Matches(format[i..], args[j..])
      invariant Formatted(format[i..], args[j..], m) == Formatted(format, args, BLANK)
    {
      var c := format[i];
      i := i + 1;
      assert format[i - 1..][1..] == format[i..];
      if c == '%' {
        c := format[i];
        i := i + 1;
        assert format[i - 2..][2..] == format[i..];
        if TakesNumber(c) || c == 's' {
          assert args[j..][1..] == args[j + 1..];
          m := Convert(m, c, args[j]);
          j := j + 1;
        }
      } else {
        m := m.(text := m.text + [c]);
      }
    }
  }

  /** Formats written one after the other format one after the other. */
  lemma {:induction false} FormatConcat(f: string, fs: seq<Arg>, g: string, gs: seq<Arg>, m: Message)
    requires Matches(f, fs) && Matches(g, gs)
    ensures Matches(f + g, fs + gs)
    ensures Formatted(f + g, fs + gs, m) == Formatted(g, gs, Formatted(f, fs, m))
    decreases |f|
  {
    if f == "" {
      assert f + g == g && fs + gs == gs;
    } else if f[0] != '%' {
      assert (f + g)[1..] == f[1..] + g;
      FormatConcat(f[1..], fs, g, gs, m.(text := m.text + [f[0]]));
    } else {
      assert (f + g)[2..] == f[2..] + g;
      if TakesNumber(f[1]) || f[1] == 's' {
        assert (fs + gs)[1..] == fs[1..] + gs;
        FormatConcat(f[2..], fs[1..], g, gs, Converted(m, f[1], fs[0]));
      } else {
        FormatConcat(f[2..], fs, g, gs, m);
      }
    }
  }

  /** A format without conversions is copied. */
  lemma {:induction false} FormatLiteral(f: string, m: Message)
    requires '%' !in f
    ensures Matches(f, []) && Formatted(f, [], m) == m.(text := m.text + f)
    decreases |f|
  {
    if f != "" {
      FormatLiteral(f[1..], m.(text := m.text + [f[0]]));
      assert m.text + [f[0]] + f[1..] == m.text + f;
    } else {
      assert m.text + f == m.text;
    }
  }
}
