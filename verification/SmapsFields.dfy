/**
 The memory-map text as the kernel writes it: a header line and labelled lines. The scan by
 fixed offsets adds up exactly the fields labelled Rss, Referenced and Swap.
 */
module SmapsFields {
  import opened Numerals
  import opened Smaps

  /** The labels of a block's 28-byte lines, in order: on MIPS, and on all other targets. */
  function Labels(mips: bool): seq<string> {
    if mips then
      ["Size", "Rss", "Pss", "Shared_Clean", "Shared_Dirty", "Private_Clean", "Private_Dirty", "Referenced",
       "Anonymous", "Swap", "KernelPageSize", "MMUPageSize"]
    else
      ["Size", "Rss", "Pss", "Shared_Clean", "Shared_Dirty", "Private_Clean", "Private_Dirty", "Referenced",
       "Anonymous", "AnonHugePages", "Swap", "KernelPageSize", "MMUPageSize", "Locked"]
  }

  /** Where a label stands. */
  lemma LabelPlaces()
    ensures |Labels(true)| == 12 && |Labels(false)| == 14
    ensures Labels(true)[1] == Labels(false)[1] == "Rss" && Labels(true)[7] == Labels(false)[7] == "Referenced"
    ensures Labels(true)[9] == Labels(false)[10] == "Swap"
    ensures forall mips: bool, k :: 0 <= k < |Labels(mips)| ==> |Labels(mips)[k]| <= 14
  {
  }

  /** A mapping: address range, four permission characters, the rest of the header, and its fields in kB. */
  datatype Area = Area(addresses: string, permissions: string, behind: string, kb: map<string, nat>, vmFlags: string)

  predicate IsOneLine(s: string) { '\n' !in s }

  /** Fields of up to five digits, and strings that stay on their lines. */
  predicate Renderable(a: Area, mips: bool) {
    && |a.addresses| == 17 && |a.permissions| == 4 && |a.behind| >= 13
    && IsOneLine(a.behind) && IsOneLine(a.vmFlags) && a.vmFlags != ""
    && forall k :: 0 <= k < |Labels(mips)| ==> Labels(mips)[k] in a.kb && a.kb[Labels(mips)[k]] < 100_000
  }

  function Spaces(n: nat): (s: string)
    ensures |s| == n
    ensures forall i :: 0 <= i < n ==> s[i] == ' '
  {
    seq(n, _ => ' ')
  }

  lemma ShortNumeral(n: nat)
    requires n < 100_000
    ensures 1 <= |Numeral(n, 10)| <= 5
  {
    var digits := Numeral(n, 10);
    if |digits| > 5 {
      ValueAtLeast(digits, 10);
      PowMonotone(10, 5, |digits| - 1);
      PowOfFive();
    }
  }

  lemma PowOfFive()
    ensures Pow(10, 5) == 100_000
  {
    assert Pow(10, 1) == 10 && Pow(10, 2) == 100 && Pow(10, 3) == 1000 && Pow(10, 4) == 10_000;
  }

  /** "Rss:                1044 kB\n": the number ends at the 24th character. */
  function FieldLine(name: string, n: nat): (line: string)
    requires |name| <= 14 && n < 100_000
    ensures |line| == 28
  {
    ShortNumeral(n);
    var digits := Numeral(n, 10);
    name + ":" + Spaces(23 - |name| - |digits|) + digits + " kB\n"
  }

  function HeaderLine(a: Area): string { a.addresses + " " + a.permissions + " " + a.behind + "\n" }

  function FlagsLine(a: Area): string { "VmFlags: " + a.vmFlags + "\n" }

  function FieldLines(a: Area, mips: bool): (lines: seq<string>)
    requires Renderable(a, mips)
    ensures |lines| == |Labels(mips)|
  {
    seq(|Labels(mips)|, k requires 0 <= k < |Labels(mips)| => FieldLine(Labels(mips)[k], a.kb[Labels(mips)[k]]))
  }

  /** The text of one mapping. */
  function Rendered(a: Area, mips: bool): string
    requires Renderable(a, mips)
  {
    HeaderLine(a) + Joined(FieldLines(a, mips)) + if mips then "" else FlagsLine(a)
  }

  ghost predicate AllRenderable(areas: seq<Area>, mips: bool) {
    forall i :: 0 <= i < |areas| ==> Renderable(areas[i], mips)
  }

  /** The whole file, mapping after mapping. */
  function RenderedAll(areas: seq<Area>, mips: bool): string
    requires forall i :: 0 <= i < |areas| ==> Renderable(areas[i], mips)
  {
    if areas == [] then "" else Rendered(areas[0], mips) + RenderedAll(areas[1..], mips)
  }

  // ------------------------------------------------------------------ the totals promised

  /** r-xp mappings are code; other readable private ones are data. */
  predicate IsCodeArea(a: Area) { a.permissions == "r-xp" }

  predicate IsDataArea(a: Area) {
    |a.permissions| == 4 && a.permissions[0] == 'r' && a.permissions[3] == 'p' && a.permissions != "r-xp"
  }

  /** The sum of one labelled field over the code mappings, or over the data mappings. */
  function FieldSum(areas: seq<Area>, name: string, code: bool): nat {
    if areas == [] then 0
    else
      var a := areas[0];
      (if name in a.kb && (if code then IsCodeArea(a) else IsDataArea(a)) then a.kb[name] else 0)
      + FieldSum(areas[1..], name, code)
  }

  // ------------------------------------------------------------------ rendered mappings are blocks

  lemma {:induction false} SpacesAligned(n: nat, digits: string)
    requires IsNumeral(digits, 10) && digits != ""
    ensures RightAligned(Spaces(n) + digits) && Trimmed(Spaces(n) + digits) == digits
    decreases n
  {
    if n == 0 {
      assert Spaces(0) + digits == digits;
    } else {
      assert (Spaces(n) + digits)[1..] == Spaces(n - 1) + digits;
      SpacesAligned(n - 1, digits);
    }
  }

  /** The five characters that the scan looks at show the field's number. */
  lemma FieldLineShows(name: string, n: nat)
    requires |name| <= 14 && n < 100_000
    ensures RightAligned(Field(FieldLine(name, n))) && FieldValue(Field(FieldLine(name, n))) == n
  {
    ShortNumeral(n);
    var digits := Numeral(n, 10);
    assert Field(FieldLine(name, n)) == Spaces(5 - |digits|) + digits;
    SpacesAligned(5 - |digits|, digits);
  }

  lemma HeaderIsLine(a: Area)
    requires |a.addresses| == 17 && |a.permissions| == 4 && |a.behind| >= 13 && IsOneLine(a.behind)
    ensures IsLine(HeaderLine(a), 36)
    ensures IsCode(HeaderLine(a)) <==> IsCodeArea(a)
    ensures IsData(HeaderLine(a)) <==> IsDataArea(a)
  {
    var h, p := HeaderLine(a), a.permissions;
    assert h[18] == p[0] && h[19] == p[1] && h[20] == p[2] && h[21] == p[3];
    assert p == [p[0], p[1], p[2], p[3]];
    assert forall i :: 23 <= i < |h| - 1 ==> h[i] == a.behind[i - 23];
  }

  lemma FlagsIsLine(a: Area)
    requires IsOneLine(a.vmFlags) && a.vmFlags != ""
    ensures IsLine(FlagsLine(a), 10)
  {
    var f := FlagsLine(a);
    assert forall i :: 9 <= i < |f| - 1 ==> f[i] == a.vmFlags[i - 9];
  }

  function LayoutOf(mips: bool): Layout { if mips then MIPS else GENERIC }

  function MappingOf(a: Area, mips: bool): Mapping
    requires Renderable(a, mips)
  {
    Mapping(LayoutOf(mips), HeaderLine(a), FieldLines(a, mips), if mips then "" else FlagsLine(a))
  }

  lemma LineShows(a: Area, mips: bool, k: nat)
    requires Renderable(a, mips) && k < |Labels(mips)|
    ensures var line := FieldLines(a, mips)[k];
      |line| == LINE && RightAligned(Field(line)) && FieldValue(Field(line)) == a.kb[Labels(mips)[k]]
  {
    LabelPlaces();
    FieldLineShows(Labels(mips)[k], a.kb[Labels(mips)[k]]);
  }

  /** A rendered mapping has the fixed layout. */
  lemma RenderedIsBlock(a: Area, mips: bool)
    requires Renderable(a, mips)
    ensures WellFormed(MappingOf(a, mips))
  {
    LabelPlaces();
    HeaderIsLine(a);
    FlagsIsLine(a);
    LineShows(a, mips, 1);
    LineShows(a, mips, 7);
    LineShows(a, mips, if mips then 9 else 10);
    forall k: nat | k < |Labels(mips)| {
      LineShows(a, mips, k);
    }
  }

  function BlockOf(a: Area, mips: bool): Block
    requires Renderable(a, mips)
  {
    RenderedIsBlock(a, mips);
    MappingOf(a, mips)
  }

  /** What a mapping is to add, by its labels. */
  function ShareOf(a: Area): Totals {
    var rss, referenced, swap := FieldSum([a], "Rss", true), FieldSum([a], "Referenced", true), FieldSum([a], "Swap", false);
    Totals(rss, referenced, FieldSum([a], "Rss", false), FieldSum([a], "Referenced", false), swap)
  }

  /** The share of the block is what the labels say. */
  lemma ShareByLabels(a: Area, mips: bool)
    requires Renderable(a, mips)
    ensures Share(BlockOf(a, mips)) == ShareOf(a)
  {
    LabelPlaces();
    HeaderIsLine(a);
    LineShows(a, mips, 1);
    LineShows(a, mips, 7);
    LineShows(a, mips, if mips then 9 else 10);
    assert "Rss" in a.kb && "Referenced" in a.kb && "Swap" in a.kb;
    SumOfOne(a, "Rss", true);
    SumOfOne(a, "Referenced", true);
    SumOfOne(a, "Rss", false);
    SumOfOne(a, "Referenced", false);
    SumOfOne(a, "Swap", false);
  }

  lemma SumOfOne(a: Area, name: string, code: bool)
    requires name in a.kb
    ensures FieldSum([a], name, code) == if (if code then IsCodeArea(a) else IsDataArea(a)) then a.kb[name] else 0
  {
    assert [a][1..] == [];
  }

  function BlocksOf(areas: seq<Area>, mips: bool): (ms: seq<Block>)
    requires forall i :: 0 <= i < |areas| ==> Renderable(areas[i], mips)
    ensures |ms| == |areas|
  {
    if areas == [] then [] else [BlockOf(areas[0], mips)] + BlocksOf(areas[1..], mips)
  }

  lemma RestRenderable(areas: seq<Area>, mips: bool)
    requires AllRenderable(areas, mips) && areas != []
    ensures AllRenderable(areas[1..], mips)
  {
    forall i | 0 <= i < |areas[1..]|
      ensures Renderable(areas[1..][i], mips)
    {
      assert areas[1..][i] == areas[i + 1];
    }
  }

  lemma BlocksCons(areas: seq<Area>, mips: bool)
    requires AllRenderable(areas, mips) && areas != []
    ensures AllRenderable(areas[1..], mips)
    ensures BlocksOf(areas, mips)[0] == BlockOf(areas[0], mips)
    ensures BlocksOf(areas, mips)[1..] == BlocksOf(areas[1..], mips)
  {
    RestRenderable(areas, mips);
  }

  lemma BlockIsRendered(a: Area, mips: bool)
    requires Renderable(a, mips)
    ensures BlockText(BlockOf(a, mips)) == Rendered(a, mips)
  {
  }

  lemma TextCons(ms: seq<Block>)
    requires ms != []
    ensures AllText(ms) == BlockText(ms[0]) + AllText(ms[1..])
  {
    TailOf(ms);
  }

  lemma {:induction false} RenderedText(areas: seq<Area>, mips: bool)
    requires AllRenderable(areas, mips)
    ensures AllText(BlocksOf(areas, mips)) == RenderedAll(areas, mips)
    decreases |areas|
  {
    if areas != [] {
      BlocksCons(areas, mips);
      RenderedText(areas[1..], mips);
      TextCons(BlocksOf(areas, mips));
      BlockIsRendered(areas[0], mips);
    }
  }

  /** The totals by label over all mappings. */
  function TotalsOf(areas: seq<Area>): Totals {
    Totals(FieldSum(areas, "Rss", true), FieldSum(areas, "Referenced", true),
           FieldSum(areas, "Rss", false), FieldSum(areas, "Referenced", false), FieldSum(areas, "Swap", false))
  }

  lemma FieldSumCons(areas: seq<Area>, name: string, code: bool)
    requires areas != []
    ensures FieldSum(areas, name, code) == FieldSum([areas[0]], name, code) + FieldSum(areas[1..], name, code)
  {
    assert [areas[0]][1..] == [];
  }

  lemma TotalsCons(areas: seq<Area>)
    requires areas != []
    ensures TotalsOf(areas) == Plus(ShareOf(areas[0]), TotalsOf(areas[1..]))
  {
    FieldSumCons(areas, "Rss", true);
    FieldSumCons(areas, "Referenced", true);
    FieldSumCons(areas, "Rss", false);
    FieldSumCons(areas, "Referenced", false);
    FieldSumCons(areas, "Swap", false);
  }

  lemma SumCons(ms: seq<Block>)
    requires ms != []
    ensures Sum(ms) == Plus(Share(ms[0]), Sum(ms[1..]))
  {
    TailOf(ms);
  }

  lemma {:induction false} SumByLabels(areas: seq<Area>, mips: bool)
    requires AllRenderable(areas, mips)
    ensures Sum(BlocksOf(areas, mips)) == TotalsOf(areas)
    decreases |areas|
  {
    if areas != [] {
      BlocksCons(areas, mips);
      SumByLabels(areas[1..], mips);
      SumCons(BlocksOf(areas, mips));
      ShareByLabels(areas[0], mips);
      TotalsCons(areas);
    }
  }

  lemma {:induction false} BlocksLayout(areas: seq<Area>, mips: bool)
    requires AllRenderable(areas, mips)
    ensures AllOf(BlocksOf(areas, mips), LayoutOf(mips))
    decreases |areas|
  {
    if areas != [] {
      BlocksCons(areas, mips);
      BlocksLayout(areas[1..], mips);
      AllOfCons(BlocksOf(areas, mips), LayoutOf(mips));
    }
  }

  lemma AllOfCons(ms: seq<Block>, layout: Layout)
    requires ms != [] && ms[0].layout == layout && AllOf(ms[1..], layout)
    ensures AllOf(ms, layout)
  {
    assert forall i :: 1 <= i < |ms| ==> ms[i] == ms[1..][i - 1];
  }

  /**
   The scan of any file so rendered: one block for each mapping, and totals that are the sums of
   the fields labelled Rss and Referenced over the code mappings, and of those labelled Rss,
   Referenced and Swap over the data mappings.
   */
  method ScanRendered(buf: string, mips: bool, ghost areas: seq<Area>) returns (s: Totals, blocks: nat)
    requires AllRenderable(areas, mips) && buf == RenderedAll(areas, mips)
    ensures blocks == |areas|
    ensures s.codeRss == FieldSum(areas, "Rss", true) && s.codeRef == FieldSum(areas, "Referenced", true)
    ensures s.dataRss == FieldSum(areas, "Rss", false) && s.dataRef == FieldSum(areas, "Referenced", false)
    ensures s.dataSwap == FieldSum(areas, "Swap", false)
  {
    RenderedText(areas, mips);
    SumByLabels(areas, mips);
    BlocksLayout(areas, mips);
    s, blocks := Scan(buf, LayoutOf(mips), BlocksOf(areas, mips));
  }
}
