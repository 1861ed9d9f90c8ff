/**
 The stateful sample codecs: the OUT1, OUT1base, OUT2 and OUT3 send filters, `dovalue`, and
 the delta codecs `doqueue` and `doqueue_base`. Their static variables are the fields here.
 */
module Filters {
  import opened Words
  import opened Wrappers

  /** The static variables of one use of a macro, all zero at the start. */
  datatype Memory = Memory(seen: nat, prev: Word, prevprev: Word, base: Word)

  const BLANK: Memory := Memory(0, 0, 0, 0)

  datatype Kind = Out1 | Out1Base | Out2 | Out3

  function Minus(a: Word, b: Word): Word {
    if a >= b then a - b else a - b + 0x1_0000_0000
  }

  /** One sample through a send filter: the memory it leaves and what it sends, if anything. */
  function Filtered(kind: Kind, m: Memory, v: Word): (Memory, Option<Word>) {
    var next := m.(prev := v, prevprev := m.prev);
    match kind
    case Out1 =>
      if m.seen == 0 then
        if v != 0 then (next.(seen := 1), Some(v)) else (next, None)
      else (next, if m.prev != v then Some(v) else None)
    case Out1Base =>
      if m.seen == 0 then
        if v != 0 then (next.(seen := 1, base := v), Some(0)) else (next, None)
      else (next, if m.prev != v then Some(Minus(v, m.base)) else None)
    case Out2 =>
      if m.seen == 0 then
        if v != 0 then (next.(seen := 1), Some(v)) else (next, None)
      else if m.seen == 1 then (next.(seen := 2), Some(v))
      else (next, if m.prev != v || m.prevprev != v then Some(v) else None)
    case Out3 =>
      if m.seen == 0 then
        (if v != 0 then next.(seen := 1) else next, None)
      else if m.seen == 1 then
        if m.prev != v then (next.(seen := 2), Some(m.prev)) else (next, None)
      else (next, if m.prev != v || m.prevprev != v then Some(m.prev) else None)
  }

  /** A use of one of the send macros. */
  class Filter {
    const kind: Kind
    var seen: nat
    var prev: Word
    var prevprev: Word
    var base: Word

    ghost function Contents(): Memory
      reads this
    {
      Memory(seen, prev, prevprev, base)
    }

    constructor (kind: Kind)
      ensures Contents() == BLANK && this.kind == kind
    {
      this.kind := kind;
      seen, prev, prevprev, base := 0, 0, 0, 0;
    }

    method Sample(v: Word) returns (sent: Option<Word>)
      modifies this
      ensures (Contents(), sent) == Filtered(kind, old(Contents()), v)
    {
      sent := None;
      match kind {
        case Out1 =>
          if seen == 0 {
            if v != 0 {
              seen := 1;
              sent := Some(v);
            }
          } else if prev != v {
            sent := Some(v);
          }
        case Out1Base =>
          if seen == 0 {
            if v != 0 {
              seen, base := 1, v;
              sent := Some(Minus(v, base));
            }
          } else if prev != v {
            sent := Some(Minus(v, base));
          }
        case Out2 =>
          if seen == 0 {
            if v != 0 {
              seen := 1;
              sent := Some(v);
            }
          } else if seen == 1 {
            seen := 2;
            sent := Some(v);
          } else if prev != v || prevprev != v {
            sent := Some(v);
          }
        case Out3 =>
          if seen == 0 {
            if v != 0 {
              seen := 1;
            }
          } else if seen == 1 {
            if prev != v {
              seen := 2;
              sent := Some(prev);
            }
          } else if prev != v || prevprev != v {
            sent := Some(prev);
          }
      }
      prevprev := prev;
      prev := v;
    }
  }

  // ------------------------------------------------------------------ whole runs

  function MemoryAfter(kind: Kind, samples: seq<Word>): Memory {
    if samples == [] then BLANK
    else Filtered(kind, MemoryAfter(kind, samples[..|samples| - 1]), samples[|samples| - 1]).0
  }

  /** What the filter sends for the last of the samples. */
  function SentLast(kind: Kind, samples: seq<Word>): Option<Word>
    requires samples != []
  {
    Filtered(kind, MemoryAfter(kind, samples[..|samples| - 1]), samples[|samples| - 1]).1
  }

  /** What a receiver holds that keeps the last value sent. */
  function Held(kind: Kind, samples: seq<Word>): Option<Word> {
    if samples == [] then None
    else
      var sent := SentLast(kind, samples);
      if sent.Some? then sent else Held(kind, samples[..|samples| - 1])
  }

  /** A non-zero sample has been seen. */
  ghost predicate Started(samples: seq<Word>) {
    exists j :: 0 <= j < |samples| && samples[j] != 0
  }

  /** A sample differs from the one before it, after a non-zero one. */
  ghost predicate Moved(samples: seq<Word>) {
    exists k :: MovedAt(samples, k)
  }

  ghost predicate MovedAt(samples: seq<Word>, k: int) {
    1 <= k < |samples| && Started(samples[..k]) && samples[k] != samples[k - 1]
  }

  lemma StartedSnoc(samples: seq<Word>, v: Word)
    ensures Started(samples + [v]) <==> Started(samples) || v != 0
  {
    var all := samples + [v];
    assert all[|samples|] == v;
    assert forall j :: 0 <= j < |samples| ==> all[j] == samples[j];
  }

  lemma MovedSnoc(samples: seq<Word>, v: Word)
    ensures Moved(samples + [v]) <==>
      Moved(samples) || (samples != [] && Started(samples) && v != samples[|samples| - 1])
  {
    var all := samples + [v];
    assert all[..|samples|] == samples;
    forall k | k != |samples|
      ensures MovedAt(all, k) <==> MovedAt(samples, k)
    {
      if 1 <= k < |samples| {
        assert all[..k] == samples[..k];
      }
    }
    assert MovedAt(all, |samples|) <==> samples != [] && Started(samples) && v != samples[|samples| - 1];
  }

  /** The sample `back` places before the end, zero before the first one. */
  function Recent(samples: seq<Word>, back: nat): Word {
    if back < |samples| then samples[|samples| - 1 - back] else 0
  }

  /** The filters' memory in terms of the samples: the last two of them and what they showed. */
  ghost predicate Remembers(kind: Kind, m: Memory, samples: seq<Word>) {
    && m.prev == Recent(samples, 0) && m.prevprev == Recent(samples, 1)
    && (m.seen == 0 <==> !Started(samples))
    && match kind
       case Out1 => m.seen <= 1
       case Out1Base => m.seen <= 1
       case Out2 => m.seen <= 2 && (m.seen == 2 <==> |samples| > 1 && Started(samples[..|samples| - 1]))
       case Out3 => m.seen <= 2 && (m.seen == 2 <==> Moved(samples))
  }

  lemma {:induction false} MemoryRemembers(kind: Kind, samples: seq<Word>)
    ensures Remembers(kind, MemoryAfter(kind, samples), samples)
    decreases |samples|
  {
    if samples != [] {
      var before, v := samples[..|samples| - 1], samples[|samples| - 1];
      MemoryRemembers(kind, before);
      StartedSnoc(before, v);
      MovedSnoc(before, v);
      assert before + [v] == samples;
    }
  }

  /** OUT1: once a non-zero sample was seen, the receiver always holds the current sample. */
  lemma {:induction false} Out1HoldsCurrent(samples: seq<Word>)
    requires samples != []
    ensures Held(Out1, samples) == if Started(samples) then Some(Recent(samples, 0)) else None
    decreases |samples|
  {
    var before, v := samples[..|samples| - 1], samples[|samples| - 1];
    MemoryRemembers(Out1, before);
    StartedSnoc(before, v);
    assert before + [v] == samples;
    if before != [] {
      Out1HoldsCurrent(before);
    }
  }

  /** OUT2 holds the current sample too. */
  lemma {:induction false} Out2HoldsCurrent(samples: seq<Word>)
    requires samples != []
    ensures Held(Out2, samples) == if Started(samples) then Some(Recent(samples, 0)) else None
    decreases |samples|
  {
    var before, v := samples[..|samples| - 1], samples[|samples| - 1];
    MemoryRemembers(Out2, before);
    StartedSnoc(before, v);
    assert before + [v] == samples;
    if before != [] {
      Out2HoldsCurrent(before);
    }
  }

  /** OUT2 sends wherever OUT1 does, and sends the same. */
  lemma Out2CoversOut1(samples: seq<Word>)
    requires samples != [] && SentLast(Out1, samples).Some?
    ensures SentLast(Out2, samples) == SentLast(Out1, samples)
  {
    var before := samples[..|samples| - 1];
    MemoryRemembers(Out1, before);
    MemoryRemembers(Out2, before);
  }

  /**
   OUT3 and dovalue: before the first change after a non-zero sample nothing is held; from
   that change on the receiver holds the sequence delayed by exactly one sample.
   */
  lemma {:induction false} Out3HoldsDelayed(samples: seq<Word>)
    ensures Held(Out3, samples) == if Moved(samples) then Some(Recent(samples, 1)) else None
    decreases |samples|
  {
    if samples != [] {
      var before, v := samples[..|samples| - 1], samples[|samples| - 1];
      Out3HoldsDelayed(before);
      assert before + [v] == samples;
      MovedSnoc(before, v);
      MemoryRemembers(Out3, before);
      assert Recent(samples, 1) == Recent(before, 0);
    }
  }

  /** The first non-zero sample, which OUT1base subtracts from every other. */
  function FirstNonZero(samples: seq<Word>): Word {
    if samples == [] then 0
    else if samples[0] != 0 then samples[0]
    else FirstNonZero(samples[1..])
  }

  lemma {:induction false} FirstNonZeroSnoc(samples: seq<Word>, v: Word)
    ensures FirstNonZero(samples + [v]) == if FirstNonZero(samples) != 0 then FirstNonZero(samples) else v
    ensures FirstNonZero(samples) != 0 <==> Started(samples)
  {
    if samples != [] {
      assert (samples + [v])[1..] == samples[1..] + [v];
      FirstNonZeroSnoc(samples[1..], v);
      assert forall j :: 1 <= j < |samples| ==> samples[j] == samples[1..][j - 1];
      if Started(samples[1..]) {
        var j :| 0 <= j < |samples[1..]| && samples[1..][j] != 0;
        assert samples[j + 1] != 0;
      }
    }
  }

  /** OUT1base: the receiver holds the current sample relative to the first non-zero one. */
  lemma {:induction false} Out1BaseHoldsRelative(samples: seq<Word>)
    requires samples != []
    ensures MemoryAfter(Out1Base, samples).base == FirstNonZero(samples)
    ensures Held(Out1Base, samples) ==
            if Started(samples) then Some(Minus(Recent(samples, 0), FirstNonZero(samples))) else None
    decreases |samples|
  {
    var before, v := samples[..|samples| - 1], samples[|samples| - 1];
    MemoryRemembers(Out1Base, before);
    StartedSnoc(before, v);
    FirstNonZeroSnoc(before, v);
    assert before + [v] == samples;
    if before != [] {
      Out1BaseHoldsRelative(before);
    }
  }

  // ------------------------------------------------------------------ what exactly is sent

  /** OUT1 sends the first non-zero sample, and then every sample that differs from the one before. */
  lemma Out1Sends(before: seq<Word>, v: Word)
    ensures SentLast(Out1, before + [v]) ==
      if (if Started(before) then v != before[|before| - 1] else v != 0) then Some(v) else None
  {
    assert (before + [v])[..|before|] == before;
    MemoryRemembers(Out1, before);
  }

  lemma MinusIsModulo(a: Word, b: Word)
    ensures Minus(a, b) == (a - b + 0x1_0000_0000) % 0x1_0000_0000
  {
  }

  /** OUT1base sends at the same samples, minus the first non-zero one modulo 2^32. */
  lemma Out1BaseSends(before: seq<Word>, v: Word)
    ensures SentLast(Out1Base, before + [v]) ==
      if (if Started(before) then v != before[|before| - 1] else v != 0)
      then Some((v - FirstNonZero(before + [v]) + 0x1_0000_0000) % 0x1_0000_0000) else None
  {
    var first := FirstNonZero(before + [v]);
    assert (before + [v])[..|before|] == before;
    MemoryRemembers(Out1Base, before);
    FirstNonZeroSnoc(before, v);
    MinusIsModulo(v, first);
    if Started(before) {
      Out1BaseHoldsRelative(before);
      assert MemoryAfter(Out1Base, before).base == first;
    } else {
      MinusIsModulo(v, v);
    }
  }

  /**
   OUT2 sends the first non-zero sample and the one behind it, and then every sample but one that
   equals both samples before it.
   */
  lemma Out2Sends(before: seq<Word>, v: Word)
    ensures var n := |before|;
      SentLast(Out2, before + [v]) ==
        if !Started(before) then (if v != 0 then Some(v) else None)
        else if n == 1 || !Started(before[..n - 1]) then Some(v)
        else if v != before[n - 1] || v != before[n - 2] then Some(v)
        else None
  {
    assert (before + [v])[..|before|] == before;
    MemoryRemembers(Out2, before);
  }

  /**
   OUT3 and dovalue send the sample before the current one: at the first change after a non-zero
   sample, and from then on unless the current sample equals both samples before it.
   */
  lemma Out3Sends(before: seq<Word>, v: Word)
    ensures var n := |before|;
      && (Moved(before) ==> n >= 2)
      && SentLast(Out3, before + [v]) ==
        if !Started(before) then None
        else if v != before[n - 1] || (Moved(before) && v != before[n - 2]) then Some(before[n - 1])
        else None
  {
    assert (before + [v])[..|before|] == before;
    MemoryRemembers(Out3, before);
    if Moved(before) {
      var k :| MovedAt(before, k);
    }
  }

  // ------------------------------------------------------------------ delta codecs

  /** A STA or STO line; the amount is what %d prints for the 32-bit difference. */
  datatype Delta = Sta(amount: int) | Sto(amount: int)

  /** A dword printed with %d. */
  function Printed(w: Word): int { if w < 0x8000_0000 then w else w - 0x1_0000_0000 }

  function Net(d: Option<Delta>): int {
    match d
    case None => 0
    case Some(Sta(amount)) => amount
    case Some(Sto(amount)) => -amount
  }

  /** The line for a level that went from `prev` to `level`. */
  function DeltaTo(prev: Word, level: Word): Delta {
    if level >= prev then Sta(Printed(level - prev)) else Sto(Printed(prev - level))
  }

  /** doqueue (`relative` false) and doqueue_base (`relative` true) on one slot. */
  function Queued(relative: bool, m: Memory, number: Word): (Memory, Option<Delta>) {
    var first := m.seen == 0 && number != 0;
    var base := if relative && first then number else m.base;
    var level := Minus(number, base);
    (Memory(if first then 1 else m.seen, level, m.prevprev, base),
     if (if m.seen == 0 then number != 0 else level != m.prev) then Some(DeltaTo(m.prev, level)) else None)
  }

  /** The static arrays of one use of doqueue, doqueue_base or dovalue, indexed by process slot. */
  class Slots {
    const seen: array<nat>
    const prev: array<Word>
    const prevprev: array<Word>
    const base: array<Word>

    ghost predicate Valid()
      reads this
    {
      && seen.Length == prev.Length == prevprev.Length == base.Length
      && prev != prevprev && prev != base && prevprev != base
    }

    constructor (span: nat)
      ensures Valid() && seen.Length == span
      ensures fresh(seen) && fresh(prev) && fresh(prevprev) && fresh(base)
      ensures forall i :: 0 <= i < span ==> At(i) == BLANK
    {
      seen := new nat[span](_ => 0);
      prev := new Word[span](_ => 0);
      prevprev := new Word[span](_ => 0);
      base := new Word[span](_ => 0);
    }

    ghost function At(i: nat): Memory
      requires Valid() && i < seen.Length
      reads this, seen, prev, prevprev, base
    {
      Memory(seen[i], prev[i], prevprev[i], base[i])
    }

    method DoQueue(number: Word, i: nat) returns (line: Option<Delta>)
      requires Valid() && i < seen.Length && At(i).base == 0
      modifies seen, prev
      ensures (At(i), line) == Queued(false, old(At(i)), number)
      ensures forall j :: 0 <= j < seen.Length && j != i ==> At(j) == old(At(j))
    {
      line := None;
      if seen[i] == 0 {
        if number != 0 {
          seen[i] := 1;
          if number >= prev[i] {
            line := Some(Sta(Printed(number - prev[i])));
          } else {
            line := Some(Sto(Printed(prev[i] - number)));
          }
        }
      } else if number != prev[i] {
        if number >= prev[i] {
          line := Some(Sta(Printed(number - prev[i])));
        } else {
          line := Some(Sto(Printed(prev[i] - number)));
        }
      }
      prev[i] := number;
    }

    method DoQueueBase(number: Word, i: nat) returns (line: Option<Delta>)
      requires Valid() && i < seen.Length
      modifies seen, prev, base
      ensures (At(i), line) == Queued(true, old(At(i)), number)
      ensures forall j :: 0 <= j < seen.Length && j != i ==> At(j) == old(At(j))
    {
      line := None;
      if seen[i] == 0 {
        if number != 0 {
          seen[i] := 1;
          base[i] := number;
          line := Some(DeltaTo(prev[i], Minus(number, base[i])));
        }
      } else if Minus(number, base[i]) != prev[i] {
        line := Some(DeltaTo(prev[i], Minus(number, base[i])));
      }
      prev[i] := Minus(number, base[i]);
    }

    method DoValue(number: Word, i: nat, shown: bool) returns (sent: Option<Word>)
      requires Valid() && i < seen.Length
      modifies seen, prev, prevprev
      ensures At(i) == Filtered(Out3, old(At(i)), number).0
      ensures sent == if shown then Filtered(Out3, old(At(i)), number).1 else None
      ensures forall j :: 0 <= j < seen.Length && j != i ==> At(j) == old(At(j))
    {
      sent := None;
      if seen[i] == 0 {
        if number != 0 {
          seen[i] := 1;
        }
      } else if seen[i] == 1 {
        if prev[i] != number {
          seen[i] := 2;
          if shown {
            sent := Some(prev[i]);
          }
        }
      } else if prev[i] != number || prevprev[i] != number {
        if shown {
          sent := Some(prev[i]);
        }
      }
      prevprev[i] := prev[i];
      prev[i] := number;
    }
  }

  function QueueAfter(relative: bool, samples: seq<Word>): Memory {
    if samples == [] then BLANK
    else Queued(relative, QueueAfter(relative, samples[..|samples| - 1]), samples[|samples| - 1]).0
  }

  function LineLast(relative: bool, samples: seq<Word>): Option<Delta>
    requires samples != []
  {
    Queued(relative, QueueAfter(relative, samples[..|samples| - 1]), samples[|samples| - 1]).1
  }

  /** What the STA and STO lines of the run add up to. */
  function Integral(relative: bool, samples: seq<Word>): int {
    if samples == [] then 0
    else Integral(relative, samples[..|samples| - 1]) + Net(LineLast(relative, samples))
  }

  /** What the codec follows: the sample, or the sample minus its first non-zero value. */
  function Level(relative: bool, samples: seq<Word>): int {
    if relative && FirstNonZero(samples) != 0 then Recent(samples, 0) - FirstNonZero(samples)
    else Recent(samples, 0)
  }

  /**
   A step of the level whose 32-bit difference, printed with %d, is the step: anything short of
   2^31, and exactly 2^31 when the difference modulo 2^32 has the other sign.
   */
  predicate Showable(before: int, after: int) {
    || -0x8000_0000 < after - before < 0x8000_0000
    || (after - before == 0x8000_0000 && Modulo(after) < Modulo(before))
    || (after - before == -0x8000_0000 && Modulo(after) > Modulo(before))
  }

  ghost predicate StepsShowable(relative: bool, samples: seq<Word>)
    decreases |samples|
  {
    samples == [] ||
    var before := samples[..|samples| - 1];
    StepsShowable(relative, before) && Showable(Level(relative, before), Level(relative, samples))
  }

  /** After every sample, the lines so far add up to the followed level. */
  ghost predicate Integrates(relative: bool, samples: seq<Word>)
    decreases |samples|
  {
    samples == [] ||
    (Integrates(relative, samples[..|samples| - 1]) && Integral(relative, samples) == Level(relative, samples))
  }

  function Modulo(n: int): Word { n % 0x1_0000_0000 }

  lemma DeltaIsExact(prev: Word, level: Word, before: int, after: int)
    requires prev == Modulo(before) && level == Modulo(after) && -0x1_0000_0000 < after - before < 0x1_0000_0000
    ensures Net(Some(DeltaTo(prev, level))) == after - before <==> Showable(before, after)
    ensures prev == level <==> before == after
  {
  }

  lemma {:induction false} QueueRemembers(relative: bool, samples: seq<Word>)
    ensures var m := QueueAfter(relative, samples);
      && m.prev == Modulo(Level(relative, samples))
      && (m.seen == 0 <==> FirstNonZero(samples) == 0)
      && m.base == (if relative then FirstNonZero(samples) else 0)
      && (m.seen == 0 ==> Recent(samples, 0) == 0)
    decreases |samples|
  {
    if samples != [] {
      var before, v := samples[..|samples| - 1], samples[|samples| - 1];
      QueueRemembers(relative, before);
      FirstNonZeroSnoc(before, v);
      assert before + [v] == samples;
    }
  }

  /**
   doqueue and doqueue_base print a line exactly for the first non-zero sample and for every
   sample that changes the followed level: STA with the difference modulo 2^32, printed with %d,
   if the level modulo 2^32 is not below the one before, else STO with the difference the other
   way round.
   */
  lemma QueuePrints(relative: bool, before: seq<Word>, v: Word)
    ensures var was, now := Level(relative, before), Level(relative, before + [v]);
      var a, b := was % 0x1_0000_0000, now % 0x1_0000_0000;
      LineLast(relative, before + [v]) ==
        if (if Started(before) then now != was else v != 0)
        then Some(if b >= a then Sta(Printed(b - a)) else Sto(Printed(a - b))) else None
  {
    var samples := before + [v];
    assert samples[..|samples| - 1] == before;
    QueueRemembers(relative, before);
    QueueRemembers(relative, samples);
    FirstNonZeroSnoc(before, v);
    DeltaIsExact(Modulo(Level(relative, before)), Modulo(Level(relative, samples)),
                 Level(relative, before), Level(relative, samples));
  }

  /** For doqueue that is: the sample is not zero while nothing was seen, or not the one before. */
  lemma PlainQueuePrints(before: seq<Word>, v: Word)
    ensures LineLast(false, before + [v]).Some? <==> if Started(before) then v != before[|before| - 1] else v != 0
  {
    QueuePrints(false, before, v);
  }

  /** Unsigned 32-bit numbers printed with %d. */
  lemma PrintedIsTwosComplement(w: Word)
    ensures -0x8000_0000 <= Printed(w) < 0x8000_0000 && Printed(w) % 0x1_0000_0000 == w
  {
  }

  /** One step: the line printed adds the step of the level exactly when that can be shown. */
  lemma NetIsStep(relative: bool, before: seq<Word>, v: Word)
    ensures Net(LineLast(relative, before + [v])) == Level(relative, before + [v]) - Level(relative, before) <==>
            Showable(Level(relative, before), Level(relative, before + [v]))
  {
    var samples := before + [v];
    assert samples[..|samples| - 1] == before;
    QueueRemembers(relative, before);
    QueueRemembers(relative, samples);
    FirstNonZeroSnoc(before, v);
    DeltaIsExact(Modulo(Level(relative, before)), Modulo(Level(relative, samples)),
                 Level(relative, before), Level(relative, samples));
  }

  /**
   STA minus STO integrates to the followed level after every step, for doqueue to the sample,
   for doqueue_base to the sample minus the first non-zero one, also when it falls below that;
   exactly as long as every step can be shown by %d.
   */
  lemma {:induction false} IntegralIsLevel(relative: bool, samples: seq<Word>)
    ensures Integrates(relative, samples) <==> StepsShowable(relative, samples)
    ensures Integrates(relative, samples) ==> Integral(relative, samples) == Level(relative, samples)
    decreases |samples|
  {
    if samples != [] {
      var before, v := samples[..|samples| - 1], samples[|samples| - 1];
      assert before + [v] == samples;
      IntegralIsLevel(relative, before);
      NetIsStep(relative, before, v);
    }
  }

  /** Samples below 2^31 never take a step too large to be shown. */
  lemma {:induction false} LowSamplesAreShowable(relative: bool, samples: seq<Word>)
    requires forall i :: 0 <= i < |samples| ==> samples[i] < 0x8000_0000
    ensures StepsShowable(relative, samples)
    ensures FirstNonZero(samples) < 0x8000_0000
    decreases |samples|
  {
    if samples != [] {
      var before, v := samples[..|samples| - 1], samples[|samples| - 1];
      LowSamplesAreShowable(relative, before);
      QueueRemembers(relative, before);
      FirstNonZeroSnoc(before, v);
      assert before + [v] == samples;
    }
  }

  /** Of such samples doqueue prints only non-negative amounts. */
  lemma LowSamplesPrintForward(samples: seq<Word>)
    requires samples != [] && forall i :: 0 <= i < |samples| ==> samples[i] < 0x8000_0000
    ensures LineLast(false, samples).Some? ==> LineLast(false, samples).value.amount >= 0
  {
    var before := samples[..|samples| - 1];
    QueueRemembers(false, before);
    assert before != [] ==> Recent(before, 0) == samples[|samples| - 2];
  }

  /** A first sample of 2^31 is printed as a negative amount, and the sum is 2^32 off. */
  lemma LargeStepIsMisprinted()
    ensures var samples: seq<Word> := [0x8000_0000];
      && !StepsShowable(false, samples) && !Integrates(false, samples)
      && Integral(false, samples) == Level(false, samples) - 0x1_0000_0000
  {
    var samples: seq<Word> := [0x8000_0000];
    assert samples[..0] == [];
    QueueRemembers(false, []);
  }
}
