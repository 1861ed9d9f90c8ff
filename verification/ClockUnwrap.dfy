/**
 Unwrapping time-of-day stamps of a log into a running clock: whenever the time of day goes
 down, another 24 hours are added to everything that follows.
 */
module ClockUnwrap {
  import opened Words

  /** Nanoseconds of a day. */
  const DAY: nat := 24 * 3600 * 1_000_000_000

  /** The static variables of do_tstamp. */
  class Stamper {
    var ptstamp: nat
    var add24hr: nat

    constructor ()
      ensures ptstamp == 0 && add24hr == 0
    {
      ptstamp, add24hr := 0, 0;
    }

    /** One line with a time of day; a previous stamp of zero counts as none. */
    method Stamp(tod: nat) returns (tstamp: nat)
      modifies this
      ensures ptstamp == tod && add24hr == old(add24hr) + (if tod < old(ptstamp) then 1 else 0)
      ensures tstamp == tod + add24hr * 86_400_000_000_000
    {
      if ptstamp == 0 {
      } else if tod < ptstamp {
        add24hr := add24hr + 1;
      }
      ptstamp := tod;
      tstamp := tod + add24hr * DAY;
    }
  }

  predicate Wrapped(previous: nat, tod: nat) { tod < previous }

  /** The stamps and the wrap count after a run of times of day. */
  function Wraps(tods: seq<nat>): nat {
    if |tods| < 2 then 0
    else
      Wraps(tods[..|tods| - 1]) + (if Wrapped(tods[|tods| - 2], tods[|tods| - 1]) then 1 else 0)
  }

  function Unwrapped(tods: seq<nat>): nat
    requires tods != []
  {
    tods[|tods| - 1] + Wraps(tods) * DAY
  }

  /** A run of the stamper produces exactly these stamps. */
  method StampAll(tods: seq<nat>) returns (stamps: seq<nat>)
    ensures |stamps| == |tods|
    ensures forall i :: 0 <= i < |tods| ==> stamps[i] == Unwrapped(tods[..i + 1])
  {
    var stamper := new Stamper();
    stamps := [];
    for i := 0 to |tods|
      invariant |stamps| == i
      invariant stamper.ptstamp == (if i == 0 then 0 else tods[i - 1]) && stamper.add24hr == Wraps(tods[..i])
      invariant forall j :: 0 <= j < i ==> stamps[j] == Unwrapped(tods[..j + 1])
      invariant fresh(stamper)
    {
      assert tods[..i + 1][..i] == tods[..i];
      var t := stamper.Stamp(tods[i]);
      stamps := stamps + [t];
    }
  }

  /** Only the time of day of the true times is seen. */
  function TimesOfDay(times: seq<nat>): (tods: seq<nat>)
    ensures |tods| == |times|
  {
    seq(|times|, i requires 0 <= i < |times| => times[i] % DAY)
  }

  ghost predicate Nondecreasing(times: seq<nat>) {
    forall i :: 1 <= i < |times| ==> times[i - 1] <= times[i]
  }

  /** Whole days that pass unseen between two consecutive lines. */
  function DaysLost(times: seq<nat>): nat {
    if |times| < 2 then 0
    else
      var previous, now := times[|times| - 2], times[|times| - 1];
      DaysLost(times[..|times| - 1]) + (if previous <= now then (now - previous) / DAY else 0)
  }

  lemma DayStep(a: nat, b: nat)
    requires a <= b
    ensures b / DAY - a / DAY == (b - a) / DAY + (if b % DAY < a % DAY then 1 else 0)
  {
    var q, r := (b - a) / DAY, (b - a) % DAY;
    var d, t := a / DAY, a % DAY;
    assert b == (d + q) * DAY + (t + r);
    if t + r < DAY {
      RemainderAt(t + r, d + q, DAY);
    } else {
      RemainderAt(t + r - DAY, d + q + 1, DAY);
    }
  }

  /** The stamps are the true time less the starting day and all days that passed unseen. */
  lemma {:induction false} UnwrappedTime(times: seq<nat>)
    requires times != [] && Nondecreasing(times)
    ensures times[|times| - 1] / DAY == times[0] / DAY + DaysLost(times) + Wraps(TimesOfDay(times))
    ensures Unwrapped(TimesOfDay(times)) + (times[0] / DAY + DaysLost(times)) * DAY == times[|times| - 1]
    decreases |times|
  {
    var n := |times| - 1;
    if n > 0 {
      var before := times[..n];
      UnwrappedTime(before);
      assert TimesOfDay(times)[..n] == TimesOfDay(before);
      DayStep(times[n - 1], times[n]);
    }
    DayParts(times[n], times[0] / DAY + DaysLost(times), Wraps(TimesOfDay(times)));
  }

  lemma DayParts(time: nat, lost: nat, wraps: nat)
    requires time / DAY == lost + wraps
    ensures time % DAY + wraps * DAY + lost * DAY == time
  {
    assert time == time / DAY * DAY + time % DAY;
  }

  ghost predicate ShortGaps(times: seq<nat>) {
    forall i :: 1 <= i < |times| ==> times[i] < times[i - 1] + DAY
  }

  lemma {:induction false} NoDaysLost(times: seq<nat>)
    requires Nondecreasing(times)
    ensures DaysLost(times) == 0 <==> ShortGaps(times)
    decreases |times|
  {
    var n := |times| - 1;
    if n > 0 {
      var before := times[..n];
      assert forall i :: 0 <= i < n ==> before[i] == times[i];
      NoDaysLost(before);
      assert ShortGaps(times) <==> ShortGaps(before) && times[n] < times[n - 1] + DAY;
    }
  }

  /**
   The unwrapped clock is the true time less a fixed number of whole days, over runs of any
   length, exactly when no gap between consecutive lines reaches 24 hours.
   */
  lemma UnwrapIsExact(times: seq<nat>)
    requires times != [] && Nondecreasing(times)
    ensures Unwrapped(TimesOfDay(times)) + times[0] / DAY * DAY == times[|times| - 1] <==> ShortGaps(times)
  {
    UnwrappedTime(times);
    NoDaysLost(times);
  }

  /** Two lines exactly 24 hours apart show the same time of day, and the day is lost. */
  lemma FullDayIsLost()
    ensures Nondecreasing([0, 86_400_000_000_000]) && !ShortGaps([0, 86_400_000_000_000])
    ensures Unwrapped(TimesOfDay([0, 86_400_000_000_000])) == 0
    ensures Unwrapped(TimesOfDay([0, 86_399_999_999_999])) == 86_399_999_999_999
  {
    var times := [0, DAY];
    var near := [0, 86_399_999_999_999];
    assert near[..1] == [0] && TimesOfDay(near) == near;
    assert times[..1] == [0] && TimesOfDay(times) == [0, 0];
    UnwrappedTime(times);
    assert DaysLost(times) == 1;
  }
}
