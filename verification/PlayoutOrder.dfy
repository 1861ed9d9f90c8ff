/**
 Order over the whole playout: exactly when the output is sorted by time, and exactly when the
 closing entry comes last.
 */
module PlayoutOrder {
  import opened Merge

  // ------------------------------------------------------------------ parts of a playout

  /** A record of one source among those played. */
  lemma {:induction false} PlayedFrom(out: seq<Played>, i: nat, j: nat) returns (k: nat)
    requires j < |FromSource(out, i)|
    ensures k < |out| && out[k] == Played(i, FromSource(out, i)[j])
    decreases |out|
  {
    var n := |out| - 1;
    if j < |FromSource(out[..n], i)| {
      k := PlayedFrom(out[..n], i, j);
    } else {
      k := n;
    }
  }

  /** Of two records of one source, the one before the other was played first. */
  lemma {:induction false} PlayedInOrder(out: seq<Played>, i: nat, j: nat, j': nat) returns (k: nat, k': nat)
    requires j < j' < |FromSource(out, i)|
    ensures k < k' < |out|
    ensures out[k] == Played(i, FromSource(out, i)[j]) && out[k'] == Played(i, FromSource(out, i)[j'])
    decreases |out|
  {
    var n := |out| - 1;
    if j' < |FromSource(out[..n], i)| {
      k, k' := PlayedInOrder(out[..n], i, j, j');
    } else {
      k := PlayedFrom(out[..n], i, j);
      k' := n;
    }
  }

  lemma {:induction false} FromSourceGrows(out: seq<Played>, i: nat, n: nat)
    requires n <= |out|
    ensures |FromSource(out[..n], i)| <= |FromSource(out, i)|
    decreases |out|
  {
    if n < |out| {
      var before := out[..|out| - 1];
      FromSourceGrows(before, i, n);
      assert before[..n] == out[..n];
    } else {
      assert out[..n] == out;
    }
  }

  // ------------------------------------------------------------------ sorted output

  ghost predicate AllSorted(sources: seq<seq<View>>) {
    forall i :: 0 <= i < |sources| ==> Sorted(sources[i])
  }

  lemma SortedFromSource(sources: seq<seq<View>>, out: seq<Played>, i: nat)
    requires Complete(sources, out) && SortedOut(out) && i < |sources|
    ensures Sorted(sources[i])
  {
    CompleteInterleaving(sources, out, i);
    forall j, j' | 0 <= j < j' < |sources[i]|
      ensures sources[i][j].timestamp <= sources[i][j'].timestamp
    {
      var k, k' := PlayedInOrder(out, i, j, j');
    }
  }

  /** The output is sorted by time if and only if every buffer is. */
  lemma SortedIffBuffersSorted(sources: seq<seq<View>>, out: seq<Played>)
    requires Complete(sources, out)
    ensures SortedOut(out) <==> AllSorted(sources)
  {
    if AllSorted(sources) {
      SortedPlayout(sources, out);
    }
    if SortedOut(out) {
      forall i | 0 <= i < |sources|
        ensures Sorted(sources[i])
      {
        SortedFromSource(sources, out, i);
      }
    }
  }

  // ------------------------------------------------------------------ the closing entry

  const WIDTH: nat := 0x1_0000_0000_0000_0000

  const EXIT_DELAY: nat := 100_000_000

  /** The closing entry is later than every record played. */
  ghost predicate ExitIsLast(out: seq<Played>) {
    forall k :: 0 <= k < |out| ==> out[k].view.timestamp < ExitStamp(LastStamp(out))
  }

  ghost predicate AllBelow(views: seq<View>, bound: nat) {
    forall j :: 0 <= j < |views| ==> views[j].timestamp < bound
  }

  /** While a buffer has something left, nothing later than its head is played. */
  lemma NoLaterThanHead(sources: seq<seq<View>>, out: seq<Played>, p: Played, d: nat) returns (j: nat)
    requires IsNext(sources, out, p) && d < |sources| && |FromSource(out, d)| < |sources[d]|
    ensures j < |sources[d]| && p.view.timestamp <= sources[d][j].timestamp
  {
    j := |FromSource(out, d)|;
    NextIsLeft(sources, out, p);
    assert HeadsAfter(sources, out)[d] == At(sources[d][j].timestamp);
    assert HeadsAfter(sources, out)[p.source] == At(p.view.timestamp);
  }

  /** The buffer played last has something left at every earlier step. */
  lemma LastHasLeft(sources: seq<seq<View>>, out: seq<Played>, k: nat)
    requires Complete(sources, out) && k < |out|
    ensures var d := out[|out| - 1].source;
      d < |sources| && |FromSource(out[..k], d)| < |sources[d]|
  {
    var n := |out| - 1;
    var d := out[n].source;
    SourceExists(sources, out, n);
    CompleteInterleaving(sources, out, d);
    FromSourceGrows(out[..n], d, k);
    assert out[..n][..k] == out[..k];
  }

  /** No record is later than all records of the buffer played last. */
  lemma BoundedByLast(sources: seq<seq<View>>, out: seq<Played>, k: nat, bound: nat)
    requires Complete(sources, out) && k < |out|
    requires out[|out| - 1].source < |sources| && AllBelow(sources[out[|out| - 1].source], bound)
    ensures out[k].view.timestamp < bound
  {
    LastHasLeft(sources, out, k);
    PrefixPlaysOut(sources, out, k);
    var j := NoLaterThanHead(sources, out[..k], out[k], out[|out| - 1].source);
  }

  lemma ExitStampWraps(last: nat)
    requires last < WIDTH
    ensures last < ExitStamp(last) <==> last + EXIT_DELAY < WIDTH
    ensures last + EXIT_DELAY < WIDTH ==> ExitStamp(last) == last + EXIT_DELAY
  {
  }

  /**
   In terms of the playout: the stamp does not wrap, and no record of the buffer played last is
   0.1 s or more later than that buffer's last one.
   */
  lemma ExitAfterLastPlayed(sources: seq<seq<View>>, out: seq<Played>)
    requires Complete(sources, out) && out != [] && LastStamp(out) < WIDTH
    ensures out[|out| - 1].source < |sources|
    ensures ExitIsLast(out) <==>
      && LastStamp(out) + EXIT_DELAY < WIDTH
      && AllBelow(sources[out[|out| - 1].source], LastStamp(out) + EXIT_DELAY)
  {
    var d := out[|out| - 1].source;
    SourceExists(sources, out, |out| - 1);
    ExitStampWraps(LastStamp(out));
    if ExitIsLast(out) {
      LastSourceBelow(sources, out, ExitStamp(LastStamp(out)));
    } else if AllBelow(sources[d], LastStamp(out) + EXIT_DELAY) {
      forall k | 0 <= k < |out|
        ensures out[k].view.timestamp < LastStamp(out) + EXIT_DELAY
      {
        BoundedByLast(sources, out, k, LastStamp(out) + EXIT_DELAY);
      }
    }
  }

  lemma LastSourceBelow(sources: seq<seq<View>>, out: seq<Played>, bound: nat)
    requires Complete(sources, out) && out != [] && out[|out| - 1].source < |sources|
    requires forall k :: 0 <= k < |out| ==> out[k].view.timestamp < bound
    ensures AllBelow(sources[out[|out| - 1].source], bound)
  {
    var d := out[|out| - 1].source;
    CompleteInterleaving(sources, out, d);
    forall j | 0 <= j < |sources[d]|
      ensures sources[d][j].timestamp < bound
    {
      var k := PlayedFrom(out, d, j);
    }
  }

  // ------------------------------------------------------------------ the buffer played last

  ghost predicate Has(views: seq<View>, m: nat) {
    exists j :: 0 <= j < |views| && views[j].timestamp == m
  }

  /** No buffer has a later stamp than `m`, and `d` is the first buffer that has `m`. */
  ghost predicate FirstWithLatest(sources: seq<seq<View>>, d: nat, m: nat) {
    && d < |sources| && Has(sources[d], m)
    && (forall i :: 0 <= i < |sources| ==> AllBelow(sources[i], m + 1))
    && (forall i :: 0 <= i < d ==> !Has(sources[i], m))
  }

  /** Only one buffer, and one stamp, can be meant. */
  lemma FirstWithLatestIsUnique(sources: seq<seq<View>>, d: nat, m: nat, d': nat, m': nat)
    requires FirstWithLatest(sources, d, m) && FirstWithLatest(sources, d', m')
    ensures d == d' && m == m'
  {
    var j :| 0 <= j < |sources[d]| && sources[d][j].timestamp == m;
    var j' :| 0 <= j' < |sources[d']| && sources[d'][j'].timestamp == m';
    assert AllBelow(sources[d], m' + 1) && AllBelow(sources[d'], m + 1);
  }

  lemma {:induction false} LatestIn(views: seq<View>) returns (m: nat)
    requires views != []
    ensures Has(views, m) && AllBelow(views, m + 1)
  {
    var n := |views| - 1;
    var stamp := views[n].timestamp;
    m := stamp;
    if n > 0 {
      var front := views[..n];
      var earlier := LatestIn(front);
      var j :| 0 <= j < |front| && front[j].timestamp == earlier;
      assert views[j] == front[j];
      m := if stamp < earlier then earlier else stamp;
      forall k | 0 <= k < |views|
        ensures views[k].timestamp < m + 1
      {
        assert k < n ==> views[k] == front[k];
      }
    }
  }

  /** What bounds the buffer played last bounds every buffer. */
  lemma LatestBoundsAll(sources: seq<seq<View>>, out: seq<Played>, bound: nat, i: nat)
    requires Complete(sources, out) && out != [] && i < |sources|
    requires out[|out| - 1].source < |sources| && AllBelow(sources[out[|out| - 1].source], bound)
    ensures AllBelow(sources[i], bound)
  {
    CompleteInterleaving(sources, out, i);
    forall j | 0 <= j < |sources[i]|
      ensures sources[i][j].timestamp < bound
    {
      var k := PlayedFrom(out, i, j);
      BoundedByLast(sources, out, k, bound);
    }
  }

  /** A head is one of its buffer's stamps. */
  lemma HeadIsBelow(sources: seq<seq<View>>, out: seq<Played>, i: nat, bound: nat)
    requires i < |sources| && AllBelow(sources[i], bound) && HeadsAfter(sources, out)[i].At?
    ensures HeadsAfter(sources, out)[i].timestamp < bound
  {
  }

  /** The latest stamp is not played from a buffer while a later buffer has something left. */
  lemma LatestNotBefore(sources: seq<seq<View>>, out: seq<Played>, p: Played, d: nat, m: nat)
    requires IsNext(sources, out, p) && p.source < d < |sources|
    requires |FromSource(out, d)| < |sources[d]|
    requires forall i :: 0 <= i < |sources| ==> AllBelow(sources[i], m + 1)
    ensures p.view.timestamp < m
  {
    var heads := HeadsAfter(sources, out);
    NextIsLeft(sources, out, p);
    assert heads[p.source] == At(p.view.timestamp) && heads[d].At?;
    LastValidExists(heads, d);
    var v :| IsLastValid(heads, v);
    HeadIsBelow(sources, out, v, m + 1);
  }

  /** The buffer played last is the first one that has the latest stamp of all. */
  lemma PlayedLast(sources: seq<seq<View>>, out: seq<Played>) returns (d: nat, m: nat)
    requires Complete(sources, out) && out != []
    ensures d == out[|out| - 1].source && FirstWithLatest(sources, d, m)
    ensures LastStamp(out) == sources[d][|sources[d]| - 1].timestamp
  {
    var n := |out| - 1;
    d := out[n].source;
    SourceExists(sources, out, n);
    CompleteInterleaving(sources, out, d);
    m := LatestIn(sources[d]);
    forall i | 0 <= i < |sources|
      ensures AllBelow(sources[i], m + 1)
    {
      LatestBoundsAll(sources, out, m + 1, i);
    }
    forall i | 0 <= i < d
      ensures !Has(sources[i], m)
    {
      NotInEarlier(sources, out, i, m);
    }
  }

  lemma NotInEarlier(sources: seq<seq<View>>, out: seq<Played>, i: nat, m: nat)
    requires Complete(sources, out) && out != [] && i < out[|out| - 1].source
    requires forall i :: 0 <= i < |sources| ==> AllBelow(sources[i], m + 1)
    ensures i < |sources| && !Has(sources[i], m)
  {
    SourceExists(sources, out, |out| - 1);
    if Has(sources[i], m) {
      var j :| 0 <= j < |sources[i]| && sources[i][j].timestamp == m;
      CompleteInterleaving(sources, out, i);
      var k := PlayedFrom(out, i, j);
      LastHasLeft(sources, out, k);
      PrefixPlaysOut(sources, out, k);
      LatestNotBefore(sources, out[..k], out[k], out[|out| - 1].source, m);
    }
  }

  /**
   In terms of the buffers: take the first buffer with the latest stamp of all. The closing entry
   comes strictly last if and only if that buffer's final stamp plus 0.1 s does not wrap 64 bits
   and is later than the latest stamp.
   */
  lemma ExitComesLast(sources: seq<seq<View>>, out: seq<Played>, d: nat, m: nat)
    requires Complete(sources, out) && FirstWithLatest(sources, d, m)
    requires sources[d][|sources[d]| - 1].timestamp < WIDTH
    ensures var last := sources[d][|sources[d]| - 1].timestamp;
      ExitIsLast(out) <==> last + EXIT_DELAY < WIDTH && m < last + EXIT_DELAY
  {
    CompleteInterleaving(sources, out, d);
    assert out != [];
    var d', m' := PlayedLast(sources, out);
    FirstWithLatestIsUnique(sources, d, m, d', m');
    ExitAfterLastPlayed(sources, out);
    var last := LastStamp(out);
    var j :| 0 <= j < |sources[d]| && sources[d][j].timestamp == m;
    assert AllBelow(sources[d], m + 1);
    assert AllBelow(sources[d], last + EXIT_DELAY) <==> m < last + EXIT_DELAY;
  }

  /** Of sorted buffers the closing entry comes last exactly unless its stamp wraps. */
  lemma ExitComesLastIfSorted(sources: seq<seq<View>>, out: seq<Played>, d: nat, m: nat)
    requires Complete(sources, out) && AllSorted(sources) && FirstWithLatest(sources, d, m) && m < WIDTH
    ensures ExitIsLast(out) <==> m + EXIT_DELAY < WIDTH
  {
    var j :| 0 <= j < |sources[d]| && sources[d][j].timestamp == m;
    assert AllBelow(sources[d], m + 1) && Sorted(sources[d]);
    ExitComesLast(sources, out, d, m);
  }

  function ViewAt(timestamp: nat): View { View(timestamp, 0, [], "") }

  /** A buffer whose second record is a second earlier than its first. */
  function Unsorted(): (views: seq<View>)
    ensures |views| == 2 && views[0].timestamp == 1_000_000_000 && views[1].timestamp == 5
  {
    [ViewAt(1_000_000_000), ViewAt(5)]
  }

  /** Then the closing entry is not last, though nothing wraps. */
  lemma ExitBeforeUnsorted() returns (out: seq<Played>)
    ensures Complete([Unsorted()], out) && |out| == 2 && LastStamp(out) + EXIT_DELAY < WIDTH
    ensures !ExitIsLast(out)
  {
    var views := Unsorted();
    out := PlayAlone(views, 2);
    Interleaving([views], out, 0);
    assert views[..2] == views;
    assert HeadsAfter([views], out)[0] == Gone;
    var k := PlayedFrom(out, 0, 0);
    assert out[k].view.timestamp > ExitStamp(LastStamp(out));
  }

  /** A buffer alone is played in its own order. */
  lemma {:induction false} PlayAlone(views: seq<View>, n: nat) returns (out: seq<Played>)
    requires n <= |views|
    ensures PlaysOut([views], out) && |out| == n && FromSource(out, 0) == views[..n]
    ensures n > 0 ==> out[n - 1] == Played(0, views[n - 1])
  {
    if n == 0 {
      out := [];
    } else {
      out := PlayAlone(views, n - 1);
      var p := Played(0, views[n - 1]);
      OnlyBuffer(views, out, p);
      PlaysOutSnoc([views], out, p);
      FromSourceSnoc(out, p, 0);
      assert views[..n] == views[..n - 1] + [views[n - 1]];
      out := out + [p];
    }
  }

  /** With one buffer the pick is that buffer. */
  lemma OnlyBuffer(views: seq<View>, out: seq<Played>, p: Played)
    requires |FromSource(out, 0)| < |views| && p == Played(0, views[|FromSource(out, 0)|])
    ensures IsNext([views], out, p)
  {
    assert HeadsAfter([views], out)[0] == At(p.view.timestamp);
    assert IsLastValid(HeadsAfter([views], out), 0);
  }
}
