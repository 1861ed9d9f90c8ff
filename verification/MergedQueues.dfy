/**
 The queues of several processes through the merge: the playout of all buffers hands their
 records to one translator, and every queue still shows the samples of its own process.
 */
module MergedQueues {
  import opened Wrappers
  import opened Words
  import opened Numerals
  import opened Records
  import opened TextLine
  import opened Merge
  import opened Translator
  import opened TimelineRuns
  import opened RecordItems
  import opened QueuePipeline

  /** A process: its line prefix, its calls, its buffer, and what is read from that. */
  datatype Process = Process(
    prefix: string, calls: seq<Call>, mem: seq<Word>, start: nat, end: nat, inputs: seq<Input>)

  /** The buffer holds the records of the calls, and the inputs are read from it. */
  ghost predicate Recorded(pr: Process) {
    var rs := StoredBy(pr.calls);
    && IsText(pr.prefix) && Chain(pr.mem, pr.start, rs, pr.end) && pr.end + 2 < |pr.mem|
    && NoneMisread(rs) && ReadsAs(pr.prefix, pr.mem, pr.start, rs, pr.inputs)
  }

  function SourcesOf(ps: seq<Process>): (sources: seq<seq<View>>)
    ensures |sources| == |ps|
  {
    seq(|ps|, i requires 0 <= i < |ps| => Views(StoredBy(ps[i].calls)))
  }

  /** What the translator is handed in the order of the playout. */
  function InputsPlayed(ps: seq<Process>, out: seq<Played>): seq<Input> {
    if out == [] then []
    else
      var before, p := out[..|out| - 1], out[|out| - 1];
      InputsPlayed(ps, before) + InputPlayed(ps, p.source, |FromSource(before, p.source)|)
  }

  function InputPlayed(ps: seq<Process>, i: nat, j: nat): seq<Input> {
    if i < |ps| && j < |ps[i].inputs| then [ps[i].inputs[j]] else []
  }

  /** The record played is the next one of its process, and is handed on as it was traced. */
  lemma PlayedInput(ps: seq<Process>, out: seq<Played>, p: Played) returns (r: Record)
    requires forall i :: 0 <= i < |ps| ==> Recorded(ps[i])
    requires IsNext(SourcesOf(ps), out, p)
    ensures p.source < |ps|
    ensures var j := |FromSource(out, p.source)|;
      && j < |StoredBy(ps[p.source].calls)| && r == StoredBy(ps[p.source].calls)[j] && p.view == ViewOf(r)
      && InputPlayed(ps, p.source, j) == [InputOf(ps[p.source].prefix, r)]
  {
    var j, pr := |FromSource(out, p.source)|, ps[p.source];
    NextIsLeft(SourcesOf(ps), out, p);
    r := StoredBy(pr.calls)[j];
    assert Recorded(pr);
    ReadBack(pr.prefix, pr.mem, pr.start, StoredBy(pr.calls), pr.end, pr.inputs, j);
  }

  /** The records of process `i` that were played. */
  function RecordsPlayed(ps: seq<Process>, out: seq<Played>, i: nat): seq<Record>
    requires i < |ps|
  {
    First(StoredBy(ps[i].calls), |FromSource(out, i)|)
  }

  function First(rs: seq<Record>, n: nat): seq<Record> { if n <= |rs| then rs[..n] else rs }

  lemma FirstSnoc(rs: seq<Record>, n: nat)
    requires n < |rs|
    ensures First(rs, n + 1) == First(rs, n) + [rs[n]]
  {
    assert rs[..n + 1] == rs[..n] + [rs[n]];
  }

  /** No other process has a record that is read as a level of the queue. */
  ghost predicate OthersKeepOff(ps: seq<Process>, i: nat, queue: string) {
    forall o, j :: 0 <= o < |ps| && o != i && 0 <= j < |StoredBy(ps[o].calls)| ==>
      !Sets(ps[o].prefix, StoredBy(ps[o].calls)[j], queue)
  }

  lemma InputsPlayedSnoc(ps: seq<Process>, out: seq<Played>, p: Played, input: Input)
    requires InputPlayed(ps, p.source, |FromSource(out, p.source)|) == [input]
    ensures EventsFrom(InputsPlayed(ps, out + [p])) == EventsFrom(InputsPlayed(ps, out)) + EventsBy(input)
  {
    assert (out + [p])[..|out|] == out;
    EventsFromSnoc(InputsPlayed(ps, out), input);
  }

  lemma RecordsPlayedSnoc(ps: seq<Process>, out: seq<Played>, p: Played, i: nat)
    requires i < |ps|
    requires p.source == i ==> |FromSource(out, i)| < |StoredBy(ps[i].calls)|
    ensures RecordsPlayed(ps, out + [p], i) ==
      if p.source == i then RecordsPlayed(ps, out, i) + [StoredBy(ps[i].calls)[|FromSource(out, i)|]]
      else RecordsPlayed(ps, out, i)
  {
    FromSourceSnoc(out, p, i);
    if p.source == i {
      FirstSnoc(StoredBy(ps[i].calls), |FromSource(out, i)|);
    }
  }

  /** The input is of the queue's own process, or does not set the queue. */
  lemma BothSee(all: seq<Event>, own: seq<Event>, input: Input, queue: string, mine: bool)
    requires LevelSeen(all, queue) == LevelSeen(own, queue)
    requires mine || !(input.ToText? && SetsLevel(EventOf(input.item), queue))
    ensures LevelSeen(all + EventsBy(input), queue) == LevelSeen(if mine then own + EventsBy(input) else own, queue)
  {
    LevelSeenBy(all, input, queue);
    LevelSeenBy(own, input, queue);
  }

  /** One step of the playout changes the level of the queue as its own process's record does. */
  lemma LevelPlayed(ps: seq<Process>, out: seq<Played>, p: Played, i: nat, queue: string)
    requires forall o :: 0 <= o < |ps| ==> Recorded(ps[o])
    requires IsNext(SourcesOf(ps), out, p) && i < |ps| && OthersKeepOff(ps, i, queue)
    requires LevelSeen(EventsFrom(InputsPlayed(ps, out)), queue)
          == LevelSeen(EventsIn(ps[i].prefix, RecordsPlayed(ps, out, i)), queue)
    ensures LevelSeen(EventsFrom(InputsPlayed(ps, out + [p])), queue)
         == LevelSeen(EventsIn(ps[i].prefix, RecordsPlayed(ps, out + [p], i)), queue)
  {
    var r := PlayedInput(ps, out, p);
    var input := InputOf(ps[p.source].prefix, r);
    var all, rs := EventsFrom(InputsPlayed(ps, out)), RecordsPlayed(ps, out, i);
    InputsPlayedSnoc(ps, out, p, input);
    RecordsPlayedSnoc(ps, out, p, i);
    EventsInSnoc(ps[i].prefix, rs, r);
    assert p.source != i ==> !Sets(ps[p.source].prefix, r, queue);
    BothSee(all, EventsIn(ps[i].prefix, rs), input, queue, p.source == i);
  }

  lemma {:induction false} LevelsPlayed(ps: seq<Process>, out: seq<Played>, i: nat, queue: string)
    requires forall o :: 0 <= o < |ps| ==> Recorded(ps[o])
    requires PlaysOut(SourcesOf(ps), out) && i < |ps| && OthersKeepOff(ps, i, queue)
    ensures LevelSeen(EventsFrom(InputsPlayed(ps, out)), queue)
         == LevelSeen(EventsIn(ps[i].prefix, RecordsPlayed(ps, out, i)), queue)
    decreases |out|
  {
    if out != [] {
      var before, p := LastStep(SourcesOf(ps), out);
      LevelsPlayed(ps, before, i, queue);
      LevelPlayed(ps, before, p, i, queue);
    }
  }

  /**
   At every point of the playout of any number of processes, once the records of the first `k`
   calls of process `i` were played, its queue shows the last sample of those calls.
   */
  lemma MergedFidelity(ps: seq<Process>, out: seq<Played>, i: nat, k: nat, maxTasks: int, name: string)
    requires forall o :: 0 <= o < |ps| ==> Recorded(ps[o])
    requires PlaysOut(SourcesOf(ps), out) && i < |ps| && k <= |ps[i].calls|
    requires |FromSource(out, i)| == |StoredBy(ps[i].calls[..k])|
    requires Readable(ps[i].prefix, name) && OthersKeepOff(ps, i, ps[i].prefix + name)
    requires forall j :: 0 <= j < |ps[i].calls| ==> KeepsOff(ps[i].prefix, ps[i].calls[j], name)
    requires LastSample(SamplesIn(ps[i].calls[..k]), name).Some?
    ensures ShowsSample(EventsFrom(InputsPlayed(ps, out)), maxTasks, ps[i].prefix + name,
                        LastSample(SamplesIn(ps[i].calls[..k]), name).value)
  {
    var calls, queue := ps[i].calls[..k], ps[i].prefix + name;
    LevelsPlayed(ps, out, i, queue);
    StoredByPrefix(ps[i].calls, k);
    assert RecordsPlayed(ps, out, i) == StoredBy(calls);
    LevelsOfCalls(ps[i].prefix, calls, name);
    SeenIsShown(EventsFrom(InputsPlayed(ps, out)), maxTasks, queue);
    DeltasAreForward(EventsFrom(InputsPlayed(ps, out)), maxTasks);
  }

  /** Played to the end, every queue shows the last sample of its process. */
  lemma CompleteFidelity(ps: seq<Process>, out: seq<Played>, i: nat, maxTasks: int, name: string)
    requires forall o :: 0 <= o < |ps| ==> Recorded(ps[o])
    requires Complete(SourcesOf(ps), out) && i < |ps|
    requires Readable(ps[i].prefix, name) && OthersKeepOff(ps, i, ps[i].prefix + name)
    requires forall j :: 0 <= j < |ps[i].calls| ==> KeepsOff(ps[i].prefix, ps[i].calls[j], name)
    requires LastSample(SamplesIn(ps[i].calls), name).Some?
    ensures ShowsSample(EventsFrom(InputsPlayed(ps, out)), maxTasks, ps[i].prefix + name,
                        LastSample(SamplesIn(ps[i].calls), name).value)
  {
    var n := |ps[i].calls|;
    CompleteInterleaving(SourcesOf(ps), out, i);
    assert ps[i].calls[..n] == ps[i].calls;
    MergedFidelity(ps, out, i, n, maxTasks, name);
  }

  // ------------------------------------------------------------------ prefixes of processes

  /** The prefix of a process: "[pid:name]". */
  function PrefixOf(pid: nat, procname: string): string { "[" + Numeral(pid, 10) + ":" + procname + "]" }

  /** Queues of processes with different numbers have different names, whatever these are called. */
  lemma PidsTellApart(pid: nat, procname: string, name: string, pid': nat, procname': string, name': string)
    requires PrefixOf(pid, procname) + name == PrefixOf(pid', procname') + name'
    ensures pid == pid'
  {
    PidOf(pid, procname, name);
    PidOf(pid', procname', name');
  }

  /** The number can be read off a queue's full name. */
  lemma PidOf(pid: nat, procname: string, name: string)
    ensures ValueOf(LeadingDigits((PrefixOf(pid, procname) + name)[1..]), 10) == pid
  {
    var digits, rest := Numeral(pid, 10), ":" + procname + "]" + name;
    assert (PrefixOf(pid, procname) + name)[1..] == digits + rest;
    LeadingDigitsOfNumeral(digits, rest);
  }

  /** So samples that can be read keep off the queues of every other process. */
  lemma ForeignSampleKeepsOff(pid: nat, procname: string, name: string, pid': nat, procname': string, s: QueueSample)
    requires pid != pid' && Readable(PrefixOf(pid', procname'), s.name)
    ensures !Sets(PrefixOf(pid', procname'), RecordOf(s), PrefixOf(pid, procname) + name)
  {
    SampleEntry(PrefixOf(pid', procname'), s);
    if PrefixOf(pid', procname') + s.name == PrefixOf(pid, procname) + name {
      PidsTellApart(pid', procname', s.name, pid, procname, name);
    }
  }
}
