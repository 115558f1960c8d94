/**
 * The background conversion: index the labels, write the configuration, then
 * convert the records, reporting each progress value as a signal and ending
 * with exactly one of an error signal (carrying the exception) or a finished
 * signal.
 */
module ConvertThread {
  import opened Annotation
  import opened LabelIndex
  import opened Normalize
  import opened DatasetSplit
  import opened Layout
  import opened Pipeline

  /** What the thread emits to the window. */
  datatype Signal =
    | ProgressSignal(percent: int)
    | ErrorSignal(error: Error)
    | FinishedSignal

  /** The progress values of a run as signals, in order. */
  function ProgressSignals(p: seq<int>): (s: seq<Signal>)
    ensures |s| == |p|
    ensures forall i :: 0 <= i < |p| ==> s[i] == ProgressSignal(p[i])
  {
    seq(|p|, i requires 0 <= i < |p| => ProgressSignal(p[i]))
  }

  /** The signals of a run: its progress values, then how it ended. */
  function Signals(t: Trace): seq<Signal>
  {
    ProgressSignals(ProgressOf(t.events))
      + [if t.outcome.Failed? then ErrorSignal(t.outcome.error) else FinishedSignal]
  }

  /** The label index of the records, as `get_labels_and_json_path` builds it. */
  function SortedKeys(docs: seq<Document>): seq<string>
  {
    SortByCount(Dedup(Labels(docs)), Tally(Labels(docs)))
  }

  /** The records laid out for conversion: shuffled by `perm` and cut at `rate`,
      the product `rate * n` being rounded by `rnd`. */
  function Schedule(docs: seq<Document>, perm: seq<nat>, rate: real, rnd: real -> real): seq<Job>
    requires IsPermutation(perm, |docs|)
  {
    var shuffled := Permute(docs, perm);
    Jobs(TrainSet(shuffled, rate, rnd), ValSet(shuffled, rate, rnd))
  }

  /**
   * `ConvertThread.run`: indexes the labels, writes the configuration for
   * that index under `root`, then converts the records with the shuffle
   * `perm` and the ratio `rate`.
   */
  method Run(docs: seq<Document>, root: string, perm: seq<nat>, rate: real,
             rnd: real -> real, onDisk: FilePath -> bool)
    returns (config: Config, signals: seq<Signal>)
    requires IsPermutation(perm, |docs|)
    ensures config == CreateYaml(root, SortedKeys(docs))
    ensures signals == Signals(Convert(Schedule(docs, perm, rate, rnd), |docs|, SortedKeys(docs), rnd, onDisk))
  {
    var keys := IndexLabels(docs);
    config := CreateYaml(root, keys);
    var files := new Document[|docs|](i requires 0 <= i < |docs| => docs[i]);
    assert files[..] == docs;
    var events, outcome := LabelmeToYolo(files, perm, keys, rate, rnd, onDisk);
    signals := Signals(Trace(events, outcome));
  }

  /** How many records the schedule holds. */
  lemma ScheduleSize(docs: seq<Document>, perm: seq<nat>, rate: real, rnd: real -> real)
    requires IsPermutation(perm, |docs|)
    ensures |Schedule(docs, perm, rate, rnd)| == |docs|
  {
    SplitPartitions(Permute(docs, perm), rate, rnd);
  }

  /**
   * With rounding that keeps order and is exact at 0, 1 and 100: the run
   * ends with exactly one terminal signal; every signal before it is a
   * progress value within 0..100, and the values never decrease. The run
   * finishes exactly when every record converts, with one progress value per
   * record, the last being 100. Otherwise the error signal carries the
   * conversion error of the first record that does not convert.
   */
  lemma SignalsSpec(jobs: seq<Job>, keys: seq<string>, rnd: real -> real, onDisk: FilePath -> bool)
    requires Rounding(rnd)
    ensures var s := Signals(Convert(jobs, |jobs|, keys, rnd, onDisk));
      var n := Completed(jobs, keys);
      && |s| >= 1
      && !s[|s| - 1].ProgressSignal?
      && (forall i :: 0 <= i < |s| - 1 ==> s[i].ProgressSignal? && 0 <= s[i].percent <= 100)
      && (forall i, j :: 0 <= i < j < |s| - 1 ==> s[i].percent <= s[j].percent)
      && (s[|s| - 1] == FinishedSignal <==> n == |jobs|)
      && (s[|s| - 1] == FinishedSignal ==> |s| == |jobs| + 1 && (jobs != [] ==> s[|s| - 2] == ProgressSignal(100)))
      && (s[|s| - 1].ErrorSignal? ==> n < |jobs| && NormalizeDocument(jobs[n].doc, keys) == Err(s[|s| - 1].error))
  {
    ConvertOutcome(jobs, |jobs|, keys, rnd, onDisk);
    ProgressSpec(jobs, keys, rnd, onDisk);
  }
}
