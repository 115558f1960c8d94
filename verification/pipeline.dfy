/**
 * The conversion driver: shuffle the records, cut them into a training and a
 * validation set, and convert them one at a time (training first), writing a
 * label file, copying the record's images and reporting progress after each.
 * Files written, images copied and progress reported are recorded as a trace
 * of events, in the order they happen.
 */
module Pipeline {
  import opened Annotation
  import opened LabelIndex
  import opened Normalize
  import opened DatasetSplit
  import opened Layout

  // ---------------------------------------------------------------------------
  // Progress values
  // ---------------------------------------------------------------------------

  /**
   * What the model requires of floating-point rounding: it never reverses an order,
   * and 0, 1 and 100 are represented exactly.
   */
  ghost predicate Rounding(rnd: real -> real)
  {
    && (forall a, b :: a <= b ==> rnd(a) <= rnd(b))
    && rnd(0.0) == 0.0 && rnd(1.0) == 1.0 && rnd(100.0) == 100.0
  }

  /**
   * `int(processed / total * 100)`: both operations rounded, then truncated.
   * A run over no records reports no progress, so the value at `total == 0`
   * (where Python would divide by zero) is never emitted.
   */
  function Percent(processed: nat, total: nat, rnd: real -> real): int
  {
    if total == 0 then 0 else Trunc(rnd(rnd(processed as real / total as real) * 100.0))
  }

  lemma TruncMonotone(x: real, y: real)
    requires 0.0 <= x <= y
    ensures 0 <= Trunc(x) <= Trunc(y)
  {
  }

  lemma Ratio(p: nat, t: nat)
    requires 0 < t && p <= t
    ensures 0.0 <= p as real / t as real <= 1.0
    ensures p == t ==> p as real / t as real == 1.0
  {
    var q := p as real / t as real;
    assert q * t as real == p as real;
  }

  /** A progress value lies in 0..100, and is 100 once every record is done. */
  lemma PercentBounds(processed: nat, total: nat, rnd: real -> real)
    requires Rounding(rnd)
    requires 0 < total && processed <= total
    ensures 0 <= Percent(processed, total, rnd) <= 100
    ensures processed == total ==> Percent(processed, total, rnd) == 100
  {
    var q := processed as real / total as real;
    Ratio(processed, total);
    assert 0.0 <= rnd(q) <= 1.0 by {
      assert rnd(0.0) <= rnd(q) <= rnd(1.0);
    }
    var r := rnd(q) * 100.0;
    assert 0.0 <= r <= 100.0;
    assert 0.0 <= rnd(r) <= 100.0 by {
      assert rnd(0.0) <= rnd(r) <= rnd(100.0);
    }
    TruncMonotone(rnd(r), 100.0);
  }

  /** More records processed never gives a smaller progress value. */
  lemma PercentMonotone(p1: nat, p2: nat, total: nat, rnd: real -> real)
    requires Rounding(rnd)
    requires 0 < total && p1 <= p2
    ensures Percent(p1, total, rnd) <= Percent(p2, total, rnd)
  {
    var q1, q2 := p1 as real / total as real, p2 as real / total as real;
    assert q1 <= q2;
    assert 0.0 <= rnd(q1) by {
      assert rnd(0.0) <= rnd(q1);
    }
    assert rnd(q1) <= rnd(q2);
    assert rnd(q1) * 100.0 <= rnd(q2) * 100.0;
    var r1, r2 := rnd(rnd(q1) * 100.0), rnd(rnd(q2) * 100.0);
    assert 0.0 <= r1 <= r2 by {
      assert rnd(0.0) <= r1;
    }
    TruncMonotone(r1, r2);
  }

  // ---------------------------------------------------------------------------
  // What a conversion does
  // ---------------------------------------------------------------------------

  /** One observable step: a label file written, an image copied, a progress value emitted. */
  datatype Event =
    | WriteLabel(path: string, rows: seq<Row>)
    | CopyImage(copy: Copy)
    | Progress(percent: int)

  /** A conversion either runs to the end or stops at the first exception. */
  datatype Outcome = Done | Failed(error: Error)

  datatype Trace = Trace(events: seq<Event>, outcome: Outcome)

  /** A record together with the subset it is converted into. */
  datatype Job = Job(doc: Document, task: Subset)

  /** The records of one subset, each tagged with it. */
  function Tagged(docs: seq<Document>, task: Subset): (jobs: seq<Job>)
    ensures |jobs| == |docs|
    ensures forall i :: 0 <= i < |jobs| ==> jobs[i] == Job(docs[i], task)
  {
    seq(|docs|, i requires 0 <= i < |docs| => Job(docs[i], task))
  }

  /** The training records in order, then the validation records in order. */
  function Jobs(train: seq<Document>, val: seq<Document>): (jobs: seq<Job>)
    ensures |jobs| == |train| + |val|
  {
    Tagged(train, Train) + Tagged(val, Val)
  }

  /** Record `i` of the run is record `i` of the two sets laid end to end, and
      it goes to the training set exactly when it came from there. */
  lemma JobsSpec(train: seq<Document>, val: seq<Document>)
    ensures forall i :: 0 <= i < |Jobs(train, val)| ==> Jobs(train, val)[i].doc == (train + val)[i]
    ensures forall i :: 0 <= i < |Jobs(train, val)| ==>
      (Jobs(train, val)[i].task == Train <==> i < |train|)
  {
  }

  function CopyEvents(copies: seq<Copy>): seq<Event>
  {
    if copies == [] then []
    else CopyEvents(copies[..|copies| - 1]) + [CopyImage(copies[|copies| - 1])]
  }

  /** The events of a record that converts: its label file, its images, and
      the progress value `percent`. */
  function RecordEvents(job: Job, rows: seq<Row>, percent: int, onDisk: FilePath -> bool): seq<Event>
  {
    [WriteLabel(LabelPath(job.task, job.doc), rows)]
      + CopyEvents(ImageCopies(job.doc, job.task, onDisk))
      + [Progress(percent)]
  }

  /** What processing one record gives: its events, or the exception it raises. */
  function RecordResult(job: Job, keys: seq<string>, percent: int, onDisk: FilePath -> bool): Result<seq<Event>>
  {
    match NormalizeDocument(job.doc, keys)
    case Err(e) => Err(e)
    case Ok(rows) => Ok(RecordEvents(job, rows, percent, onDisk))
  }

  /** Processing the `n`-th record (counting from 1) of a run over `total` records. */
  function Record(total: nat, keys: seq<string>, rnd: real -> real, onDisk: FilePath -> bool)
    : (Job, nat) -> Result<seq<Event>>
  {
    (job: Job, n: nat) => RecordResult(job, keys, Percent(n, total, rnd), onDisk)
  }

  /** `step` processes every record as `Record(total, keys, rnd, onDisk)` does. */
  ghost predicate IsRecordStep(step: (Job, nat) -> Result<seq<Event>>, total: nat, keys: seq<string>,
                               rnd: real -> real, onDisk: FilePath -> bool)
  {
    forall job: Job, n: nat {:trigger RecordResult(job, keys, Percent(n, total, rnd), onDisk)} ::
      step(job, n) == RecordResult(job, keys, Percent(n, total, rnd), onDisk)
  }

  lemma RecordIsRecordStep(total: nat, keys: seq<string>, rnd: real -> real, onDisk: FilePath -> bool)
    ensures IsRecordStep(Record(total, keys, rnd, onDisk), total, keys, rnd, onDisk)
  {
  }

  /** Processing `jobs` one after the other with `step`, the `n`-th record
      being given `n`, and stopping at the first record that raises. */
  function Run(jobs: seq<Job>, step: (Job, nat) -> Result<seq<Event>>): Trace
  {
    if jobs == [] then Trace([], Done)
    else
      var prev := Run(jobs[..|jobs| - 1], step);
      if prev.outcome.Failed? then prev
      else
        match step(jobs[|jobs| - 1], |jobs|)
        case Err(e) => Trace(prev.events, Failed(e))
        case Ok(ev) => Trace(prev.events + ev, Done)
  }

  /** Converting `jobs` out of `total` records. */
  function Convert(jobs: seq<Job>, total: nat, keys: seq<string>, rnd: real -> real,
                   onDisk: FilePath -> bool): Trace
  {
    Run(jobs, Record(total, keys, rnd, onDisk))
  }

  /** The number of records before the first that fails to convert. */
  function Completed(jobs: seq<Job>, keys: seq<string>): (n: nat)
    ensures n <= |jobs|
    ensures forall k :: 0 <= k < n ==> NormalizeDocument(jobs[k].doc, keys).Ok?
    ensures n < |jobs| ==> NormalizeDocument(jobs[n].doc, keys).Err?
  {
    if jobs == [] then 0
    else
      var n := Completed(jobs[..|jobs| - 1], keys);
      if n < |jobs| - 1 then n
      else if NormalizeDocument(jobs[|jobs| - 1].doc, keys).Ok? then |jobs|
      else |jobs| - 1
  }

  // ---------------------------------------------------------------------------
  // Views of a trace
  // ---------------------------------------------------------------------------

  /** The progress values emitted, in order. */
  function ProgressOf(events: seq<Event>): seq<int>
  {
    if events == [] then []
    else
      var e := events[|events| - 1];
      ProgressOf(events[..|events| - 1]) + (if e.Progress? then [e.percent] else [])
  }

  /** The label files written, in order. */
  function LabelFiles(events: seq<Event>): seq<Event>
  {
    if events == [] then []
    else
      var e := events[|events| - 1];
      LabelFiles(events[..|events| - 1]) + (if e.WriteLabel? then [e] else [])
  }

  /** The images copied, in order. */
  function CopiesOf(events: seq<Event>): seq<Copy>
  {
    if events == [] then []
    else
      var e := events[|events| - 1];
      CopiesOf(events[..|events| - 1]) + (if e.CopyImage? then [e.copy] else [])
  }

  /** The images copied for the records `jobs`, record by record. */
  function AllCopies(jobs: seq<Job>, onDisk: FilePath -> bool): seq<Copy>
  {
    if jobs == [] then []
    else
      var last := jobs[|jobs| - 1];
      AllCopies(jobs[..|jobs| - 1], onDisk) + ImageCopies(last.doc, last.task, onDisk)
  }

  /** Each view of a trace distributes over concatenation. */
  lemma {:induction false} ProgressAppend(a: seq<Event>, b: seq<Event>)
    ensures ProgressOf(a + b) == ProgressOf(a) + ProgressOf(b)
  {
    if b == [] {
      assert a + b == a;
    } else {
      var init := b[..|b| - 1];
      ProgressAppend(a, init);
      assert (a + b)[..|a + b| - 1] == a + init;
      assert (a + b)[|a + b| - 1] == b[|b| - 1];
    }
  }

  lemma {:induction false} LabelFilesAppend(a: seq<Event>, b: seq<Event>)
    ensures LabelFiles(a + b) == LabelFiles(a) + LabelFiles(b)
  {
    if b == [] {
      assert a + b == a;
    } else {
      var init := b[..|b| - 1];
      LabelFilesAppend(a, init);
      assert (a + b)[..|a + b| - 1] == a + init;
      assert (a + b)[|a + b| - 1] == b[|b| - 1];
    }
  }

  lemma {:induction false} CopiesAppend(a: seq<Event>, b: seq<Event>)
    ensures CopiesOf(a + b) == CopiesOf(a) + CopiesOf(b)
  {
    if b == [] {
      assert a + b == a;
    } else {
      var init := b[..|b| - 1];
      CopiesAppend(a, init);
      assert (a + b)[..|a + b| - 1] == a + init;
      assert (a + b)[|a + b| - 1] == b[|b| - 1];
    }
  }

  lemma ViewsAppend(a: seq<Event>, b: seq<Event>)
    ensures ProgressOf(a + b) == ProgressOf(a) + ProgressOf(b)
    ensures LabelFiles(a + b) == LabelFiles(a) + LabelFiles(b)
    ensures CopiesOf(a + b) == CopiesOf(a) + CopiesOf(b)
  {
    ProgressAppend(a, b);
    LabelFilesAppend(a, b);
    CopiesAppend(a, b);
  }

  lemma {:induction false} CopyEventsViews(copies: seq<Copy>)
    ensures ProgressOf(CopyEvents(copies)) == []
    ensures LabelFiles(CopyEvents(copies)) == []
    ensures CopiesOf(CopyEvents(copies)) == copies
  {
    if copies != [] {
      CopyEventsViews(copies[..|copies| - 1]);
      ViewsAppend(CopyEvents(copies[..|copies| - 1]), [CopyImage(copies[|copies| - 1])]);
      assert ProgressOf([CopyImage(copies[|copies| - 1])]) == [];
      assert LabelFiles([CopyImage(copies[|copies| - 1])]) == [];
      assert CopiesOf([CopyImage(copies[|copies| - 1])]) == [copies[|copies| - 1]];
    }
  }

  lemma EventViews(e: Event)
    ensures ProgressOf([e]) == if e.Progress? then [e.percent] else []
    ensures LabelFiles([e]) == if e.WriteLabel? then [e] else []
    ensures CopiesOf([e]) == if e.CopyImage? then [e.copy] else []
  {
    assert [e][..0] == [];
  }

  /** A label file, then events that neither write labels nor report
      progress, then a progress value. */
  lemma FramedViews(w: Event, c: seq<Event>, p: Event)
    requires w.WriteLabel? && p.Progress?
    requires ProgressOf(c) == [] && LabelFiles(c) == []
    ensures ProgressOf([w] + c + [p]) == [p.percent]
    ensures LabelFiles([w] + c + [p]) == [w]
    ensures CopiesOf([w] + c + [p]) == CopiesOf(c)
  {
    EventViews(w);
    EventViews(p);
    FramedProgress(w, c, p);
    FramedLabels(w, c, p);
    FramedCopies(w, c, p);
  }

  lemma FramedProgress(w: Event, c: seq<Event>, p: Event)
    requires p.Progress? && ProgressOf([w]) == [] && ProgressOf(c) == [] && ProgressOf([p]) == [p.percent]
    ensures ProgressOf([w] + c + [p]) == [p.percent]
  {
    ProgressAppend([w], c);
    ProgressAppend([w] + c, [p]);
  }

  lemma FramedLabels(w: Event, c: seq<Event>, p: Event)
    requires LabelFiles([w]) == [w] && LabelFiles(c) == [] && LabelFiles([p]) == []
    ensures LabelFiles([w] + c + [p]) == [w]
  {
    LabelFilesAppend([w], c);
    LabelFilesAppend([w] + c, [p]);
  }

  lemma FramedCopies(w: Event, c: seq<Event>, p: Event)
    requires CopiesOf([w]) == [] && CopiesOf([p]) == []
    ensures CopiesOf([w] + c + [p]) == CopiesOf(c)
  {
    CopiesAppend([w], c);
    CopiesAppend([w] + c, [p]);
  }

  lemma RecordEventsViews(job: Job, rows: seq<Row>, percent: int, onDisk: FilePath -> bool)
    ensures var ev := RecordEvents(job, rows, percent, onDisk);
      && ProgressOf(ev) == [percent]
      && LabelFiles(ev) == [WriteLabel(LabelPath(job.task, job.doc), rows)]
      && CopiesOf(ev) == ImageCopies(job.doc, job.task, onDisk)
  {
    var copies := ImageCopies(job.doc, job.task, onDisk);
    CopyEventsViews(copies);
    FramedViews(WriteLabel(LabelPath(job.task, job.doc), rows), CopyEvents(copies), Progress(percent));
  }

  // ---------------------------------------------------------------------------
  // Properties of a conversion
  // ---------------------------------------------------------------------------

  /**
   * What a step shows through the views of a trace: it raises exactly the
   * conversion error of a record that does not convert, and otherwise writes
   * that record's label file, copies its images, and reports `n` of `total`.
   */
  ghost predicate StepViews(step: (Job, nat) -> Result<seq<Event>>, total: nat, keys: seq<string>,
                            rnd: real -> real, onDisk: FilePath -> bool)
  {
    forall job: Job, n: nat ::
      var r := step(job, n);
      var rows := NormalizeDocument(job.doc, keys);
      && (r.Err? <==> rows.Err?)
      && (r.Err? ==> r.error == rows.error)
      && (r.Ok? ==>
            && ProgressOf(r.value) == [Percent(n, total, rnd)]
            && LabelFiles(r.value) == [LabelFileOf(job, keys)]
            && CopiesOf(r.value) == ImageCopies(job.doc, job.task, onDisk))
  }

  lemma RecordViews(total: nat, keys: seq<string>, rnd: real -> real, onDisk: FilePath -> bool)
    ensures StepViews(Record(total, keys, rnd, onDisk), total, keys, rnd, onDisk)
  {
    forall job: Job, n: nat
      ensures var r := Record(total, keys, rnd, onDisk)(job, n);
        var rows := NormalizeDocument(job.doc, keys);
        && (r.Err? <==> rows.Err?)
        && (r.Err? ==> r.error == rows.error)
        && (r.Ok? ==>
              && ProgressOf(r.value) == [Percent(n, total, rnd)]
              && LabelFiles(r.value) == [LabelFileOf(job, keys)]
              && CopiesOf(r.value) == ImageCopies(job.doc, job.task, onDisk))
    {
      var rows := NormalizeDocument(job.doc, keys);
      if rows.Ok? {
        RecordEventsViews(job, rows.value, Percent(n, total, rnd), onDisk);
      }
    }
  }

  lemma {:induction false} RunOutcome(jobs: seq<Job>, step: (Job, nat) -> Result<seq<Event>>, total: nat,
                                      keys: seq<string>, rnd: real -> real, onDisk: FilePath -> bool)
    requires StepViews(step, total, keys, rnd, onDisk)
    ensures var t := Run(jobs, step);
      var n := Completed(jobs, keys);
      && (t.outcome == Done <==> n == |jobs|)
      && (t.outcome.Failed? ==> n < |jobs| && NormalizeDocument(jobs[n].doc, keys) == Err(t.outcome.error))
  {
    if jobs != [] {
      var init := jobs[..|jobs| - 1];
      RunOutcome(init, step, total, keys, rnd, onDisk);
      var n0 := Completed(init, keys);
      assert n0 < |init| ==> init[n0] == jobs[n0];
    }
  }

  /** The progress values after each of the first `n` records out of `total`. */
  function Percents(n: nat, total: nat, rnd: real -> real): seq<int>
  {
    if n == 0 then [] else Percents(n - 1, total, rnd) + [Percent(n, total, rnd)]
  }

  lemma {:induction false} PercentsSpec(n: nat, total: nat, rnd: real -> real)
    ensures |Percents(n, total, rnd)| == n
    ensures forall i :: 0 <= i < n ==> Percents(n, total, rnd)[i] == Percent(i + 1, total, rnd)
  {
    if n > 0 {
      PercentsSpec(n - 1, total, rnd);
    }
  }

  lemma {:induction false} RunProgress(jobs: seq<Job>, step: (Job, nat) -> Result<seq<Event>>, total: nat,
                                       keys: seq<string>, rnd: real -> real, onDisk: FilePath -> bool)
    requires StepViews(step, total, keys, rnd, onDisk)
    ensures ProgressOf(Run(jobs, step).events) == Percents(Completed(jobs, keys), total, rnd)
  {
    if jobs != [] {
      var init := jobs[..|jobs| - 1];
      var last := jobs[|jobs| - 1];
      RunProgress(init, step, total, keys, rnd, onDisk);
      RunOutcome(init, step, total, keys, rnd, onDisk);
      var prev := Run(init, step);
      var r := step(last, |jobs|);
      if prev.outcome == Done && r.Ok? {
        ProgressAppend(prev.events, r.value);
      }
    }
  }

  /** The label file a converted record writes. */
  function LabelFileOf(job: Job, keys: seq<string>): Event
    requires NormalizeDocument(job.doc, keys).Ok?
  {
    WriteLabel(LabelPath(job.task, job.doc), NormalizeDocument(job.doc, keys).value)
  }

  /** Every record of `jobs` converts. */
  predicate AllConvert(jobs: seq<Job>, keys: seq<string>)
  {
    forall k :: 0 <= k < |jobs| ==> NormalizeDocument(jobs[k].doc, keys).Ok?
  }

  /** The label files written for the records of `jobs` that convert, record by record. */
  function AllLabels(jobs: seq<Job>, keys: seq<string>): seq<Event>
  {
    if jobs == [] then []
    else
      var last := jobs[|jobs| - 1];
      AllLabels(jobs[..|jobs| - 1], keys)
        + (if NormalizeDocument(last.doc, keys).Ok? then [LabelFileOf(last, keys)] else [])
  }

  /** When every record converts, one label file per record, in order. */
  lemma {:induction false} AllLabelsSpec(jobs: seq<Job>, keys: seq<string>)
    requires AllConvert(jobs, keys)
    ensures |AllLabels(jobs, keys)| == |jobs|
    ensures forall i :: 0 <= i < |jobs| ==> AllLabels(jobs, keys)[i] == LabelFileOf(jobs[i], keys)
  {
    if jobs != [] {
      var init := jobs[..|jobs| - 1];
      assert AllConvert(init, keys);
      AllLabelsSpec(init, keys);
      assert AllLabels(jobs, keys) == AllLabels(init, keys) + [LabelFileOf(jobs[|jobs| - 1], keys)];
    }
  }

  /** The records before the first failure all convert. */
  lemma CompletedConvert(jobs: seq<Job>, keys: seq<string>)
    ensures AllConvert(jobs[..Completed(jobs, keys)], keys)
  {
  }

  lemma {:induction false} RunLabels(jobs: seq<Job>, step: (Job, nat) -> Result<seq<Event>>, total: nat,
                                     keys: seq<string>, rnd: real -> real, onDisk: FilePath -> bool)
    requires StepViews(step, total, keys, rnd, onDisk)
    ensures LabelFiles(Run(jobs, step).events) == AllLabels(jobs[..Completed(jobs, keys)], keys)
  {
    if jobs == [] {
      assert jobs[..0] == [];
    } else {
      var init := jobs[..|jobs| - 1];
      var last := jobs[|jobs| - 1];
      RunLabels(init, step, total, keys, rnd, onDisk);
      RunOutcome(init, step, total, keys, rnd, onDisk);
      var prev := Run(init, step);
      var n0 := Completed(init, keys);
      var r := step(last, |jobs|);
      if prev.outcome == Done && r.Ok? {
        LabelFilesAppend(prev.events, r.value);
        assert init[..n0] == init;
        assert jobs[..|jobs|] == jobs;
      } else {
        assert jobs[..n0] == init[..n0];
      }
    }
  }

  lemma {:induction false} RunCopies(jobs: seq<Job>, step: (Job, nat) -> Result<seq<Event>>, total: nat,
                                     keys: seq<string>, rnd: real -> real, onDisk: FilePath -> bool)
    requires StepViews(step, total, keys, rnd, onDisk)
    ensures CopiesOf(Run(jobs, step).events) == AllCopies(jobs[..Completed(jobs, keys)], onDisk)
  {
    if jobs == [] {
      assert jobs[..0] == [];
    } else {
      var init := jobs[..|jobs| - 1];
      var last := jobs[|jobs| - 1];
      RunCopies(init, step, total, keys, rnd, onDisk);
      RunOutcome(init, step, total, keys, rnd, onDisk);
      var prev := Run(init, step);
      var n0 := Completed(init, keys);
      var r := step(last, |jobs|);
      if prev.outcome == Done && r.Ok? {
        assert Run(jobs, step).events == prev.events + r.value;
        CopiesAppend(prev.events, r.value);
        assert CopiesOf(r.value) == ImageCopies(last.doc, last.task, onDisk);
        assert init[..n0] == init;
        assert Completed(jobs, keys) == |jobs|;
        assert jobs[..|jobs|] == jobs;
        assert AllCopies(jobs, onDisk) == AllCopies(init, onDisk) + ImageCopies(last.doc, last.task, onDisk);
      } else {
        assert Run(jobs, step).events == prev.events;
        assert Completed(jobs, keys) == n0;
        assert jobs[..n0] == init[..n0];
      }
    }
  }

  /** A conversion finishes exactly when every record converts, and
      otherwise stops with the error of the first record that does not. */
  lemma ConvertOutcome(jobs: seq<Job>, total: nat, keys: seq<string>, rnd: real -> real, onDisk: FilePath -> bool)
    ensures var t := Convert(jobs, total, keys, rnd, onDisk);
      var n := Completed(jobs, keys);
      && (t.outcome == Done <==> n == |jobs|)
      && (t.outcome.Failed? ==> n < |jobs| && NormalizeDocument(jobs[n].doc, keys) == Err(t.outcome.error))
  {
    RecordViews(total, keys, rnd, onDisk);
    RunOutcome(jobs, Record(total, keys, rnd, onDisk), total, keys, rnd, onDisk);
  }

  /** One progress value per processed record: the percentage of records
      processed so far. */
  lemma ConvertProgress(jobs: seq<Job>, total: nat, keys: seq<string>, rnd: real -> real, onDisk: FilePath -> bool)
    ensures var p := ProgressOf(Convert(jobs, total, keys, rnd, onDisk).events);
      && |p| == Completed(jobs, keys)
      && forall i :: 0 <= i < |p| ==> p[i] == Percent(i + 1, total, rnd)
  {
    RecordViews(total, keys, rnd, onDisk);
    RunProgress(jobs, Record(total, keys, rnd, onDisk), total, keys, rnd, onDisk);
    PercentsSpec(Completed(jobs, keys), total, rnd);
  }

  /** One label file per processed record, in order, holding that record's rows. */
  lemma ConvertLabels(jobs: seq<Job>, total: nat, keys: seq<string>, rnd: real -> real, onDisk: FilePath -> bool)
    ensures var w := LabelFiles(Convert(jobs, total, keys, rnd, onDisk).events);
      && |w| == Completed(jobs, keys)
      && forall i :: 0 <= i < |w| ==> w[i] == LabelFileOf(jobs[i], keys)
  {
    var done := jobs[..Completed(jobs, keys)];
    RecordViews(total, keys, rnd, onDisk);
    RunLabels(jobs, Record(total, keys, rnd, onDisk), total, keys, rnd, onDisk);
    CompletedConvert(jobs, keys);
    AllLabelsSpec(done, keys);
  }

  /** The images copied are those of the processed records, record by record. */
  lemma ConvertCopies(jobs: seq<Job>, total: nat, keys: seq<string>, rnd: real -> real, onDisk: FilePath -> bool)
    ensures CopiesOf(Convert(jobs, total, keys, rnd, onDisk).events) == AllCopies(jobs[..Completed(jobs, keys)], onDisk)
  {
    RecordViews(total, keys, rnd, onDisk);
    RunCopies(jobs, Record(total, keys, rnd, onDisk), total, keys, rnd, onDisk);
  }

  /** The progress values for 1, 2, ... processed records out of `total`
      never decrease, stay within 0..100, and reach 100 at `total`. */
  lemma PercentSequence(p: seq<int>, total: nat, rnd: real -> real)
    requires Rounding(rnd)
    requires |p| <= total
    requires forall i :: 0 <= i < |p| ==> p[i] == Percent(i + 1, total, rnd)
    ensures forall i, j :: 0 <= i < j < |p| ==> p[i] <= p[j]
    ensures forall i :: 0 <= i < |p| ==> 0 <= p[i] <= 100
    ensures 0 < |p| == total ==> p[|p| - 1] == 100
  {
    forall i, j | 0 <= i < j < |p|
      ensures p[i] <= p[j]
    {
      PercentMonotone(i + 1, j + 1, total, rnd);
    }
    forall i | 0 <= i < |p|
      ensures 0 <= p[i] <= 100
    {
      PercentBounds(i + 1, total, rnd);
    }
    if 0 < |p| == total {
      PercentBounds(total, total, rnd);
    }
  }

  /**
   * With every record counted in `total`, the progress values never
   * decrease, stay within 0..100, one is emitted per record when the
   * conversion finishes, and the last one is then 100. With no records,
   * nothing happens at all.
   */
  lemma ProgressSpec(jobs: seq<Job>, keys: seq<string>, rnd: real -> real, onDisk: FilePath -> bool)
    requires Rounding(rnd)
    ensures var t := Convert(jobs, |jobs|, keys, rnd, onDisk);
      var p := ProgressOf(t.events);
      && (forall i, j :: 0 <= i < j < |p| ==> p[i] <= p[j])
      && (forall i :: 0 <= i < |p| ==> 0 <= p[i] <= 100)
      && (t.outcome == Done ==> |p| == |jobs|)
      && (t.outcome == Done && jobs != [] ==> p[|p| - 1] == 100)
      && (jobs == [] ==> t == Trace([], Done))
  {
    ConvertOutcome(jobs, |jobs|, keys, rnd, onDisk);
    ConvertProgress(jobs, |jobs|, keys, rnd, onDisk);
    PercentSequence(ProgressOf(Convert(jobs, |jobs|, keys, rnd, onDisk).events), |jobs|, rnd);
  }

  /** Once a prefix of the records fails, the later records change nothing. */
  lemma {:induction false} FailureSticks(jobs: seq<Job>, m: nat, step: (Job, nat) -> Result<seq<Event>>)
    requires m <= |jobs|
    requires Run(jobs[..m], step).outcome.Failed?
    ensures Run(jobs, step) == Run(jobs[..m], step)
    decreases |jobs| - m
  {
    if m < |jobs| {
      assert jobs[..m + 1][..m] == jobs[..m];
      FailureSticks(jobs, m + 1, step);
    } else {
      assert jobs[..m] == jobs;
    }
  }

  /** A failed run stays failed whatever records follow. */
  lemma FailedPrefix(pre: seq<Job>, rest: seq<Job>, step: (Job, nat) -> Result<seq<Event>>)
    requires Run(pre, step).outcome.Failed?
    ensures Run(pre + rest, step) == Run(pre, step)
  {
    assert (pre + rest)[..|pre|] == pre;
    FailureSticks(pre + rest, |pre|, step);
  }

  // ---------------------------------------------------------------------------
  // labelme_to_yolo
  // ---------------------------------------------------------------------------

  /** `random.shuffle(files)`, with the permutation made explicit: the
      caller's list is reordered in place. */
  method Shuffle(files: array<Document>, perm: seq<nat>)
    requires IsPermutation(perm, files.Length)
    modifies files
    ensures files[..] == Permute(old(files[..]), perm)
  {
    var orig := files[..];
    for i := 0 to files.Length
      invariant forall k :: 0 <= k < i ==> files[k] == orig[perm[k]]
    {
      files[i] := orig[perm[i]];
    }
  }

  /** One step of a loop: a record that converts extends the trace, and one
      that fails ends the run with its error. */
  lemma RunNext(jobs: seq<Job>, i: nat, step: (Job, nat) -> Result<seq<Event>>, events: seq<Event>,
                record: Result<seq<Event>>)
    requires i < |jobs|
    requires Run(jobs[..i], step) == Trace(events, Done)
    requires record == step(jobs[i], i + 1)
    ensures record.Ok? ==> Run(jobs[..i + 1], step) == Trace(events + record.value, Done)
    ensures record.Err? ==> Run(jobs, step) == Trace(events, Failed(record.error))
  {
    assert jobs[..i + 1][..i] == jobs[..i];
    if record.Err? {
      FailureSticks(jobs, i + 1, step);
    }
  }

  /**
   * The body of both loops: converts one record, writes its rows to its label
   * file, copies its images, and reports `processed` records out of `total`.
   * An exception from the conversion happens before anything is written.
   */
  method ProcessRecord(doc: Document, task: Subset, keys: seq<string>, processed: nat, total: nat,
                       rnd: real -> real, onDisk: FilePath -> bool, ghost step: (Job, nat) -> Result<seq<Event>>)
    returns (result: Result<seq<Event>>)
    requires IsRecordStep(step, total, keys, rnd, onDisk)
    ensures result == step(Job(doc, task), processed)
  {
    var yoloLines := JsonToYolo(doc, keys);
    if yoloLines.Err? {
      result := Err(yoloLines.error);
    } else {
      var events := [WriteLabel(LabelPath(task, doc), yoloLines.value)];
      var copies := CopyLabeledImage(doc, task, onDisk);
      events := events + CopyEvents(copies);
      events := events + [Progress(Percent(processed, total, rnd))];
      result := Ok(events);
    }
    assert result == RecordResult(Job(doc, task), keys, Percent(processed, total, rnd), onDisk);
  }

  /**
   * One of the two loops: converts the records of one subset in order, after
   * `processed` records converted before them, and stops at the first
   * exception. Returns the events so far and the count of records processed.
   */
  method ConvertSubset(docs: seq<Document>, task: Subset, keys: seq<string>, ghost before: seq<Job>,
                       eventsBefore: seq<Event>, processedBefore: nat, total: nat,
                       rnd: real -> real, onDisk: FilePath -> bool, ghost step: (Job, nat) -> Result<seq<Event>>)
    returns (events: seq<Event>, outcome: Outcome, processed: nat)
    requires processedBefore == |before|
    requires IsRecordStep(step, total, keys, rnd, onDisk)
    requires Run(before, step) == Trace(eventsBefore, Done)
    ensures Trace(events, outcome) == Run(before + Tagged(docs, task), step)
    ensures outcome == Done ==> processed == |before| + |docs|
  {
    ghost var jobs := before + Tagged(docs, task);
    events := eventsBefore;
    processed := processedBefore;
    assert jobs[..processed] == before;
    for i := 0 to |docs|
      invariant processed == |before| + i
      invariant Run(jobs[..processed], step) == Trace(events, Done)
    {
      assert jobs[processed] == Job(docs[i], task);
      var record := ProcessRecord(docs[i], task, keys, processed + 1, total, rnd, onDisk, step);
      RunNext(jobs, processed, step, events, record);
      if record.Err? {
        return events, Failed(record.error), processed;
      }
      events := events + record.value;
      processed := processed + 1;
    }
    assert jobs[..processed] == jobs;
    outcome := Done;
  }

  /** A failure in the training loop is the outcome of the whole run. */
  lemma TrainFailed(train: seq<Document>, val: seq<Document>, step: (Job, nat) -> Result<seq<Event>>,
                    events: seq<Event>, outcome: Outcome)
    requires Trace(events, outcome) == Run([] + Tagged(train, Train), step)
    requires outcome.Failed?
    ensures Trace(events, outcome) == Run(Jobs(train, val), step)
  {
    assert [] + Tagged(train, Train) == Tagged(train, Train);
    FailedPrefix(Tagged(train, Train), Tagged(val, Val), step);
  }

  /** After a training loop that finished, the validation loop starts from its trace. */
  lemma TrainDone(train: seq<Document>, step: (Job, nat) -> Result<seq<Event>>, events: seq<Event>)
    requires Trace(events, Done) == Run([] + Tagged(train, Train), step)
    ensures Run(Tagged(train, Train), step) == Trace(events, Done)
  {
    assert [] + Tagged(train, Train) == Tagged(train, Train);
  }

  /** Converts the training records and then the validation records,
      counting processed records across both. */
  method ConvertSets(train: seq<Document>, val: seq<Document>, keys: seq<string>,
                     rnd: real -> real, onDisk: FilePath -> bool)
    returns (events: seq<Event>, outcome: Outcome)
    ensures Trace(events, outcome) == Convert(Jobs(train, val), |train| + |val|, keys, rnd, onDisk)
  {
    var total := |train| + |val|;
    ghost var step := Record(total, keys, rnd, onDisk);
    RecordIsRecordStep(total, keys, rnd, onDisk);
    var processed;
    events, outcome, processed := ConvertSubset(train, Train, keys, [], [], 0, total, rnd, onDisk, step);
    if outcome.Failed? {
      TrainFailed(train, val, step, events, outcome);
      return;
    }
    TrainDone(train, step, events);
    events, outcome, processed := ConvertSubset(val, Val, keys, Tagged(train, Train), events, processed, total, rnd, onDisk, step);
  }

  /**
   * `labelme_to_yolo`: shuffles the caller's records in place, cuts them at
   * `int(rate * n)` into a training and a validation set, and converts both.
   * The same rounding `rnd` applies to the product `rate * n` and to the
   * progress values.
   */
  method LabelmeToYolo(files: array<Document>, perm: seq<nat>, keys: seq<string>, rate: real,
                       rnd: real -> real, onDisk: FilePath -> bool)
    returns (events: seq<Event>, outcome: Outcome)
    requires IsPermutation(perm, files.Length)
    modifies files
    ensures files[..] == Permute(old(files[..]), perm)
    ensures Trace(events, outcome)
            == Convert(Jobs(TrainSet(files[..], rate, rnd), ValSet(files[..], rate, rnd)), files.Length, keys, rnd, onDisk)
  {
    Shuffle(files, perm);
    var shuffled := files[..];
    var train := TrainSet(shuffled, rate, rnd);
    var val := ValSet(shuffled, rate, rnd);
    SplitPartitions(shuffled, rate, rnd);
    events, outcome := ConvertSets(train, val, keys, rnd, onDisk);
  }
}
