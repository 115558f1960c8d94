# labelme2Yolo conversion pipeline, modelled in Dafny

labelme2Yolo turns a folder of LabelMe annotation records (one JSON file per
image, each holding the image size and a list of labelled polygons) into a
YOLO dataset. It runs in four steps:

1. It indexes the labels: every label of every shape is counted, and the
   distinct labels are ordered by count, highest first. Equal counts keep
   their first-seen order.
2. It writes `yolo.yaml`, which maps each class id to its label and points
   at `images/train` and `images/val`.
3. It shuffles the records and cuts them at `int(split_rate * n)` into a
   training set and a validation set. The product is a floating-point value,
   rounded before `int` truncates it.
4. It converts the records one at a time, training records first. For each
   record it:
   - writes one line per shape to `labels/<subset>/<stem>.txt`: the class
     id, then every point divided by the image width (x) and height (y);
   - tries nine image names next to the record (`<stem>.jpg`, `<stem>.jpeg`,
     `<stem>.png`, `<stem>.bmp`, `<stem>.webp`, `<stem>.tif`, `<stem>..dng`,
     `<stem>..mpo`, `<stem>..pfm`) and copies each one that exists;
   - reports a progress percentage.

   The first exception stops the run.

The model is split into these modules:

- `Annotation` (`annotation.dfy`): parsed records, shapes and points, plus
  the three exceptions a conversion can raise.
- `LabelIndex` (`label_index.dfy`): the label indexer. It is a loop over a
  dictionary, kept as its key order plus its counts. The sort is a stable
  descending insertion sort, and a lemma proves that any stable descending
  sort gives the same list.
- `Normalize` (`normalize.dfy`): the per-record conversion into rows (class
  id plus scaled points). It has a specification function and the nested
  loop proved against it.
- `LineText` (`line_text.dfy`): the text of a label line. How a float is
  printed is a parameter `show`.
- `DatasetSplit` (`dataset_split.dfy`): the shuffle, taken as a permutation
  supplied by the caller, and the Python slice cut.
- `Layout` (`layout.dfy`): where label files and copied images go, the image
  candidates tried for a record, and the class-name mapping of the
  configuration.
- `Pipeline` (`pipeline.dfy`): the driver. A run is specified as a trace of
  events in order (label file written, image copied, progress value) plus
  its outcome: finished, or stopped with an error. The shuffle is done in
  place on an array, and the two loops are proved against that trace.
- `ConvertThread` (`convert_thread.dfy`): the background run. It indexes,
  writes the configuration and converts, and it emits the progress values
  as signals, then exactly one error or finished signal.

Some behaviour a reader might not expect is kept as the code has it:

- Image copying does not stop at the first image found. Every candidate
  name that exists is copied.
- The formats `.dng`, `.mpo` and `.pfm` are listed with their leading dot,
  and the code adds another one. So it looks for `<stem>..dng` and the like,
  and an image `<stem>.dng` is never copied.
- A finished run does not replace its last progress report with the
  finished signal. It emits the last progress value (100) and then the
  finished signal.
- The image size is not validated. `imageWidth` and `imageHeight` are read
  without any check. A missing field raises a `KeyError`. A zero field
  raises `ZeroDivisionError`, but only when a point is divided by it, so a
  record with no points and a zero size converts. Both errors are modelled.

## Model

| member | source | states |
|---|---|---|
| Annotation.LabelsLength | main.py:96-101 | The labels counted have exactly one entry per shape over all records. |
| Annotation.InLabels | main.py:96-101 | A label is among the counted labels exactly when some shape of some record carries it. |
| LabelIndex.CountStep | main.py:99-101 | Counting one more label appends it to the dictionary's keys only if it was new, and raises its count by one. |
| LabelIndex.DedupOnce | main.py:93-101 | The dictionary's keys hold every label seen exactly once and nothing else. |
| LabelIndex.TallyCount | main.py:93-101 | A label is a key exactly when it was seen, and its value is how often it was seen. |
| LabelIndex.SortByCountSpec | main.py:104 | The sorted keys are a permutation of the dictionary keys with non-increasing counts, and within each count they keep dictionary order (stable). |
| LabelIndex.StableDescendingUnique | main.py:104 | Two stable, descending-by-count arrangements of the same keys are equal, so Python's stable `sorted(..., reverse=True)` gives exactly this result. |
| LabelIndex.LabelIndexSpec | main.py:93-104 | For the corpus labels: each occurring label appears once; counts do not increase along the list; ties stay in first-occurrence order; the counts add up to the number of labels. |
| LabelIndex.IndexLabels | main.py:91-105 | The nested counting loop and sort return the stable descending index of all shape labels. Every label occurs once and nothing else does. Counts are non-increasing, with ties in first-seen order, and they sum to the number of shapes. |
| Normalize.IndexOf | main.py:43 | `keys.index(l)` is a position of `l` in `keys`, and no earlier position holds `l`. |
| Normalize.ScaleAt | main.py:47-49 | Scaling keeps the number of points and divides each x by the width and each y by the height, in order. |
| Normalize.ErrorSticks | main.py:40-49 | Once a shape raises, every longer prefix of the shapes raises the same error: the first failure aborts the record. |
| Normalize.NormalizeShapesSpec | main.py:40-52 | The shapes convert exactly when each one does, giving one row per shape in shape order. |
| Normalize.NormalizeSucceedsIff | main.py:35-49 | A record converts exactly when both dimensions are present, every label is in the index, and no point is divided by a zero dimension. |
| Normalize.NormalizeRows | main.py:40-52 | Each row's class id is the first position of its shape's label in the index. Its coordinates are the shape's points divided by width and height, in order. |
| Normalize.UnscaleScale | main.py:47-49 | Multiplying the scaled points back by the width and height gives the original points. |
| Normalize.NormalizeRoundTrip | main.py:40-52 | Reading every row back through the index and the image size gives the record's shapes again. |
| Normalize.JsonToYolo | main.py:31-54 | The nested loop returns the specification's rows or its first error: missing width, missing height, unknown label, or division by zero. It succeeds exactly when the record is convertible. It then gives one row per shape, whose class id names the shape's label. |
| LineText.FormatLineFields | main.py:44-52 | A line is the class id and every x and y, in order, joined by single spaces, with no leading or trailing space, then a newline. |
| LineText.FormatLineRoundTrip | main.py:44-52 | Splitting a line (without its newline) at single spaces gives back exactly the class id and the printed coordinates. |
| DatasetSplit.PermutePreserves | main.py:111 | Shuffling keeps every record, exactly as often as before. |
| DatasetSplit.SplitPartitions | main.py:114-116 | For every ratio, the training set followed by the validation set is the shuffled list. |
| DatasetSplit.SplitSizes | main.py:114-116 | For a ratio in [0, 1], the cut `int(rate * n)` lies in [0, n], taking the rounding of the product into account. The training set has that many records and validation the rest. Ratio 0 leaves training empty and ratio 1 leaves validation empty. |
| DatasetSplit.SplitGrows | main.py:114-116 | A larger ratio never moves a record from training to validation: the smaller ratio's training set is a prefix of the larger one's. |
| Layout.LabelPathSpec | main.py:123-125 | A label file is `labels/<subset>/<stem>.txt` in one of the prepared directories. Distinct subsets or stems never share a label file. |
| Layout.CopiesForSpec | main.py:23-28 | A copy is made for each candidate that exists and for nothing else. Each goes to the subset's image folder under the source's own name. |
| Layout.CandidateNames | main.py:18-24 | The candidates are `<stem>.jpg` and so on, but `<stem>..dng`, `<stem>..mpo` and `<stem>..pfm` for the last three, so `<stem>.dng` is never tried. When every candidate exists, all of them are copied, to either subset. |
| Layout.CopyLabeledImage | main.py:21-28 | The loop over every format copies every existing candidate, with no stop at the first, and copies nothing else. |
| Layout.CreateYamlSpec | main.py:61-79 | The configuration maps each id `i < |keys|` to `keys[i]` and no other id to anything. Ids come in ascending order, with `train = images/train` and `val = images/val`. |
| Layout.RowNamesLabel | main.py:73-79 | Looking up a converted row's class id in the configuration gives the label of the shape it came from. |
| Pipeline.PercentBounds | main.py:130 | A progress value lies in 0..100, and is 100 once every record is processed. |
| Pipeline.PercentMonotone | main.py:130 | More records processed never gives a smaller progress value. |
| Pipeline.JobsSpec | main.py:122-139 | The run processes the training records in order, then the validation records. A record goes to `train` exactly when it came from the training set. |
| Pipeline.Completed | main.py:122-141 | The count of records processed before the first exception: all records before it convert, and the record at that position does not. |
| Pipeline.RecordEventsViews | main.py:123-130 | A converted record writes exactly one label file, holding its rows, then copies its images, then reports exactly one progress value. |
| Pipeline.FailureSticks | main.py:122-141 | Once a record raises, the later records change nothing. |
| Pipeline.ConvertOutcome | main.py:122-141 | A run finishes exactly when every record converts. Otherwise it stops with the error of the first record that does not. |
| Pipeline.ConvertProgress | main.py:122-141 | One progress value is emitted per processed record, and the i-th is the percentage for i records out of the total. |
| Pipeline.ConvertLabels | main.py:122-138 | One label file is written per processed record, in order, at that record's path and holding its rows. |
| Pipeline.ConvertCopies | main.py:122-139 | The images copied are those of the processed records, record by record. |
| Pipeline.PercentSequence | main.py:118-141 | The progress values for 1, 2, ... records never decrease and stay in 0..100, and the value at the total is 100. |
| Pipeline.ProgressSpec | main.py:118-141 | Progress values never decrease and stay in 0..100. A finished run emits one per record, the last being 100. With no records nothing happens at all (no division). |
| Pipeline.Shuffle | main.py:111 | Shuffles the array in place: position `i` receives the record `perm[i]`. |
| Pipeline.ProcessRecord | main.py:123-130 | One loop body returns exactly the step the specification prescribes. If the conversion raises, nothing is written. Otherwise it writes the label file, copies the images and reports the progress. |
| Pipeline.ConvertSubset | main.py:122-130 | One loop, after the records before it, extends the run exactly as the specification does and stops at the first exception. |
| Pipeline.ConvertSets | main.py:118-141 | The two loops, training first, produce exactly the specified run over all records, counting progress across both. |
| Pipeline.LabelmeToYolo | main.py:108-141 | Shuffles the caller's records in place, cuts them, and produces exactly the specified run over training then validation records. |
| ConvertThread.ScheduleSize | main.py:111-118 | The run covers as many records as were discovered, so `total_files` is the number of records. |
| ConvertThread.Run | main.py:155-164 | Indexes the labels, writes the configuration for that index, and converts. The signals are the run's progress values followed by one error or finished signal. |
| ConvertThread.SignalsSpec | main.py:155-164 | Exactly one terminal signal comes last, after non-decreasing progress values in 0..100. Finished fires exactly when every record converts, after one value per record ending at 100. Otherwise the error is that of the first failing record. |

## Left out

- File and serialisation I/O is not modelled: `rglob`, `open`, `json.load`, `yaml.dump`, `mkdir`, `shutil.copy`.
  - Records come in already parsed, in discovery order.
  - Whether an image exists is the parameter `onDisk`.
  - Label writes and image copies are events in a trace.
  - The configuration is a value, not YAML text.
- Parsing errors are not modelled. Neither are records that lack `shapes`, `label` or `points`, nor points that are not pairs: every modelled record is well formed apart from its optional size.
- The image size is an integer. A JSON float size is not modelled.
- Exceptions from I/O are not modelled, in the indexing pass, in `create_yaml`, or while writing and copying. The only errors are the three a parsed record can raise while converting.
- The error signal carries the error value, not the text of `str(e)`.
- How Python prints a float is the parameter `show`. It is only required to print a non-empty value without whitespace.
- The strip set is ASCII and Latin-1 whitespace, not every Unicode space.
- The label file's content is kept as its rows. Its text is `FormatLine` applied to each row, which the trace does not compose.
- Points are divided as exact reals, not IEEE doubles.
- DatasetSplit.SplitSizes: the product `split_rate * n` is rounded to a double by the parameter `rnd`. It is only required to keep order and to be exact at 0 and at `n`, so the model does not fix the cut's value for a given ratio. `Pipeline.LabelmeToYolo` and `ConvertThread.Run` use the same `rnd` for this product and for the progress values.
- The progress value's two roundings are the parameter `rnd`. It is only required to keep order and to be exact at 0, 1 and 100, so no claim is made that it equals `processed * 100 / total`.
- `Pipeline.Percent` returns 0 at `total == 0`, where Python would divide by zero. No record is processed in such a run, so that value is never emitted.
- `random.seed` and `random.shuffle` are the permutation parameter `perm`.
- Only the relative layout is modelled. The output-root prefix of the paths and `as_posix` are not.
- A record's stem is given. How `Path.stem` and `with_suffix` treat names with several dots, or an empty stem, is not modelled.
- The two identical loops of `labelme_to_yolo` are one method, `ConvertSubset`, called once per subset.
- Not modelled:
  - the PyQt window, its widgets and dialogs;
  - the thread's scheduling, and signal delivery across threads;
  - `print`.
