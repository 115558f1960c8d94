/**
 * Where the converter puts things in the output folder: the label file of a
 * record, the image files it copies next to it, and the `yolo.yaml`
 * configuration that names the classes. Paths are relative to the output
 * folder.
 */
module Layout {
  import opened Annotation
  import opened Normalize

  /** The two halves of the dataset, and their directory names. */
  datatype Subset = Train | Val
  {
    function Dir(): string
    {
      match this
      case Train => "train"
      case Val => "val"
    }
  }

  // ---------------------------------------------------------------------------
  // Label files
  // ---------------------------------------------------------------------------

  /** `labels/<train|val>/<stem>.txt`: the record's name with suffix `.txt`. */
  function LabelPath(task: Subset, doc: Document): string
  {
    "labels/" + task.Dir() + "/" + doc.stem + ".txt"
  }

  /** The four directories `create_yaml` makes before anything is written. */
  const Directories: seq<string> := ["images/train", "images/val", "labels/train", "labels/val"]

  /** Every label file lands in one of the prepared directories, under the
      record's own stem, and records with different stems or subsets never
      share a label file. */
  lemma LabelPathSpec(task: Subset, doc: Document, other: Subset, doc2: Document)
    ensures LabelPath(task, doc) == Directories[if task == Train then 2 else 3] + "/" + doc.stem + ".txt"
    ensures LabelPath(task, doc) == LabelPath(other, doc2) ==> task == other && doc.stem == doc2.stem
  {
    var p, q := LabelPath(task, doc), LabelPath(other, doc2);
    if p == q {
      assert p[7] == q[7];
      if task == Train {
        assert p[7..13] == "train/";
        assert q[7..13] == "train/";
      } else {
        assert p[7..11] == "val/";
        assert q[7..11] == "val/";
      }
      var n := |"labels/" + task.Dir() + "/"|;
      assert p[n..|p| - 4] == doc.stem;
      assert q[n..|q| - 4] == doc2.stem;
    }
  }

  // ---------------------------------------------------------------------------
  // Image copies
  // ---------------------------------------------------------------------------

  /** The image suffixes tried, in order. The last three already start with a
      dot, so the suffix built from them has two. */
  const ImageFormats: seq<string> := ["jpg", "jpeg", "png", "bmp", "webp", "tif", ".dng", ".mpo", ".pfm"]

  /** `json_path.with_suffix("." + fmt)`: the record's location with another suffix. */
  function Candidate(doc: Document, fmt: string): FilePath
  {
    FilePath(doc.dir, doc.stem + "." + fmt)
  }

  /** `<output>/images/<train|val>/<name>`: where an image is copied to. */
  function ImageTarget(task: Subset, src: FilePath): string
  {
    "images/" + task.Dir() + "/" + src.name
  }

  /** One `shutil.copy(src, dst)`. */
  datatype Copy = Copy(src: FilePath, dst: string)

  /** The copies made for the formats `formats`, in order: one per candidate
      that is on disk. */
  function CopiesFor(doc: Document, task: Subset, formats: seq<string>, onDisk: FilePath -> bool): seq<Copy>
  {
    if formats == [] then []
    else
      var c := Candidate(doc, formats[|formats| - 1]);
      CopiesFor(doc, task, formats[..|formats| - 1], onDisk)
        + (if onDisk(c) then [Copy(c, ImageTarget(task, c))] else [])
  }

  /** The images copied for a record. */
  function ImageCopies(doc: Document, task: Subset, onDisk: FilePath -> bool): seq<Copy>
  {
    CopiesFor(doc, task, ImageFormats, onDisk)
  }

  /** A copy for each candidate on disk and for nothing else, each to the
      subset's image directory under the source's own name. */
  lemma {:induction false} CopiesForSpec(doc: Document, task: Subset, formats: seq<string>, onDisk: FilePath -> bool)
    ensures var copies := CopiesFor(doc, task, formats, onDisk);
      && |copies| <= |formats|
      && (forall fmt :: fmt in formats && onDisk(Candidate(doc, fmt)) ==>
            Copy(Candidate(doc, fmt), ImageTarget(task, Candidate(doc, fmt))) in copies)
      && (forall k :: 0 <= k < |copies| ==>
            && onDisk(copies[k].src)
            && copies[k].dst == ImageTarget(task, copies[k].src)
            && exists fmt :: fmt in formats && copies[k].src == Candidate(doc, fmt))
  {
    if formats != [] {
      var init := formats[..|formats| - 1];
      var last := formats[|formats| - 1];
      CopiesForSpec(doc, task, init, onDisk);
      var prev := CopiesFor(doc, task, init, onDisk);
      var c := Candidate(doc, last);
      var copies := CopiesFor(doc, task, formats, onDisk);
      assert formats == init + [last];
      forall fmt | fmt in formats && onDisk(Candidate(doc, fmt))
        ensures Copy(Candidate(doc, fmt), ImageTarget(task, Candidate(doc, fmt))) in copies
      {
        if fmt in init {
          assert copies == prev + (if onDisk(c) then [Copy(c, ImageTarget(task, c))] else []);
        }
      }
      forall k | 0 <= k < |copies|
        ensures && onDisk(copies[k].src)
                && copies[k].dst == ImageTarget(task, copies[k].src)
                && exists fmt :: fmt in formats && copies[k].src == Candidate(doc, fmt)
      {
        if k < |prev| {
          assert copies[k] == prev[k];
          var fmt :| fmt in init && prev[k].src == Candidate(doc, fmt);
          assert fmt in formats;
        } else {
          assert copies[k].src == c;
        }
      }
    }
  }

  /**
   * The candidates tried for a record: one per format, in format order, with
   * a doubled dot for the last three. So every existing candidate is copied
   * (there is no stop at the first one found), and an image `<stem>.dng`
   * next to the record is never among them.
   */
  lemma CandidateNames(doc: Document, onDisk: FilePath -> bool, task: Subset)
    ensures Candidate(doc, ImageFormats[0]).name == doc.stem + ".jpg"
    ensures Candidate(doc, ImageFormats[6]).name == doc.stem + "..dng"
    ensures Candidate(doc, ImageFormats[7]).name == doc.stem + "..mpo"
    ensures Candidate(doc, ImageFormats[8]).name == doc.stem + "..pfm"
    ensures forall i :: 0 <= i < |ImageFormats| ==> Candidate(doc, ImageFormats[i]) != FilePath(doc.dir, doc.stem + ".dng")
    ensures (forall i :: 0 <= i < |ImageFormats| ==> onDisk(Candidate(doc, ImageFormats[i]))) ==>
              |ImageCopies(doc, task, onDisk)| == |ImageFormats|
  {
    forall i | 0 <= i < |ImageFormats|
      ensures Candidate(doc, ImageFormats[i]) != FilePath(doc.dir, doc.stem + ".dng")
    {
      var name := Candidate(doc, ImageFormats[i]).name;
      var k := |doc.stem|;
      assert name[k + 1..] == ImageFormats[i];
      assert (doc.stem + ".dng")[k + 1..] == "dng";
    }
    if forall i :: 0 <= i < |ImageFormats| ==> onDisk(Candidate(doc, ImageFormats[i])) {
      AllOnDisk(doc, task, ImageFormats, onDisk);
    }
  }

  lemma {:induction false} AllOnDisk(doc: Document, task: Subset, formats: seq<string>, onDisk: FilePath -> bool)
    requires forall i :: 0 <= i < |formats| ==> onDisk(Candidate(doc, formats[i]))
    ensures |CopiesFor(doc, task, formats, onDisk)| == |formats|
  {
    if formats != [] {
      AllOnDisk(doc, task, formats[..|formats| - 1], onDisk);
      assert onDisk(Candidate(doc, formats[|formats| - 1]));
    }
  }

  /**
   * `copy_labled_img`: tries every format in turn and copies each candidate
   * that is on disk into the subset's image directory.
   */
  method CopyLabeledImage(doc: Document, task: Subset, onDisk: FilePath -> bool) returns (copies: seq<Copy>)
    ensures copies == ImageCopies(doc, task, onDisk)
    ensures forall i :: 0 <= i < |ImageFormats| && onDisk(Candidate(doc, ImageFormats[i])) ==>
              Copy(Candidate(doc, ImageFormats[i]), ImageTarget(task, Candidate(doc, ImageFormats[i]))) in copies
    ensures forall k :: 0 <= k < |copies| ==>
              onDisk(copies[k].src) && exists i :: 0 <= i < |ImageFormats| && copies[k].src == Candidate(doc, ImageFormats[i])
  {
    copies := [];
    for i := 0 to |ImageFormats|
      invariant copies == CopiesFor(doc, task, ImageFormats[..i], onDisk)
    {
      var imagePath := Candidate(doc, ImageFormats[i]);
      if onDisk(imagePath) {
        copies := copies + [Copy(imagePath, ImageTarget(task, imagePath))];
      }
      assert ImageFormats[..i + 1][..i] == ImageFormats[..i];
    }
    assert ImageFormats[..|ImageFormats|] == ImageFormats;
    CopiesForSpec(doc, task, ImageFormats, onDisk);
    forall k | 0 <= k < |copies|
      ensures exists i :: 0 <= i < |ImageFormats| && copies[k].src == Candidate(doc, ImageFormats[i])
    {
      var fmt :| fmt in ImageFormats && copies[k].src == Candidate(doc, fmt);
      var i :| 0 <= i < |ImageFormats| && ImageFormats[i] == fmt;
    }
  }

  // ---------------------------------------------------------------------------
  // The configuration file
  // ---------------------------------------------------------------------------

  /** The contents of `yolo.yaml`: the dataset root, the two image
      directories, and the class names keyed by id, in the order written. */
  datatype Config = Config(path: string, train: string, val: string, names: seq<(nat, string)>)

  /** `{idx: name for idx, name in enumerate(keys)}`, in insertion order. */
  function Names(keys: seq<string>): seq<(nat, string)>
  {
    seq(|keys|, i requires 0 <= i < |keys| => (i, keys[i]))
  }

  /** The configuration `create_yaml` writes for the index `keys`. */
  function CreateYaml(root: string, keys: seq<string>): Config
  {
    Config(root, "images/train", "images/val", Names(keys))
  }

  /** The name the configuration gives to class id `id`: the value of the
      first entry with that key. */
  function Lookup(names: seq<(nat, string)>, id: nat): Option<string>
  {
    if names == [] then None
    else if names[0].0 == id then Some(names[0].1)
    else Lookup(names[1..], id)
  }

  lemma {:induction false} LookupNames(names: seq<(nat, string)>, id: nat, base: nat)
    requires forall i :: 0 <= i < |names| ==> names[i].0 == base + i
    ensures id < base ==> Lookup(names, id) == None
    ensures base <= id < base + |names| ==> Lookup(names, id) == Some(names[id - base].1)
    ensures id >= base + |names| ==> Lookup(names, id) == None
  {
    if names != [] {
      LookupNames(names[1..], id, base + 1);
    }
  }

  /**
   * The configuration maps each id `i < |keys|` to `keys[i]` and no other id
   * to anything, lists the ids in ascending order, and points training and
   * validation at the two image directories made beforehand.
   */
  lemma CreateYamlSpec(root: string, keys: seq<string>)
    ensures var cfg := CreateYaml(root, keys);
      && cfg.path == root
      && cfg.train == Directories[0] && cfg.val == Directories[1]
      && |cfg.names| == |keys|
      && (forall i, j :: 0 <= i < j < |cfg.names| ==> cfg.names[i].0 < cfg.names[j].0)
      && (forall id: nat :: Lookup(cfg.names, id) == if id < |keys| then Some(keys[id]) else None)
  {
    var names := Names(keys);
    forall id: nat
      ensures Lookup(names, id) == if id < |keys| then Some(keys[id]) else None
    {
      LookupNames(names, id, 0);
    }
  }

  /** Reading a converted row's class id through the configuration gives the
      label of the shape it came from. */
  lemma RowNamesLabel(root: string, doc: Document, keys: seq<string>)
    requires NormalizeDocument(doc, keys).Ok?
    ensures var rows := NormalizeDocument(doc, keys).value;
      && |rows| == |doc.shapes|
      && forall k :: 0 <= k < |rows| ==>
           Lookup(CreateYaml(root, keys).names, rows[k].classIdx) == Some(doc.shapes[k].name)
  {
    NormalizeRows(doc, keys);
    CreateYamlSpec(root, keys);
  }
}
