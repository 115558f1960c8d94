/**
 * The LabelMe annotation records the converter reads, and the errors a
 * conversion can raise. A record is taken as already parsed: reading and
 * decoding the JSON file is outside the model.
 */
module Annotation {

  datatype Option<+T> = None | Some(value: T)

  /** The exceptions the conversion can raise on a parsed record. */
  datatype Error =
    | MissingField(field: string)   // KeyError on a record without "imageWidth"/"imageHeight"
    | UnknownLabel(name: string)   // ValueError from list.index on a label outside the index
    | DivisionByZero                // ZeroDivisionError from a point divided by a zero dimension

  datatype Result<+T> = Ok(value: T) | Err(error: Error)

  /** A point: one `[x, y]` pair of a shape, or of a row once normalised. */
  datatype Point = Point(x: real, y: real)

  /**
   * One labelled polygon of a record: its "label" field (called `name` here,
   * since `label` is a Dafny keyword) and its "points".
   */
  datatype Shape = Shape(name: string, points: seq<Point>)

  /** A file location: the directory and the file name within it. */
  datatype FilePath = FilePath(dir: string, name: string)

  /**
   * One annotation record `<dir>/<stem>.json`. The declared image size is
   * optional because nothing checks its presence before it is read.
   */
  datatype Document = Document(
    dir: string,
    stem: string,
    width: Option<int>,
    height: Option<int>,
    shapes: seq<Shape>)

  /** The labels of `shapes`, in shape order. */
  function ShapeLabels(shapes: seq<Shape>): seq<string>
  {
    if shapes == [] then []
    else ShapeLabels(shapes[..|shapes| - 1]) + [shapes[|shapes| - 1].name]
  }

  /** Every shape label of every record, records in discovery order. */
  function Labels(docs: seq<Document>): seq<string>
  {
    if docs == [] then []
    else Labels(docs[..|docs| - 1]) + ShapeLabels(docs[|docs| - 1].shapes)
  }

  /** The number of shapes across all records. */
  function TotalShapes(docs: seq<Document>): nat
  {
    if docs == [] then 0
    else TotalShapes(docs[..|docs| - 1]) + |docs[|docs| - 1].shapes|
  }

  /** How many shapes carry label `l`. */
  function Occurrences(docs: seq<Document>, l: string): nat
  {
    multiset(Labels(docs))[l]
  }

  lemma {:induction false} ShapeLabelsAt(shapes: seq<Shape>)
    ensures |ShapeLabels(shapes)| == |shapes|
    ensures forall k :: 0 <= k < |shapes| ==> ShapeLabels(shapes)[k] == shapes[k].name
  {
    if shapes != [] {
      ShapeLabelsAt(shapes[..|shapes| - 1]);
    }
  }

  /** There is one label per shape. */
  lemma {:induction false} LabelsLength(docs: seq<Document>)
    ensures |Labels(docs)| == TotalShapes(docs)
  {
    if docs != [] {
      LabelsLength(docs[..|docs| - 1]);
      ShapeLabelsAt(docs[|docs| - 1].shapes);
    }
  }

  /** A label occurs in the corpus exactly when some shape of some record carries it. */
  lemma {:induction false} InLabels(docs: seq<Document>, l: string)
    ensures l in Labels(docs) <==>
            exists d, k :: 0 <= d < |docs| && 0 <= k < |docs[d].shapes| && docs[d].shapes[k].name == l
  {
    if docs != [] {
      var init := docs[..|docs| - 1];
      var last := docs[|docs| - 1];
      InLabels(init, l);
      ShapeLabelsAt(last.shapes);
      if l in Labels(docs) {
        if l in Labels(init) {
          var d, k :| 0 <= d < |init| && 0 <= k < |init[d].shapes| && init[d].shapes[k].name == l;
          assert docs[d] == init[d];
        } else {
          assert l in ShapeLabels(last.shapes);
          var k :| 0 <= k < |last.shapes| && ShapeLabels(last.shapes)[k] == l;
          assert docs[|docs| - 1].shapes[k].name == l;
        }
      } else {
        forall d, k | 0 <= d < |docs| && 0 <= k < |docs[d].shapes|
          ensures docs[d].shapes[k].name != l
        {
          if d < |init| {
            assert docs[d] == init[d];
          } else {
            assert ShapeLabels(last.shapes)[k] == docs[d].shapes[k].name;
          }
        }
      }
    }
  }
}
