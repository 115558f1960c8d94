/**
 * The geometry normaliser: one record becomes one row per shape, the row
 * holding the class id of the shape's label (its position in the label index)
 * and every point divided by the record's declared width and height.
 */
module Normalize {
  import opened Annotation

  /** One output row before it is turned into text. */
  datatype Row = Row(classIdx: nat, coords: seq<Point>)

  /** `keys.index(l)`: the first position of `l` in `keys`. */
  function IndexOf(keys: seq<string>, l: string): (i: nat)
    requires l in keys
    ensures i < |keys| && keys[i] == l
    ensures forall j :: 0 <= j < i ==> keys[j] != l
  {
    if keys[0] == l then 0 else 1 + IndexOf(keys[1..], l)
  }

  /** Every point divided by the width (x) and the height (y). */
  function Scale(points: seq<Point>, w: int, h: int): seq<Point>
    requires points != [] ==> w != 0 && h != 0
  {
    if points == [] then []
    else
      var p := points[|points| - 1];
      Scale(points[..|points| - 1], w, h) + [Point(p.x / w as real, p.y / h as real)]
  }

  /** The row of one shape; the label is looked up before any point is divided. */
  function NormalizeShape(shape: Shape, keys: seq<string>, w: int, h: int): Result<Row>
  {
    if shape.name !in keys then Err(UnknownLabel(shape.name))
    else if shape.points != [] && (w == 0 || h == 0) then Err(DivisionByZero)
    else Ok(Row(IndexOf(keys, shape.name), Scale(shape.points, w, h)))
  }

  /** The rows of `shapes` in order, or the error of the first shape that fails. */
  function NormalizeShapes(shapes: seq<Shape>, keys: seq<string>, w: int, h: int): Result<seq<Row>>
  {
    if shapes == [] then Ok([])
    else
      match NormalizeShapes(shapes[..|shapes| - 1], keys, w, h)
      case Err(e) => Err(e)
      case Ok(rows) =>
        match NormalizeShape(shapes[|shapes| - 1], keys, w, h)
        case Err(e) => Err(e)
        case Ok(row) => Ok(rows + [row])
  }

  /** The rows of one record: its size is read first, then its shapes in order. */
  function NormalizeDocument(doc: Document, keys: seq<string>): Result<seq<Row>>
  {
    if doc.width.None? then Err(MissingField("imageWidth"))
    else if doc.height.None? then Err(MissingField("imageHeight"))
    else NormalizeShapes(doc.shapes, keys, doc.width.value, doc.height.value)
  }

  /** A record converts exactly when its size is present, every label is in
      the index, and no point is divided by a zero dimension. */
  ghost predicate Convertible(doc: Document, keys: seq<string>)
  {
    && doc.width.Some? && doc.height.Some?
    && forall k :: 0 <= k < |doc.shapes| ==>
         && doc.shapes[k].name in keys
         && (doc.shapes[k].points != [] ==> doc.width.value != 0 && doc.height.value != 0)
  }

  // ---------------------------------------------------------------------------
  // Properties of the specification
  // ---------------------------------------------------------------------------

  lemma {:induction false} ScaleAt(points: seq<Point>, w: int, h: int)
    requires w != 0 && h != 0
    ensures |Scale(points, w, h)| == |points|
    ensures forall j :: 0 <= j < |points| ==>
              Scale(points, w, h)[j] == Point(points[j].x / w as real, points[j].y / h as real)
  {
    if points != [] {
      ScaleAt(points[..|points| - 1], w, h);
    }
  }

  /** Once a prefix of the shapes fails, every longer prefix fails with the same error. */
  lemma {:induction false} ErrorSticks(shapes: seq<Shape>, keys: seq<string>, w: int, h: int, i: nat, k: nat, e: Error)
    requires i <= k <= |shapes|
    requires NormalizeShapes(shapes[..i], keys, w, h) == Err(e)
    ensures NormalizeShapes(shapes[..k], keys, w, h) == Err(e)
  {
    if k > i {
      ErrorSticks(shapes, keys, w, h, i, k - 1, e);
      assert shapes[..k][..k - 1] == shapes[..k - 1];
    }
  }

  /** The shapes convert exactly when every one of them does; then there is one row per shape, in order. */
  lemma {:induction false} NormalizeShapesSpec(shapes: seq<Shape>, keys: seq<string>, w: int, h: int)
    ensures NormalizeShapes(shapes, keys, w, h).Ok? <==>
            forall k :: 0 <= k < |shapes| ==> NormalizeShape(shapes[k], keys, w, h).Ok?
    ensures NormalizeShapes(shapes, keys, w, h).Ok? ==>
            var rows := NormalizeShapes(shapes, keys, w, h).value;
            |rows| == |shapes| &&
            forall k :: 0 <= k < |shapes| ==> NormalizeShape(shapes[k], keys, w, h) == Ok(rows[k])
  {
    if shapes != [] {
      var init := shapes[..|shapes| - 1];
      NormalizeShapesSpec(init, keys, w, h);
      assert forall k :: 0 <= k < |init| ==> init[k] == shapes[k];
    }
  }

  /** A record converts exactly when it is `Convertible`. */
  lemma NormalizeSucceedsIff(doc: Document, keys: seq<string>)
    ensures NormalizeDocument(doc, keys).Ok? <==> Convertible(doc, keys)
  {
    if doc.width.Some? && doc.height.Some? {
      NormalizeShapesSpec(doc.shapes, keys, doc.width.value, doc.height.value);
    }
  }

  /**
   * A converted record has one row per shape, in shape order; each row's class
   * id is the first position of the shape's label in the index, and its
   * coordinates are the shape's points, in order, divided by the width and
   * the height.
   */
  lemma NormalizeRows(doc: Document, keys: seq<string>)
    requires NormalizeDocument(doc, keys).Ok?
    ensures var rows := NormalizeDocument(doc, keys).value;
      && |rows| == |doc.shapes|
      && forall k :: 0 <= k < |rows| ==>
           && rows[k].classIdx < |keys|
           && keys[rows[k].classIdx] == doc.shapes[k].name
           && (forall j :: 0 <= j < rows[k].classIdx ==> keys[j] != doc.shapes[k].name)
           && |rows[k].coords| == |doc.shapes[k].points|
           && (doc.shapes[k].points != [] ==> doc.width.value != 0 && doc.height.value != 0)
           && forall j :: 0 <= j < |rows[k].coords| ==>
                rows[k].coords[j] == Point(doc.shapes[k].points[j].x / doc.width.value as real,
                                      doc.shapes[k].points[j].y / doc.height.value as real)
  {
    var w, h := doc.width.value, doc.height.value;
    NormalizeShapesSpec(doc.shapes, keys, w, h);
    var rows := NormalizeDocument(doc, keys).value;
    forall k | 0 <= k < |rows|
      ensures |rows[k].coords| == |doc.shapes[k].points|
      ensures doc.shapes[k].points != [] ==> w != 0 && h != 0
      ensures forall j :: 0 <= j < |rows[k].coords| ==>
                rows[k].coords[j] == Point(doc.shapes[k].points[j].x / w as real,
                                      doc.shapes[k].points[j].y / h as real)
    {
      assert NormalizeShape(doc.shapes[k], keys, w, h) == Ok(rows[k]);
      if doc.shapes[k].points != [] {
        ScaleAt(doc.shapes[k].points, w, h);
      }
    }
  }

  /** A normalised point multiplied back by the image size. */
  function UnscalePoint(c: Point, w: int, h: int): Point
  {
    Point(c.x * w as real, c.y * h as real)
  }

  /** Multiplies normalised coordinates back by the image size. */
  function Unscale(coords: seq<Point>, w: int, h: int): seq<Point>
  {
    if coords == [] then []
    else Unscale(coords[..|coords| - 1], w, h) + [UnscalePoint(coords[|coords| - 1], w, h)]
  }

  /** The shape a row describes, read back through the label index. */
  function RestoreShape(row: Row, keys: seq<string>, w: int, h: int): Shape
    requires row.classIdx < |keys|
  {
    Shape(keys[row.classIdx], Unscale(row.coords, w, h))
  }

  lemma UnscaleSnoc(coords: seq<Point>, c: Point, w: int, h: int)
    ensures Unscale(coords + [c], w, h) == Unscale(coords, w, h) + [UnscalePoint(c, w, h)]
  {
    var s := coords + [c];
    assert s[..|s| - 1] == coords && s[|s| - 1] == c;
  }

  lemma {:induction false} UnscaleScale(points: seq<Point>, w: int, h: int)
    requires points != [] ==> w != 0 && h != 0
    ensures Unscale(Scale(points, w, h), w, h) == points
  {
    if points != [] {
      var init := points[..|points| - 1];
      UnscaleScale(init, w, h);
      var p := points[|points| - 1];
      var q := Point(p.x / w as real, p.y / h as real);
      var s := Scale(points, w, h);
      assert s == Scale(init, w, h) + [q];
      assert s != [] && s[..|s| - 1] == Scale(init, w, h) && s[|s| - 1] == q;
      assert q.x * w as real == p.x && q.y * h as real == p.y;
      assert UnscalePoint(q, w, h) == p;
      UnscaleSnoc(Scale(init, w, h), q, w, h);
      assert points == init + [p];
    }
  }

  /** Nothing is lost: reading each row back through the index and the image
      size gives the record's shapes again. */
  lemma NormalizeRoundTrip(doc: Document, keys: seq<string>)
    requires NormalizeDocument(doc, keys).Ok?
    ensures var rows := NormalizeDocument(doc, keys).value;
      && |rows| == |doc.shapes|
      && forall k :: 0 <= k < |rows| ==>
           rows[k].classIdx < |keys| &&
           RestoreShape(rows[k], keys, doc.width.value, doc.height.value) == doc.shapes[k]
  {
    var w, h := doc.width.value, doc.height.value;
    NormalizeShapesSpec(doc.shapes, keys, w, h);
    var rows := NormalizeDocument(doc, keys).value;
    forall k | 0 <= k < |rows|
      ensures rows[k].classIdx < |keys| && RestoreShape(rows[k], keys, w, h) == doc.shapes[k]
    {
      assert NormalizeShape(doc.shapes[k], keys, w, h) == Ok(rows[k]);
      UnscaleScale(doc.shapes[k].points, w, h);
    }
  }

  // ---------------------------------------------------------------------------
  // json_to_yolo
  // ---------------------------------------------------------------------------

  /** Scaling one more point appends its scaled copy. */
  lemma ScaleStep(points: seq<Point>, w: int, h: int, j: nat)
    requires j < |points| && w != 0 && h != 0
    ensures Scale(points[..j + 1], w, h) == Scale(points[..j], w, h) + [Point(points[j].x / w as real, points[j].y / h as real)]
  {
    assert points[..j + 1][..j] == points[..j];
  }

  /** A shape that fails after a converted prefix fails the whole record with its error. */
  lemma ShapesFail(shapes: seq<Shape>, keys: seq<string>, w: int, h: int, i: nat, rows: seq<Row>, e: Error)
    requires i < |shapes|
    requires NormalizeShapes(shapes[..i], keys, w, h) == Ok(rows)
    requires NormalizeShape(shapes[i], keys, w, h) == Err(e)
    ensures NormalizeShapes(shapes, keys, w, h) == Err(e)
  {
    assert shapes[..i + 1][..i] == shapes[..i];
    ErrorSticks(shapes, keys, w, h, i + 1, |shapes|, e);
    assert shapes[..|shapes|] == shapes;
  }

  /** A shape that converts after a converted prefix adds its row. */
  lemma ShapesExtend(shapes: seq<Shape>, keys: seq<string>, w: int, h: int, i: nat, rows: seq<Row>, row: Row)
    requires i < |shapes|
    requires NormalizeShapes(shapes[..i], keys, w, h) == Ok(rows)
    requires NormalizeShape(shapes[i], keys, w, h) == Ok(row)
    ensures NormalizeShapes(shapes[..i + 1], keys, w, h) == Ok(rows + [row])
  {
    assert shapes[..i + 1][..i] == shapes[..i];
  }

  /** What a successful conversion of a record guarantees, stated on the specification. */
  lemma NormalizeFacts(doc: Document, keys: seq<string>)
    ensures NormalizeDocument(doc, keys).Ok? <==> Convertible(doc, keys)
    ensures NormalizeDocument(doc, keys).Ok? ==> |NormalizeDocument(doc, keys).value| == |doc.shapes|
    ensures NormalizeDocument(doc, keys).Ok? ==> forall k :: 0 <= k < |doc.shapes| ==>
              var row := NormalizeDocument(doc, keys).value[k];
              row.classIdx < |keys| && keys[row.classIdx] == doc.shapes[k].name
  {
    NormalizeSucceedsIff(doc, keys);
    if NormalizeDocument(doc, keys).Ok? {
      NormalizeRows(doc, keys);
    }
  }

  /**
   * Converts one record: reads its size, then walks its shapes, looking up
   * each label and dividing each point; the first failure aborts the record.
   */
  method JsonToYolo(doc: Document, keys: seq<string>) returns (result: Result<seq<Row>>)
    ensures result == NormalizeDocument(doc, keys)
    ensures result.Ok? <==> Convertible(doc, keys)
    ensures result.Ok? ==> |result.value| == |doc.shapes|
    ensures result.Ok? ==> forall k :: 0 <= k < |doc.shapes| ==>
              result.value[k].classIdx < |keys| && keys[result.value[k].classIdx] == doc.shapes[k].name
  {
    NormalizeFacts(doc, keys);
    if doc.width.None? {
      return Err(MissingField("imageWidth"));
    }
    if doc.height.None? {
      return Err(MissingField("imageHeight"));
    }
    var w, h := doc.width.value, doc.height.value;
    var shapes := doc.shapes;
    var rows: seq<Row> := [];
    var i := 0;
    while i < |shapes|
      invariant 0 <= i <= |shapes|
      invariant NormalizeShapes(shapes[..i], keys, w, h) == Ok(rows)
    {
      var shape := shapes[i];
      if shape.name !in keys {
        result := Err(UnknownLabel(shape.name));
        ShapesFail(shapes, keys, w, h, i, rows, result.error);
        return;
      }
      var classIdx := IndexOf(keys, shape.name);
      var coords: seq<Point> := [];
      var j := 0;
      while j < |shape.points|
        invariant 0 <= j <= |shape.points|
        invariant j > 0 ==> w != 0 && h != 0
        invariant coords == Scale(shape.points[..j], w, h)
      {
        if w == 0 || h == 0 {
          result := Err(DivisionByZero);
          ShapesFail(shapes, keys, w, h, i, rows, result.error);
          return;
        }
        var x, y := shape.points[j].x, shape.points[j].y;
        ScaleStep(shape.points, w, h, j);
        coords := coords + [Point(x / w as real, y / h as real)];
        j := j + 1;
      }
      assert shape.points[..j] == shape.points;
      ShapesExtend(shapes, keys, w, h, i, rows, Row(classIdx, coords));
      rows := rows + [Row(classIdx, coords)];
      i := i + 1;
    }
    assert shapes[..i] == shapes;
    result := Ok(rows);
  }
}
