/**
 * The text of one label-file line: the class id and then, for each point,
 * its normalised x and y, separated by single spaces, with the trailing space
 * stripped and a newline added. How a float is printed is not modelled; it is
 * a parameter `show`, of which only the shape of its output is required.
 */
module LineText {
  import opened Annotation
  import opened Normalize

  /** The characters `str.strip()` removes (its ASCII and Latin-1 ones). */
  predicate IsSpace(c: char)
  {
    || c == ' ' || c == '\t' || c == '\n' || c == '\r' || c == '\U{0B}' || c == '\U{0C}'
    || c == '\U{1C}' || c == '\U{1D}' || c == '\U{1E}' || c == '\U{1F}' || c == '\U{85}' || c == '\U{A0}'
  }

  function StripStart(s: string): string
  {
    if s != [] && IsSpace(s[0]) then StripStart(s[1..]) else s
  }

  function StripEnd(s: string): string
  {
    if s != [] && IsSpace(s[|s| - 1]) then StripEnd(s[..|s| - 1]) else s
  }

  /** `s.strip()`. */
  function Strip(s: string): string
  {
    StripEnd(StripStart(s))
  }

  function DigitChar(d: nat): char
    requires d < 10
  {
    "0123456789"[d]
  }

  /** `str(n)` for a class id. */
  function NatToString(n: nat): string
  {
    if n < 10 then [DigitChar(n)] else NatToString(n / 10) + [DigitChar(n % 10)]
  }

  /** What the inner loop appends: `f"{x} {y} "` for each point, in order. */
  function PointsText(coords: seq<Point>, show: real -> string): string
  {
    if coords == [] then ""
    else show(coords[0].x) + " " + show(coords[0].y) + " " + PointsText(coords[1..], show)
  }

  /** The line written for a row: `(f"{class_idx} " + points).strip() + "\n"`. */
  function FormatLine(row: Row, show: real -> string): string
  {
    Strip(NatToString(row.classIdx) + " " + PointsText(row.coords, show)) + "\n"
  }

  // ---------------------------------------------------------------------------
  // Fields of a line
  // ---------------------------------------------------------------------------

  /** A printed value: nonempty, without whitespace. */
  predicate IsField(t: string)
  {
    t != [] && forall k :: 0 <= k < |t| ==> !IsSpace(t[k])
  }

  function CoordFields(coords: seq<Point>, show: real -> string): seq<string>
  {
    if coords == [] then [] else [show(coords[0].x), show(coords[0].y)] + CoordFields(coords[1..], show)
  }

  /** The fields of a row: the class id, then x and y of each point in order. */
  function Fields(row: Row, show: real -> string): seq<string>
  {
    [NatToString(row.classIdx)] + CoordFields(row.coords, show)
  }

  /** The fields joined by single spaces. */
  function Join(fields: seq<string>): string
    requires fields != []
  {
    if |fields| == 1 then fields[0] else fields[0] + " " + Join(fields[1..])
  }

  /** `s.split(" ")`: the pieces between single spaces. */
  function Split(s: string): (pieces: seq<string>)
    ensures pieces != []
  {
    if s == [] then [""]
    else if s[0] == ' ' then [""] + Split(s[1..])
    else
      var rest := Split(s[1..]);
      [[s[0]] + rest[0]] + rest[1..]
  }

  lemma {:induction false} NatToStringField(n: nat)
    ensures IsField(NatToString(n))
  {
    if n >= 10 {
      NatToStringField(n / 10);
    }
  }

  lemma {:induction false} CoordFieldsAreFields(coords: seq<Point>, show: real -> string)
    requires forall x :: IsField(show(x))
    ensures forall k :: 0 <= k < |CoordFields(coords, show)| ==> IsField(CoordFields(coords, show)[k])
  {
    if coords != [] {
      CoordFieldsAreFields(coords[1..], show);
    }
  }

  /** What the loop builds is the joined fields followed by one space. */
  lemma {:induction false} BuiltText(head: string, coords: seq<Point>, show: real -> string)
    ensures head + " " + PointsText(coords, show) == Join([head] + CoordFields(coords, show)) + " "
    decreases coords
  {
    if coords == [] {
      assert [head] + CoordFields(coords, show) == [head];
    } else {
      var sx, sy := show(coords[0].x), show(coords[0].y);
      var rest := CoordFields(coords[1..], show);
      BuiltText(sy, coords[1..], show);
      var fields := [head] + ([sx, sy] + rest);
      assert fields[1..] == [sx] + ([sy] + rest);
      assert ([sx] + ([sy] + rest))[1..] == [sy] + rest;
      assert [head] + CoordFields(coords, show) == fields;
      calc {
        Join(fields) + " ";
        head + " " + (sx + " " + Join([sy] + rest)) + " ";
        head + " " + (sx + " " + (sy + " " + PointsText(coords[1..], show)));
        head + " " + PointsText(coords, show);
      }
    }
  }

  lemma {:induction false} JoinEdges(fields: seq<string>)
    requires fields != []
    requires forall k :: 0 <= k < |fields| ==> IsField(fields[k])
    ensures Join(fields) != []
    ensures !IsSpace(Join(fields)[0]) && !IsSpace(Join(fields)[|Join(fields)| - 1])
  {
    if |fields| > 1 {
      JoinEdges(fields[1..]);
      var rest := Join(fields[1..]);
      assert Join(fields) == fields[0] + " " + rest;
      assert Join(fields)[0] == fields[0][0];
      assert Join(fields)[|Join(fields)| - 1] == rest[|rest| - 1];
    }
  }

  /** Stripping the joined fields plus the trailing space leaves the joined fields. */
  lemma StripTrailingSpace(joined: string)
    requires joined != [] && !IsSpace(joined[0]) && !IsSpace(joined[|joined| - 1])
    ensures Strip(joined + " ") == joined
  {
    var t := joined + " ";
    assert t[0] == joined[0];
    assert StripStart(t) == t;
    assert t[|t| - 1] == ' ' && t[..|t| - 1] == joined;
    assert StripEnd(t) == StripEnd(joined);
    assert StripEnd(joined) == joined;
  }

  /**
   * When every printed value is a nonempty run of non-space characters, the
   * line is the fields joined by single spaces and a newline: no leading or
   * trailing space, and x before y for every point in order.
   */
  lemma FormatLineFields(row: Row, show: real -> string)
    requires forall x :: IsField(show(x))
    ensures FormatLine(row, show) == Join(Fields(row, show)) + "\n"
    ensures var line := FormatLine(row, show);
      |line| >= 2 && line[|line| - 1] == '\n' && !IsSpace(line[0]) && !IsSpace(line[|line| - 2])
  {
    var fields := Fields(row, show);
    BuiltText(NatToString(row.classIdx), row.coords, show);
    NatToStringField(row.classIdx);
    CoordFieldsAreFields(row.coords, show);
    JoinEdges(fields);
    StripTrailingSpace(Join(fields));
  }

  lemma {:induction false} SplitField(t: string)
    requires forall k :: 0 <= k < |t| ==> t[k] != ' '
    ensures Split(t) == [t]
  {
    if t != [] {
      SplitField(t[1..]);
      assert [t[0]] + t[1..] == t;
    }
  }

  lemma {:induction false} SplitAfterField(t: string, u: string)
    requires forall k :: 0 <= k < |t| ==> t[k] != ' '
    ensures Split(t + " " + u) == [t] + Split(u)
  {
    if t == [] {
      assert t + " " + u == [' '] + u;
      assert (t + " " + u)[1..] == u;
    } else {
      SplitAfterField(t[1..], u);
      var s := t + " " + u;
      assert s[0] == t[0] && s[1..] == t[1..] + " " + u;
      assert [t[0]] + t[1..] == t;
    }
  }

  /** Splitting the joined fields at single spaces gives the fields back. */
  lemma {:induction false} SplitJoin(fields: seq<string>)
    requires fields != []
    requires forall k :: 0 <= k < |fields| ==> IsField(fields[k])
    ensures Split(Join(fields)) == fields
  {
    SplitField(fields[0]);
    if |fields| > 1 {
      SplitJoin(fields[1..]);
      SplitAfterField(fields[0], Join(fields[1..]));
      assert [fields[0]] + fields[1..] == fields;
    }
  }

  /** A reader that drops the newline and splits the line at spaces recovers
      exactly the class id and the coordinates, in order. */
  lemma FormatLineRoundTrip(row: Row, show: real -> string)
    requires forall x :: IsField(show(x))
    ensures var line := FormatLine(row, show);
      |line| >= 1 && Split(line[..|line| - 1]) == Fields(row, show)
  {
    var line := FormatLine(row, show);
    FormatLineFields(row, show);
    NatToStringField(row.classIdx);
    CoordFieldsAreFields(row.coords, show);
    assert line[..|line| - 1] == Join(Fields(row, show));
    SplitJoin(Fields(row, show));
  }
}
