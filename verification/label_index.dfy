/**
 * The label indexer: one pass over every record counts each label, and the
 * distinct labels are then ordered by count, highest first. Equal counts keep
 * the order in which the labels were first met, because the counting
 * dictionary remembers insertion order and Python's sort is stable.
 */
module LabelIndex {
  import opened Annotation

  // ---------------------------------------------------------------------------
  // Specification of the counting dictionary
  // ---------------------------------------------------------------------------

  /** Distinct elements of `s` in order of first occurrence: the key order of a
      dictionary filled by walking `s`. */
  function Dedup(s: seq<string>): seq<string>
  {
    if s == [] then []
    else
      var prefix := Dedup(s[..|s| - 1]);
      if s[|s| - 1] in prefix then prefix else prefix + [s[|s| - 1]]
  }

  /** The label-to-count dictionary after counting `s` one label at a time. */
  function Tally(s: seq<string>): map<string, nat>
  {
    if s == [] then map[]
    else
      var prefix := Tally(s[..|s| - 1]);
      prefix[s[|s| - 1] := Count(prefix, s[|s| - 1]) + 1]
  }

  /** A dictionary lookup that reads a missing key as 0, like `defaultdict(int)`. */
  function Count(counts: map<string, nat>, k: string): nat
  {
    if k in counts then counts[k] else 0
  }

  /** Each distinct element of `s` appears in `Dedup(s)` exactly once, and nothing else does. */
  lemma {:induction false} DedupOnce(s: seq<string>)
    ensures forall l :: multiset(Dedup(s))[l] == if l in s then 1 else 0
  {
    if s != [] {
      var init, x := s[..|s| - 1], s[|s| - 1];
      DedupOnce(init);
      assert s == init + [x];
      forall l ensures multiset(Dedup(s))[l] == if l in s then 1 else 0 {
        assert l in s <==> l in init || l == x;
        assert x in Dedup(init) <==> x in multiset(Dedup(init));
      }
    }
  }

  lemma {:induction false} DedupMember(s: seq<string>, l: string)
    ensures l in Dedup(s) <==> l in s
  {
    if s != [] {
      var init := s[..|s| - 1];
      DedupMember(init, l);
      assert s == init + [s[|s| - 1]];
    }
  }

  /** The dictionary holds exactly the labels of `s`, each with its number of occurrences. */
  lemma {:induction false} TallyCount(s: seq<string>, k: string)
    ensures k in Tally(s) <==> k in s
    ensures Count(Tally(s), k) == multiset(s)[k]
  {
    if s != [] {
      var init, x := s[..|s| - 1], s[|s| - 1];
      TallyCount(init, k);
      assert s == init + [x];
      assert multiset(s) == multiset(init) + multiset{x};
    }
  }

  /** One more label: a new key is appended to the dictionary's key order and
      its count starts from 0; every count then goes up by one. */
  lemma CountStep(seen: seq<string>, name: string)
    ensures Dedup(seen + [name]) == if name in Tally(seen) then Dedup(seen) else Dedup(seen) + [name]
    ensures Tally(seen + [name]) == Tally(seen)[name := Count(Tally(seen), name) + 1]
  {
    var s := seen + [name];
    assert s[..|s| - 1] == seen && s[|s| - 1] == name;
    TallyCount(seen, name);
    DedupMember(seen, name);
  }

  // ---------------------------------------------------------------------------
  // Stable sort by descending count
  // ---------------------------------------------------------------------------

  /** `r` lists higher counts first. */
  ghost predicate NonIncreasing(r: seq<string>, counts: map<string, nat>)
  {
    forall i, j :: 0 <= i < j < |r| ==> Count(counts, r[i]) >= Count(counts, r[j])
  }

  /** The elements of `s` whose count is `c`, in their order in `s`. */
  function WithCount(s: seq<string>, counts: map<string, nat>, c: nat): seq<string>
  {
    if s == [] then []
    else (if Count(counts, s[0]) == c then [s[0]] else []) + WithCount(s[1..], counts, c)
  }

  /** Inserts `x` after every element whose count is at least its own. */
  function Insert(x: string, s: seq<string>, counts: map<string, nat>): seq<string>
  {
    if s == [] then [x]
    else if Count(counts, s[0]) >= Count(counts, x) then [s[0]] + Insert(x, s[1..], counts)
    else [x] + s
  }

  /** `sorted(keys, key=counts.get, reverse=True)`: a stable sort, highest count first. */
  function SortByCount(keys: seq<string>, counts: map<string, nat>): seq<string>
  {
    if keys == [] then []
    else Insert(keys[|keys| - 1], SortByCount(keys[..|keys| - 1], counts), counts)
  }

  lemma WithCountCons(x: string, t: seq<string>, counts: map<string, nat>, c: nat)
    ensures WithCount([x] + t, counts, c) == (if Count(counts, x) == c then [x] else []) + WithCount(t, counts, c)
  {
    assert ([x] + t)[0] == x && ([x] + t)[1..] == t;
  }

  lemma {:induction false} WithCountAppend(a: seq<string>, b: seq<string>, counts: map<string, nat>, c: nat)
    ensures WithCount(a + b, counts, c) == WithCount(a, counts, c) + WithCount(b, counts, c)
  {
    if a != [] {
      WithCountAppend(a[1..], b, counts, c);
      assert (a + b)[1..] == a[1..] + b;
    } else {
      assert a + b == b;
    }
  }

  lemma {:induction false} WithCountIn(s: seq<string>, counts: map<string, nat>, c: nat, x: string)
    requires x in WithCount(s, counts, c)
    ensures x in s && Count(counts, x) == c
  {
    if !(x == s[0] && Count(counts, s[0]) == c) {
      WithCountIn(s[1..], counts, c, x);
    }
  }

  /** A nonempty sequence has at least its first element at that element's count. */
  lemma WithCountHead(s: seq<string>, counts: map<string, nat>)
    ensures s != [] ==> WithCount(s, counts, Count(counts, s[0])) != []
  {
  }

  lemma {:induction false} WithCountNone(s: seq<string>, counts: map<string, nat>, c: nat)
    requires forall k :: 0 <= k < |s| ==> Count(counts, s[k]) < c
    ensures WithCount(s, counts, c) == []
  {
    if s != [] {
      WithCountNone(s[1..], counts, c);
    }
  }

  lemma {:induction false} InsertPermutes(x: string, s: seq<string>, counts: map<string, nat>)
    ensures multiset(Insert(x, s, counts)) == multiset(s) + multiset{x}
  {
    if s != [] && Count(counts, s[0]) >= Count(counts, x) {
      InsertPermutes(x, s[1..], counts);
      assert s == [s[0]] + s[1..];
    }
  }

  lemma {:induction false} InsertElements(x: string, s: seq<string>, counts: map<string, nat>, y: string)
    requires y in Insert(x, s, counts)
    ensures y == x || y in s
  {
    if s != [] && Count(counts, s[0]) >= Count(counts, x) && y != s[0] {
      InsertElements(x, s[1..], counts, y);
    }
  }

  lemma ConsNonIncreasing(h: string, t: seq<string>, counts: map<string, nat>)
    requires NonIncreasing(t, counts)
    requires forall j :: 0 <= j < |t| ==> Count(counts, h) >= Count(counts, t[j])
    ensures NonIncreasing([h] + t, counts)
  {
    forall i, j | 0 <= i < j < |[h] + t| ensures Count(counts, ([h] + t)[i]) >= Count(counts, ([h] + t)[j]) {
      if i > 0 {
        assert ([h] + t)[i] == t[i - 1];
      }
      assert ([h] + t)[j] == t[j - 1];
    }
  }

  lemma {:induction false} InsertOrdered(x: string, s: seq<string>, counts: map<string, nat>)
    requires NonIncreasing(s, counts)
    ensures NonIncreasing(Insert(x, s, counts), counts)
  {
    if s == [] {
    } else if Count(counts, s[0]) >= Count(counts, x) {
      var rest := Insert(x, s[1..], counts);
      InsertOrdered(x, s[1..], counts);
      forall j | 0 <= j < |rest| ensures Count(counts, s[0]) >= Count(counts, rest[j]) {
        InsertElements(x, s[1..], counts, rest[j]);
        if rest[j] != x {
          var k :| 0 <= k < |s[1..]| && s[1..][k] == rest[j];
          assert s[k + 1] == rest[j];
        }
      }
      ConsNonIncreasing(s[0], rest, counts);
    } else {
      ConsNonIncreasing(x, s, counts);
    }
  }

  lemma NonIncreasingTail(s: seq<string>, counts: map<string, nat>)
    requires s != [] && NonIncreasing(s, counts)
    ensures NonIncreasing(s[1..], counts)
  {
    forall i, j | 0 <= i < j < |s[1..]| ensures Count(counts, s[1..][i]) >= Count(counts, s[1..][j]) {
      assert s[1..][i] == s[i + 1] && s[1..][j] == s[j + 1];
    }
  }

  lemma {:induction false} InsertStable(x: string, s: seq<string>, counts: map<string, nat>, c: nat)
    requires NonIncreasing(s, counts)
    ensures WithCount(Insert(x, s, counts), counts, c) ==
            WithCount(s, counts, c) + (if Count(counts, x) == c then [x] else [])
  {
    if s == [] {
      WithCountCons(x, [], counts, c);
    } else if Count(counts, s[0]) >= Count(counts, x) {
      var rest := Insert(x, s[1..], counts);
      var head := if Count(counts, s[0]) == c then [s[0]] else [];
      var last := if Count(counts, x) == c then [x] else [];
      NonIncreasingTail(s, counts);
      InsertStable(x, s[1..], counts, c);
      calc {
        WithCount(Insert(x, s, counts), counts, c);
        WithCount([s[0]] + rest, counts, c);
        { WithCountCons(s[0], rest, counts, c); }
        head + WithCount(rest, counts, c);
        head + (WithCount(s[1..], counts, c) + last);
        (head + WithCount(s[1..], counts, c)) + last;
        { WithCountCons(s[0], s[1..], counts, c); assert s == [s[0]] + s[1..]; }
        WithCount(s, counts, c) + last;
      }
    } else {
      WithCountCons(x, s, counts, c);
      if Count(counts, x) == c {
        WithCountNone(s, counts, c);
      }
    }
  }

  lemma {:induction false} SortByCountPermutes(keys: seq<string>, counts: map<string, nat>)
    ensures multiset(SortByCount(keys, counts)) == multiset(keys)
  {
    if keys != [] {
      var init, x := keys[..|keys| - 1], keys[|keys| - 1];
      SortByCountPermutes(init, counts);
      InsertPermutes(x, SortByCount(init, counts), counts);
      assert keys == init + [x];
    }
  }

  lemma {:induction false} SortByCountOrdered(keys: seq<string>, counts: map<string, nat>)
    ensures NonIncreasing(SortByCount(keys, counts), counts)
  {
    if keys != [] {
      var init := keys[..|keys| - 1];
      SortByCountOrdered(init, counts);
      InsertOrdered(keys[|keys| - 1], SortByCount(init, counts), counts);
    }
  }

  lemma {:induction false} SortByCountStable(keys: seq<string>, counts: map<string, nat>, c: nat)
    ensures WithCount(SortByCount(keys, counts), counts, c) == WithCount(keys, counts, c)
  {
    if keys != [] {
      var init, x := keys[..|keys| - 1], keys[|keys| - 1];
      var sortedInit := SortByCount(init, counts);
      var last := if Count(counts, x) == c then [x] else [];
      SortByCountStable(init, counts, c);
      SortByCountOrdered(init, counts);
      InsertStable(x, sortedInit, counts, c);
      assert WithCount(SortByCount(keys, counts), counts, c) == WithCount(init, counts, c) + last;
      assert keys == init + [x];
      WithCountAppend(init, [x], counts, c);
      WithCountCons(x, [], counts, c);
      assert [x] + [] == [x];
      assert WithCount([x], counts, c) == last;
    }
  }

  /** The sorted keys are a rearrangement of the keys, highest count first,
      and equal counts keep their relative order (the sort is stable). */
  lemma SortByCountSpec(keys: seq<string>, counts: map<string, nat>)
    ensures multiset(SortByCount(keys, counts)) == multiset(keys)
    ensures NonIncreasing(SortByCount(keys, counts), counts)
    ensures forall c :: WithCount(SortByCount(keys, counts), counts, c) == WithCount(keys, counts, c)
  {
    SortByCountPermutes(keys, counts);
    SortByCountOrdered(keys, counts);
    forall c ensures WithCount(SortByCount(keys, counts), counts, c) == WithCount(keys, counts, c) {
      SortByCountStable(keys, counts, c);
    }
  }

  /**
   * A stable descending order is unique: two arrangements that both list
   * higher counts first and agree on the order within every count are equal.
   * So any stable sort (Timsort included) yields `SortByCount`.
   */
  lemma {:induction false} StableDescendingUnique(r1: seq<string>, r2: seq<string>, counts: map<string, nat>)
    requires NonIncreasing(r1, counts) && NonIncreasing(r2, counts)
    requires forall c :: WithCount(r1, counts, c) == WithCount(r2, counts, c)
    ensures r1 == r2
  {
    if r1 == [] || r2 == [] {
      // an empty side has no element of any count, so neither has the other
      WithCountHead(r1, counts);
      WithCountHead(r2, counts);
    } else {
      var m1, m2 := Count(counts, r1[0]), Count(counts, r2[0]);
      // the first element of each carries the largest count, so both carry the same one
      assert WithCount(r1, counts, m1)[0] == r1[0];
      WithCountIn(r2, counts, m1, r1[0]);
      assert m2 >= m1;
      assert WithCount(r2, counts, m2)[0] == r2[0];
      WithCountIn(r1, counts, m2, r2[0]);
      assert m1 >= m2;
      assert r1[0] == WithCount(r1, counts, m1)[0] == WithCount(r2, counts, m1)[0] == r2[0];
      forall c ensures WithCount(r1[1..], counts, c) == WithCount(r2[1..], counts, c) {
        assert r1 == [r1[0]] + r1[1..] && r2 == [r2[0]] + r2[1..];
        WithCountCons(r1[0], r1[1..], counts, c);
        WithCountCons(r2[0], r2[1..], counts, c);
        var head := if m1 == c then [r1[0]] else [];
        var t1, t2 := WithCount(r1[1..], counts, c), WithCount(r2[1..], counts, c);
        assert head + t1 == head + t2;
        assert t1 == (head + t1)[|head|..];
        assert t2 == (head + t2)[|head|..];
      }
      StableDescendingUnique(r1[1..], r2[1..], counts);
      assert r1 == [r1[0]] + r1[1..];
      assert r2 == [r2[0]] + r2[1..];
    }
  }

  // ---------------------------------------------------------------------------
  // Sums of counts
  // ---------------------------------------------------------------------------

  /** The counts of `keys` in `s`, added up. */
  function SumCounts(keys: seq<string>, s: seq<string>): nat
  {
    if keys == [] then 0 else multiset(s)[keys[0]] + SumCounts(keys[1..], s)
  }

  lemma {:induction false} SumCountsSnoc(keys: seq<string>, s: seq<string>, x: string)
    ensures SumCounts(keys, s + [x]) == SumCounts(keys, s) + multiset(keys)[x]
  {
    if keys != [] {
      SumCountsSnoc(keys[1..], s, x);
      assert keys == [keys[0]] + keys[1..];
      assert multiset(s + [x]) == multiset(s) + multiset{x};
    }
  }

  lemma {:induction false} SumCountsEmpty(keys: seq<string>)
    ensures SumCounts(keys, []) == 0
  {
    if keys != [] {
      SumCountsEmpty(keys[1..]);
    }
  }

  /** When every element of `s` occurs exactly once in `keys`, the counts of the keys add up to `|s|`. */
  lemma {:induction false} SumCountsCovers(keys: seq<string>, s: seq<string>)
    requires forall l :: l in s ==> multiset(keys)[l] == 1
    ensures SumCounts(keys, s) == |s|
  {
    if s == [] {
      SumCountsEmpty(keys);
    } else {
      var init, x := s[..|s| - 1], s[|s| - 1];
      assert s == init + [x];
      SumCountsCovers(keys, init);
      SumCountsSnoc(keys, init, x);
    }
  }

  // ---------------------------------------------------------------------------
  // get_labels_and_json_path
  // ---------------------------------------------------------------------------

  lemma ShapeStep(before: seq<string>, shapes: seq<Shape>, j: nat)
    requires j < |shapes|
    ensures before + ShapeLabels(shapes[..j + 1]) == before + ShapeLabels(shapes[..j]) + [shapes[j].name]
  {
    assert shapes[..j + 1][..j] == shapes[..j];
  }

  lemma RecordStep(docs: seq<Document>, i: nat)
    requires i < |docs|
    ensures Labels(docs[..i + 1]) == Labels(docs[..i]) + ShapeLabels(docs[i].shapes)
  {
    assert docs[..i + 1][..i] == docs[..i];
  }

  /**
   * Counts every shape label of every record and returns the distinct labels
   * ordered by count, highest first; equal counts keep first-occurrence order.
   */
  method IndexLabels(docs: seq<Document>) returns (sortedKeys: seq<string>)
    ensures sortedKeys == SortByCount(Dedup(Labels(docs)), Tally(Labels(docs)))
    ensures forall l :: multiset(sortedKeys)[l] == if l in Labels(docs) then 1 else 0
    ensures forall i, j :: 0 <= i < j < |sortedKeys| ==>
              Occurrences(docs, sortedKeys[i]) >= Occurrences(docs, sortedKeys[j])
    ensures forall c :: WithCount(sortedKeys, Tally(Labels(docs)), c) ==
                        WithCount(Dedup(Labels(docs)), Tally(Labels(docs)), c)
    ensures SumCounts(sortedKeys, Labels(docs)) == TotalShapes(docs)
  {
    // The dictionary: its keys in insertion order, and its values.
    var order: seq<string> := [];
    var counts: map<string, nat> := map[];
    ghost var seen: seq<string> := [];
    var i := 0;
    while i < |docs|
      invariant 0 <= i <= |docs|
      invariant seen == Labels(docs[..i])
      invariant order == Dedup(seen) && counts == Tally(seen)
    {
      var shapes := docs[i].shapes;
      ghost var before := seen;
      var j := 0;
      while j < |shapes|
        invariant 0 <= j <= |shapes|
        invariant seen == before + ShapeLabels(shapes[..j])
        invariant order == Dedup(seen) && counts == Tally(seen)
      {
        var name := shapes[j].name;
        CountStep(seen, name);
        if name !in counts {
          order := order + [name];
        }
        counts := counts[name := Count(counts, name) + 1];
        ShapeStep(before, shapes, j);
        seen := seen + [name];
        j := j + 1;
      }
      assert shapes[..j] == shapes;
      RecordStep(docs, i);
      i := i + 1;
    }
    assert docs[..i] == docs;
    sortedKeys := SortByCount(order, counts);
    assert sortedKeys == SortByCount(Dedup(Labels(docs)), Tally(Labels(docs)));
    LabelIndexSpec(Labels(docs));
    LabelsLength(docs);
  }

  /** What the index built from the corpus labels `s` promises. */
  lemma LabelIndexSpec(s: seq<string>)
    ensures var keys := SortByCount(Dedup(s), Tally(s));
      && (forall l :: multiset(keys)[l] == if l in s then 1 else 0)
      && (forall i, j :: 0 <= i < j < |keys| ==> multiset(s)[keys[i]] >= multiset(s)[keys[j]])
      && (forall c :: WithCount(keys, Tally(s), c) == WithCount(Dedup(s), Tally(s), c))
      && SumCounts(keys, s) == |s|
  {
    var keys := SortByCount(Dedup(s), Tally(s));
    SortByCountSpec(Dedup(s), Tally(s));
    DedupOnce(s);
    forall i, j | 0 <= i < j < |keys| ensures multiset(s)[keys[i]] >= multiset(s)[keys[j]] {
      TallyCount(s, keys[i]);
      TallyCount(s, keys[j]);
    }
    SumCountsCovers(keys, s);
  }
}
