/**
 From metric records to the body of a write request: the loops that build and print the lines, and reading the
 whole body back.
 */
module InfluxFormat {
  import opened Wrappers
  import opened LineProtocol
  import opened Influx
  import opened InfluxRecords

  /* ----------------------------------------------------------- the body */

  function Texts(lines: seq<Line>): seq<string>
  {
    seq(|lines|, i requires 0 <= i < |lines| => PrintLine(lines[i]))
  }

  /** `''.join(texts)`. */
  function Concat(texts: seq<string>): string
  {
    if texts == [] then [] else texts[0] + Concat(texts[1..])
  }

  /* ------------------------------------------------------------ theorems */

  lemma ReadBodyCons(s: string, p: Point, rest: string)
    requires s != [] && ReadLine(s) == Some(Read(p, rest))
    ensures ReadBody(s) == var more := ReadBody(rest); if more.None? then None else Some([p] + more.value)
  {
  }

  /** The first line of a body is read back only if it is printable, and then only the rest matters. */
  lemma ReadBodyLine(line: Line, rest: string, points: seq<Point>)
    requires NumbersOk(line)
    ensures ReadBody(PrintLine(line) + rest) == Some([PointOf(line)] + points) <==>
            Printable(line) && ReadBody(rest) == Some(points)
  {
    var s := PrintLine(line) + rest;
    LineRoundTrip(line, rest);
    assert s != [];
    if Printable(line) {
      ReadBodyCons(s, PointOf(line), rest);
      var more := ReadBody(rest);
      if more.Some? { SameTail(PointOf(line), more.value, points); }
    } else {
      var r := ReadLine(s);
      if r.Some? {
        ReadBodyCons(s, r.value.value, r.value.rest);
        var more := ReadBody(r.value.rest);
        if more.Some? { assert ([r.value.value] + more.value)[0] != ([PointOf(line)] + points)[0]; }
      }
    }
  }

  lemma SameTail(p: Point, a: seq<Point>, b: seq<Point>)
    ensures [p] + a == [p] + b <==> a == b
  {
    assert ([p] + a)[1..] == a && ([p] + b)[1..] == b;
  }

  lemma TextsCons(line: Line, more: seq<Line>)
    ensures Texts([line] + more) == [PrintLine(line)] + Texts(more)
  {
  }

  lemma TextsAndPoints(lines: seq<Line>)
    requires lines != []
    ensures Concat(Texts(lines)) == PrintLine(lines[0]) + Concat(Texts(lines[1..]))
    ensures Points(lines) == [PointOf(lines[0])] + Points(lines[1..])
  {
    assert lines == [lines[0]] + lines[1..];
    TextsCons(lines[0], lines[1..]);
    assert Texts(lines)[1..] == Texts(lines[1..]);
    PointsCons(lines[0], lines[1..]);
  }

  /** A body is read back as exactly the points of its lines, in order, exactly when every line is printable. */
  lemma {:induction false} BodyRoundTrip(lines: seq<Line>)
    requires forall i :: 0 <= i < |lines| ==> NumbersOk(lines[i])
    ensures ReadBody(Concat(Texts(lines))) == Some(Points(lines)) <==>
            forall i :: 0 <= i < |lines| ==> Printable(lines[i])
  {
    if lines == [] {
      assert Texts(lines) == [] && Points(lines) == [];
    } else {
      var rest := lines[1..];
      BodyRoundTrip(rest);
      TextsAndPoints(lines);
      ReadBodyLine(lines[0], Concat(Texts(rest)), Points(rest));
      assert (forall i :: 0 <= i < |lines| ==> Printable(lines[i])) <==>
             Printable(lines[0]) && forall i :: 0 <= i < |rest| ==> Printable(rest[i]) by {
        assert forall i :: 0 < i < |lines| ==> lines[i] == rest[i - 1];
        assert forall i :: 0 <= i < |rest| ==> rest[i] == lines[i + 1];
      }
    }
  }

  lemma {:induction false} EscapeLast(a: string, c: char)
    ensures Escape(a + [c], IN_KEYS) == Escape(a, IN_KEYS) + if c in IN_KEYS then ['\\', c] else [c]
  {
    if a == [] {
      assert a + [c] == [c] && [c][1..] == [];
    } else {
      EscapeLast(a[1..], c);
      assert (a + [c])[1..] == a[1..] + [c];
      Associate(if a[0] in IN_KEYS then ['\\', a[0]] else [a[0]], Escape(a[1..], IN_KEYS),
                if c in IN_KEYS then ['\\', c] else [c]);
    }
  }

  /** Escaping keeps keys apart. */
  lemma {:induction false} EscapeInjective(a: string, b: string)
    requires Escape(a, IN_KEYS) == Escape(b, IN_KEYS)
    ensures a == b
  {
    EscapePlain(a, IN_KEYS);
    EscapePlain(b, IN_KEYS);
    if a != [] && b != [] {
      var (a', b') := (a[..|a| - 1], b[..|b| - 1]);
      var (c, d) := (a[|a| - 1], b[|b| - 1]);
      assert a == a' + [c] && b == b' + [d];
      EscapeLast(a', c);
      EscapeLast(b', d);
      var e := Escape(a, IN_KEYS);
      assert e[|e| - 1] == c == d;
      assert Escape(a', IN_KEYS) == e[..|e| - if c in IN_KEYS then 2 else 1] == Escape(b', IN_KEYS);
      EscapeInjective(a', b');
    }
  }

  /** The escaped key of one more item is none of those before. */
  lemma NewKey<V>(d: Dict<V>, i: nat)
    requires DistinctKeys(d) && i < |d|
    ensures forall j :: 0 <= j < i ==> EscapeKey(d[j].0) != EscapeKey(d[i].0)
  {
    forall j | 0 <= j < i ensures EscapeKey(d[j].0) != EscapeKey(d[i].0) {
      EscapeKeyIs(d[j].0);
      EscapeKeyIs(d[i].0);
      if EscapeKey(d[j].0) == EscapeKey(d[i].0) {
        EscapeInjective(d[j].0, d[i].0);
      }
    }
  }

  lemma {:induction false} PutKeepsKeys<V>(d: Dict<V>, k: string, v: V)
    requires DistinctKeys(d)
    ensures DistinctKeys(Put(d, k, v))
    ensures forall i :: 0 <= i < |Put(d, k, v)| ==>
            Put(d, k, v)[i].0 == k || exists j :: 0 <= j < |d| && d[j].0 == Put(d, k, v)[i].0
  {
    if d != [] && d[0].0 != k {
      PutKeepsKeys(d[1..], k, v);
      var more := Put(d[1..], k, v);
      forall i | 0 <= i < |more| ensures more[i].0 != d[0].0 {
        if more[i].0 != k {
          var j :| 0 <= j < |d[1..]| && d[1..][j].0 == more[i].0;
          assert d[j + 1].0 == more[i].0;
        }
      }
      forall i | 0 <= i < |more| && more[i].0 != k ensures exists j :: 0 <= j < |d| && d[j].0 == more[i].0 {
        var j :| 0 <= j < |d[1..]| && d[1..][j].0 == more[i].0;
        assert d[j + 1].0 == more[i].0;
      }
    }
  }

  /* ------------------------------------------------------------- printing */

  /** `escape_tags`: fills a new dictionary; a missing value becomes "unknown". */
  method EscapeTags(tags: Tags) returns (clean: Dict<string>)
    requires DistinctKeys(tags)
    ensures clean == CleanTags(tags)
  {
    clean := [];
    for i := 0 to |tags|
      invariant |clean| == i
      invariant forall j :: 0 <= j < i ==> clean[j] == (EscapeKey(tags[j].0), EscapeKey(TagValue(tags[j].1)))
    {
      var (k, v) := tags[i];
      var value := if v.None? then "unknown" else v.value;
      var key, text := EscapeKey(k), EscapeKey(value);
      assert text == EscapeKey(TagValue(tags[i].1));
      NewKey(tags, i);
      PutAppends(clean, key, text);
      clean := Put(clean, key, text);
    }
  }

  /** `escape_values`: the same for field keys. */
  method EscapeValues(values: Dict<Value>) returns (clean: Dict<Value>)
    requires DistinctKeys(values)
    ensures clean == CleanValues(values)
  {
    clean := [];
    for i := 0 to |values|
      invariant |clean| == i && forall j :: 0 <= j < i ==> clean[j] == (EscapeKey(values[j].0), values[j].1)
    {
      var (k, v) := values[i];
      NewKey(values, i);
      PutAppends(clean, EscapeKey(k), v);
      clean := Put(clean, EscapeKey(k), v);
    }
  }

  /** `build_metric_line` with the name in front, as `metric_to_influxdb` finishes it. */
  method BuildLine(line: Line) returns (text: string)
    requires DistinctKeys(line.tags) && DistinctKeys(line.values)
    ensures text == PrintLine(line)
  {
    var tags := EscapeTags(line.tags);
    var values := EscapeValues(line.values);
    var combined := Join(TagParts(tags)) + " " + Join(FieldParts(values)) + " " + line.time;
    text := EscapeName(line.name) + "," + combined + "\n";
  }

  lemma TextsConcat(a: seq<Line>, b: seq<Line>)
    ensures Texts(a + b) == Texts(a) + Texts(b)
  {
  }

  lemma MoveBracket<T>(a: seq<T>, x: T, b: seq<T>)
    ensures (a + [x]) + b == a + ([x] + b)
  {
  }

  /** The lines of the buckets that hold anything, each with its bound as tag "le". */
  method BucketTexts(name: string, tags: Tags, buckets: seq<(string, Dict<Value>)>, time: string)
    returns (texts: seq<string>)
    requires DistinctKeys(tags) && forall j :: 0 <= j < |buckets| ==> DistinctKeys(buckets[j].1)
    ensures texts == Texts(BucketLines(name, tags, buckets, time))
  {
    texts := [];
    ghost var all := BucketLines(name, tags, buckets, time);
    assert buckets[0..] == buckets;
    for j := 0 to |buckets|
      invariant texts + Texts(BucketLines(name, tags, buckets[j..], time)) == Texts(all)
    {
      var (upperbound, bucket) := buckets[j];
      assert buckets[j..][1..] == buckets[j + 1..];
      if bucket == [] { continue; }
      var bounded := Put(tags, "le", Some(upperbound));
      PutKeepsKeys(tags, "le", Some(upperbound));
      var text := BuildLine(Line(name, bounded, bucket, time));
      ghost var later := BucketLines(name, tags, buckets[j + 1..], time);
      TextsCons(Line(name, bounded, bucket, time), later);
      MoveBracket(texts, text, Texts(later));
      texts := texts + [text];
    }
    assert buckets[|buckets|..] == [] && Texts([]) == [];
  }

  lemma TextsSnoc(lines: seq<Line>, line: Line)
    ensures Texts(lines + [line]) == Texts(lines) + [PrintLine(line)]
  {
  }

  /** The histogram branch of `metric_to_influxdb` for one field. */
  method HistogramTexts(name: string, f: HistogramField, now: string) returns (texts: seq<string>)
    requires DistinctKeys(f.tags) && forall j :: 0 <= j < |f.buckets| ==> DistinctKeys(f.buckets[j].1)
    ensures texts == Texts(HistogramLines(name, f, now))
  {
    texts := [];
    if forall i :: 0 <= i < |f.buckets| ==> f.buckets[i].1 == [] { return; }
    var time := Timestamp(f.measuredAt, now);
    var sum := Line(name, f.tags, [("sum", f.sum)], time);
    var count := Line(name, f.tags, [("count", f.count)], time);
    texts := BucketTexts(name, f.tags, f.buckets, time);
    var sumText := BuildLine(sum);
    var countText := BuildLine(count);
    ghost var lines := BucketLines(name, f.tags, f.buckets, time);
    TextsSnoc(lines, sum);
    TextsSnoc(lines + [sum], count);
    texts := texts + [sumText] + [countText];
  }

  /** `metric_to_influxdb`. */
  method MetricToInfluxdb(m: Metric, now: string) returns (texts: seq<string>)
    requires WellFormed(m)
    ensures texts == Texts(MetricLines(m, now))
  {
    texts := [];
    match m
    case Histogram(name, fs) =>
      for i := 0 to |fs|
        invariant texts == Texts(AllHistogramLines(name, fs[..i], now))
      {
        var more := HistogramTexts(name, fs[i], now);
        assert fs[..i + 1][..i] == fs[..i];
        TextsConcat(AllHistogramLines(name, fs[..i], now), HistogramLines(name, fs[i], now));
        texts := texts + more;
      }
      assert fs[..|fs|] == fs;
    case Simple(name, fs) =>
      for i := 0 to |fs|
        invariant texts == Texts(AllSimpleLines(name, fs[..i], now))
      {
        assert fs[..i + 1][..i] == fs[..i];
        TextsConcat(AllSimpleLines(name, fs[..i], now), SimpleLines(name, fs[i], now));
        if fs[i].values != [] {
          var text := BuildLine(Line(name, fs[i].tags, fs[i].values, Timestamp(fs[i].measuredAt, now)));
          texts := texts + [text];
        }
      }
      assert fs[..|fs|] == fs;
  }

  /** The points that survive printing and reading. */
  predicate PrintablePoint(p: Point)
  {
    && ReadableName(p.name) && p.name[0] != '#' && p.tags != [] && ReadableTags(p.tags)
    && p.fields != [] && ReadableFields(p.fields)
  }

  predicate NumbersOkIn(p: Point)
  {
    NumberText(p.time) && forall i :: 0 <= i < |p.fields| ==> NumberOk(p.fields[i].1)
  }

  /** Given well-formed texts of numbers, the body is read as these points exactly when each of them is printable. */
  ghost predicate SaysExactly(body: string, points: seq<Point>)
  {
    (forall i :: 0 <= i < |points| ==> NumbersOkIn(points[i])) ==>
      (ReadBody(body) == Some(points) <==> forall i :: 0 <= i < |points| ==> PrintablePoint(points[i]))
  }

  /** The body of some lines says their points. */
  lemma BodySays(lines: seq<Line>)
    ensures SaysExactly(Concat(Texts(lines)), Points(lines))
  {
    var points := Points(lines);
    assert forall i :: 0 <= i < |lines| ==>
      (NumbersOkIn(points[i]) <==> NumbersOk(lines[i])) && (PrintablePoint(points[i]) <==> Printable(lines[i]));
    if forall i :: 0 <= i < |lines| ==> NumbersOk(lines[i]) { BodyRoundTrip(lines); }
  }

  /**
   `influxdb_format`: the body is read back as exactly the points of all records, none added, lost or changed,
   exactly when every point is printable.
   */
  method InfluxdbFormat(tree: seq<Metric>, now: string) returns (body: string)
    requires forall i :: 0 <= i < |tree| ==> WellFormed(tree[i])
    ensures exists ps, points ::
              AllSources(tree, ps) && PointsFrom(tree, ps, points, now) && SaysExactly(body, points)
  {
    var rb: seq<string> := [];
    for i := 0 to |tree|
      invariant rb == Texts(TreeLines(tree[..i], now))
    {
      var records := MetricToInfluxdb(tree[i], now);
      assert tree[..i + 1][..i] == tree[..i];
      TextsConcat(TreeLines(tree[..i], now), MetricLines(tree[i], now));
      rb := rb + records;
    }
    assert tree[..|tree|] == tree;
    body := Concat(rb);
    BodySays(TreeLines(tree, now));
    ghost var ps := PointsExactly(tree, now);
  }
}
