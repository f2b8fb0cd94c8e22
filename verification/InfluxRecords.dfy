/**
 Metric records: which lines a record gives, and which points those lines say.
 */
module InfluxRecords {
  import opened Wrappers
  import opened LineProtocol
  import opened Influx
  import opened Selections

  type Tags = Dict<Option<string>>
  type Bucket = (string, Dict<Value>)

  datatype SimpleField = SimpleField(tags: Tags, values: Dict<Value>, measuredAt: Option<string>)

  /** A histogram field: buckets by upper bound, each a dictionary of value names, and two totals. */
  datatype HistogramField = HistogramField(
    tags: Tags, buckets: seq<Bucket>, sum: Value, count: Value, measuredAt: Option<string>)

  datatype Metric =
    | Histogram(name: string, histograms: seq<HistogramField>)
    | Simple(name: string, fields: seq<SimpleField>)

  /* ------------------------------------------------------ lines of a record */

  function Timestamp(measuredAt: Option<string>, now: string): string
  {
    if measuredAt.Some? then measuredAt.value else now
  }

  function BucketLines(name: string, tags: Tags, buckets: seq<Bucket>, time: string): seq<Line>
  {
    if buckets == [] then []
    else
      (if buckets[0].1 == [] then [] else [Line(name, Put(tags, "le", Some(buckets[0].0)), buckets[0].1, time)])
      + BucketLines(name, tags, buckets[1..], time)
  }

  function HistogramLines(name: string, f: HistogramField, now: string): seq<Line>
  {
    var time := Timestamp(f.measuredAt, now);
    var lines := BucketLines(name, f.tags, f.buckets, time);
    if forall i :: 0 <= i < |f.buckets| ==> f.buckets[i].1 == [] then []
    else lines + [Line(name, f.tags, [("sum", f.sum)], time)] + [Line(name, f.tags, [("count", f.count)], time)]
  }

  function SimpleLines(name: string, f: SimpleField, now: string): seq<Line>
  {
    if f.values == [] then [] else [Line(name, f.tags, f.values, Timestamp(f.measuredAt, now))]
  }

  function AllHistogramLines(name: string, fs: seq<HistogramField>, now: string): seq<Line>
  {
    if fs == [] then [] else AllHistogramLines(name, fs[..|fs| - 1], now) + HistogramLines(name, fs[|fs| - 1], now)
  }

  function AllSimpleLines(name: string, fs: seq<SimpleField>, now: string): seq<Line>
  {
    if fs == [] then [] else AllSimpleLines(name, fs[..|fs| - 1], now) + SimpleLines(name, fs[|fs| - 1], now)
  }

  function MetricLines(m: Metric, now: string): seq<Line>
  {
    match m
    case Histogram(name, fs) => AllHistogramLines(name, fs, now)
    case Simple(name, fs) => AllSimpleLines(name, fs, now)
  }

  function TreeLines(tree: seq<Metric>, now: string): seq<Line>
  {
    if tree == [] then [] else TreeLines(tree[..|tree| - 1], now) + MetricLines(tree[|tree| - 1], now)
  }

  function Points(lines: seq<Line>): seq<Point>
  {
    seq(|lines|, i requires 0 <= i < |lines| => PointOf(lines[i]))
  }

  /** Dictionaries have distinct keys. */
  predicate WellFormed(m: Metric)
  {
    match m
    case Histogram(_, fs) =>
      forall i :: 0 <= i < |fs| ==>
        DistinctKeys(fs[i].tags) && forall j :: 0 <= j < |fs[i].buckets| ==> DistinctKeys(fs[i].buckets[j].1)
    case Simple(_, fs) => forall i :: 0 <= i < |fs| ==> DistinctKeys(fs[i].tags) && DistinctKeys(fs[i].values)
  }

  lemma PointsCons(line: Line, more: seq<Line>)
    ensures Points([line] + more) == [PointOf(line)] + Points(more)
  {
  }

  /* --------------------------------------------------- where points come from */

  /**
   A point comes from a field of a record: from a bucket of a histogram, its sum or its count, which are numbered
   after the buckets; or from the field as a whole.
   */
  datatype Source = Source(record: nat, field: nat, part: nat)

  predicate Earlier(p: Source, q: Source)
  {
    p.record < q.record || (p.record == q.record && (p.field < q.field || (p.field == q.field && p.part < q.part)))
  }

  /** Empty buckets give nothing, and neither does a field without any value. */
  ghost predicate Emits(tree: seq<Metric>, p: Source)
  {
    p.record < |tree| &&
    match tree[p.record]
    case Histogram(_, fs) =>
      && p.field < |fs| && p.part < |fs[p.field].buckets| + 2
      && (p.part < |fs[p.field].buckets| ==> fs[p.field].buckets[p.part].1 != [])
      && exists j :: 0 <= j < |fs[p.field].buckets| && fs[p.field].buckets[j].1 != []
    case Simple(_, fs) => p.field < |fs| && p.part == 0 && fs[p.field].values != []
  }

  /** What the point says, with the tags that are shown and the time of the measurement, or else the present time. */
  ghost function PointFrom(tree: seq<Metric>, p: Source, now: string): Point
    requires Emits(tree, p)
  {
    match tree[p.record]
    case Histogram(name, fs) =>
      var f := fs[p.field];
      var time := match f.measuredAt case Some(t) => t case None => now;
      var n := |f.buckets|;
      if p.part == n then Point(name, Shown(f.tags), [("sum", f.sum)], time)
      else if p.part == n + 1 then Point(name, Shown(f.tags), [("count", f.count)], time)
      else
        var (bound, values) := f.buckets[p.part];
        Point(name, Shown(Put(f.tags, "le", Some(bound))), values, time)
    case Simple(name, fs) =>
      var f := fs[p.field];
      Point(name, Shown(f.tags), f.values, match f.measuredAt case Some(t) => t case None => now)
  }

  /** The sources in order: those of the records before `r`, and of the first `f` fields of record `r`. */
  ghost predicate SourcesUpTo(tree: seq<Metric>, ps: seq<Source>, r: nat, f: nat)
  {
    && (forall i, j :: 0 <= i < j < |ps| ==> Earlier(ps[i], ps[j]))
    && (forall p :: p in ps <==> Emits(tree, p) && (p.record < r || (p.record == r && p.field < f)))
  }

  /** The points are those of the sources, one each, in the same order. */
  ghost predicate PointsFrom(tree: seq<Metric>, ps: seq<Source>, points: seq<Point>, now: string)
  {
    |points| == |ps| && forall i :: 0 <= i < |ps| ==> Emits(tree, ps[i]) && points[i] == PointFrom(tree, ps[i], now)
  }

  /** The buckets that hold anything. */
  ghost function Filled(buckets: seq<Bucket>): set<nat>
  {
    set k: nat | k < |buckets| && buckets[k].1 != []
  }

  ghost function BucketPoint(name: string, tags: Tags, bucket: Bucket, time: string): Point
  {
    Point(name, Shown(Put(tags, "le", Some(bucket.0))), bucket.1, time)
  }

  lemma FilledCons(bucket: Bucket, buckets: seq<Bucket>, later: set<nat>)
    requires later == set k | k in Filled(buckets) :: k + 1
    ensures Filled([bucket] + buckets) == if bucket.1 != [] then {0} + later else later
  {
    var all := [bucket] + buckets;
    forall n: nat | n > 0 ensures n in later <==> n in Filled(all) {
      assert n < |all| ==> all[n] == buckets[n - 1];
      assert n in later <==> n - 1 in Filled(buckets);
    }
  }

  /** The lines say the buckets at the positions `ks`. */
  ghost predicate SayBuckets(name: string, tags: Tags, buckets: seq<Bucket>, time: string, lines: seq<Line>,
                             ks: seq<nat>)
  {
    |lines| == |ks| && forall i :: 0 <= i < |ks| ==>
      ks[i] < |buckets| && PointOf(lines[i]) == BucketPoint(name, tags, buckets[ks[i]], time)
  }

  lemma SayTail(name: string, tags: Tags, bucket: Bucket, buckets: seq<Bucket>, time: string, lines: seq<Line>,
                ks: seq<nat>)
    requires SayBuckets(name, tags, buckets, time, lines, ks)
    ensures SayBuckets(name, tags, [bucket] + buckets, time, lines, Shifted(ks))
    ensures SayBuckets(name, tags, [bucket] + buckets, time,
                       [Line(name, Put(tags, "le", Some(bucket.0)), bucket.1, time)] + lines, [0] + Shifted(ks))
  {
  }

  lemma BucketLinesCons(name: string, tags: Tags, bucket: Bucket, buckets: seq<Bucket>, time: string)
    ensures BucketLines(name, tags, [bucket] + buckets, time) ==
            if bucket.1 == [] then BucketLines(name, tags, buckets, time)
            else [Line(name, Put(tags, "le", Some(bucket.0)), bucket.1, time)] + BucketLines(name, tags, buckets, time)
  {
    assert ([bucket] + buckets)[1..] == buckets;
  }

  /** The positions after one more bucket in front. */
  function BucketKeys(bucket: Bucket, ks: seq<nat>): seq<nat>
  {
    if bucket.1 == [] then Shifted(ks) else [0] + Shifted(ks)
  }

  lemma BucketStep(name: string, tags: Tags, bucket: Bucket, buckets: seq<Bucket>, time: string, ks: seq<nat>)
    requires Enumerates(ks, Filled(buckets))
    requires SayBuckets(name, tags, buckets, time, BucketLines(name, tags, buckets, time), ks)
    ensures Enumerates(BucketKeys(bucket, ks), Filled([bucket] + buckets))
    ensures SayBuckets(name, tags, [bucket] + buckets, time, BucketLines(name, tags, [bucket] + buckets, time),
                       BucketKeys(bucket, ks))
  {
    EnumeratesCons(ks, Filled(buckets), bucket.1 != []);
    FilledCons(bucket, buckets, set k | k in Filled(buckets) :: k + 1);
    SayTail(name, tags, bucket, buckets, time, BucketLines(name, tags, buckets, time), ks);
    BucketLinesCons(name, tags, bucket, buckets, time);
  }

  /** The points of the filled buckets, in order. */
  lemma {:induction false} BucketPoints(name: string, tags: Tags, buckets: seq<Bucket>, time: string)
    returns (ks: seq<nat>)
    ensures Enumerates(ks, Filled(buckets))
    ensures SayBuckets(name, tags, buckets, time, BucketLines(name, tags, buckets, time), ks)
  {
    if buckets == [] {
      ks := [];
    } else {
      var more := BucketPoints(name, tags, buckets[1..], time);
      BucketStep(name, tags, buckets[0], buckets[1..], time, more);
      assert buckets == [buckets[0]] + buckets[1..];
      ks := BucketKeys(buckets[0], more);
    }
  }

  lemma HistogramPoints(tree: seq<Metric>, r: nat, f: nat, now: string) returns (ks: seq<nat>)
    requires r < |tree| && tree[r].Histogram? && f < |tree[r].histograms|
    ensures Enumerates(ks, Emitted(tree, r, f))
    ensures PointsFrom(tree, At(r, f, ks), Points(HistogramLines(tree[r].name, tree[r].histograms[f], now)), now)
  {
    var field := tree[r].histograms[f];
    var n, time := |field.buckets|, Timestamp(field.measuredAt, now);
    if forall j :: 0 <= j < n ==> field.buckets[j].1 == [] {
      ks := [];
    } else {
      var filled := BucketPoints(tree[r].name, field.tags, field.buckets, time);
      EnumeratesNext(filled, Filled(field.buckets), n);
      EnumeratesNext(filled + [n], Filled(field.buckets) + {n}, n + 1);
      ks := filled + [n] + [n + 1];
      assert forall k: nat :: k < n + 2 ==> (Emits(tree, Source(r, f, k)) <==> k >= n || k in Filled(field.buckets));
      assert Emitted(tree, r, f) == Filled(field.buckets) + {n} + {n + 1};
      HistogramSources(tree, r, f, filled, ks, now);
    }
  }

  lemma HistogramSources(tree: seq<Metric>, r: nat, f: nat, filled: seq<nat>, ks: seq<nat>, now: string)
    requires r < |tree| && tree[r].Histogram? && f < |tree[r].histograms|
    requires var field := tree[r].histograms[f];
             var n := |field.buckets|;
             var lines := BucketLines(tree[r].name, field.tags, field.buckets, Timestamp(field.measuredAt, now));
             && ks == filled + [n] + [n + 1] && Enumerates(ks, Emitted(tree, r, f))
             && (exists j :: 0 <= j < n && field.buckets[j].1 != [])
             && SayBuckets(tree[r].name, field.tags, field.buckets, Timestamp(field.measuredAt, now), lines, filled)
    ensures PointsFrom(tree, At(r, f, ks), Points(HistogramLines(tree[r].name, tree[r].histograms[f], now)), now)
  {
    var ps := At(r, f, ks);
    forall i | 0 <= i < |ks| ensures Emits(tree, ps[i]) {
      assert ks[i] in ks;
    }
  }

  function At(r: nat, f: nat, ks: seq<nat>): seq<Source>
  {
    seq(|ks|, i requires 0 <= i < |ks| => Source(r, f, ks[i]))
  }

  /** The parts of a field that give a point. */
  ghost function Emitted(tree: seq<Metric>, r: nat, f: nat): set<nat>
    requires r < |tree| && f < FieldCount(tree[r])
  {
    set k: nat | k < PartCount(tree[r], f) && Emits(tree, Source(r, f, k))
  }

  /** Those sources of a field that it emits. */
  lemma FieldPoints(tree: seq<Metric>, r: nat, f: nat, now: string) returns (ks: seq<nat>)
    requires r < |tree| && f < FieldCount(tree[r])
    ensures Enumerates(ks, Emitted(tree, r, f))
    ensures PointsFrom(tree, At(r, f, ks), Points(FieldLines(tree[r], f, now)), now)
  {
    match tree[r]
    case Simple(_, fs) => ks := if fs[f].values == [] then [] else [0];
    case Histogram(_, _) => ks := HistogramPoints(tree, r, f, now);
  }

  function FieldCount(m: Metric): nat
  {
    match m
    case Histogram(_, fs) => |fs|
    case Simple(_, fs) => |fs|
  }

  function PartCount(m: Metric, f: nat): nat
    requires f < FieldCount(m)
  {
    match m
    case Histogram(_, fs) => |fs[f].buckets| + 2
    case Simple(_, _) => 1
  }

  function FieldLines(m: Metric, f: nat, now: string): seq<Line>
    requires f < FieldCount(m)
  {
    match m
    case Histogram(name, fs) => HistogramLines(name, fs[f], now)
    case Simple(name, fs) => SimpleLines(name, fs[f], now)
  }

  /** The lines of the first `f` fields. */
  function LinesUpTo(m: Metric, f: nat, now: string): seq<Line>
    requires f <= FieldCount(m)
  {
    match m
    case Histogram(name, fs) => AllHistogramLines(name, fs[..f], now)
    case Simple(name, fs) => AllSimpleLines(name, fs[..f], now)
  }

  lemma MoveLines(a: seq<Line>, b: seq<Line>, c: seq<Line>)
    ensures (a + b) + c == a + (b + c)
  {
  }

  lemma MorePoints(tree: seq<Metric>, before: seq<Source>, lines: seq<Line>, added: seq<Source>, more: seq<Line>,
                   now: string)
    requires PointsFrom(tree, before, Points(lines), now) && PointsFrom(tree, added, Points(more), now)
    ensures PointsFrom(tree, before + added, Points(lines + more), now)
  {
    assert Points(lines + more) == Points(lines) + Points(more);
  }

  /** One more field. */
  lemma AddField(tree: seq<Metric>, r: nat, f: nat, now: string, before: seq<Source>, lines: seq<Line>)
    returns (ps: seq<Source>)
    requires r < |tree| && f < FieldCount(tree[r])
    requires SaySources(tree, before, r, f, lines, now)
    ensures SaySources(tree, ps, r, f + 1, lines + FieldLines(tree[r], f, now), now)
  {
    var ks := FieldPoints(tree, r, f, now);
    var added := At(r, f, ks);
    ps := before + added;
    MorePoints(tree, before, lines, added, FieldLines(tree[r], f, now), now);
    AddedInOrder(tree, r, f, ks, before, added);
  }

  lemma AddedInOrder(tree: seq<Metric>, r: nat, f: nat, ks: seq<nat>, before: seq<Source>, added: seq<Source>)
    requires r < |tree| && f < FieldCount(tree[r]) && SourcesUpTo(tree, before, r, f)
    requires Enumerates(ks, Emitted(tree, r, f))
    requires |added| == |ks| && forall i :: 0 <= i < |ks| ==> added[i] == Source(r, f, ks[i])
    ensures SourcesUpTo(tree, before + added, r, f + 1)
  {
    var ps := before + added;
    forall i, j | 0 <= i < |before| && 0 <= j < |added| ensures Earlier(before[i], added[j]) {
      assert before[i] in before;
    }
    forall p ensures p in added <==> Emits(tree, p) && p.record == r && p.field == f {
      if p in added {
        var i :| 0 <= i < |added| && added[i] == p;
        assert ks[i] in ks;
      }
      if Emits(tree, p) && p.record == r && p.field == f {
        assert p.part in ks;
        var i :| 0 <= i < |ks| && ks[i] == p.part;
        assert added[i] == p;
      }
    }
  }

  lemma NextHistogram(name: string, fs: seq<HistogramField>, f: nat, now: string)
    requires f < |fs|
    ensures AllHistogramLines(name, fs[..f + 1], now) ==
            AllHistogramLines(name, fs[..f], now) + HistogramLines(name, fs[f], now)
  {
    var front := fs[..f + 1];
    assert front[..|front| - 1] == fs[..f] && front[|front| - 1] == fs[f];
  }

  lemma NextSimple(name: string, fs: seq<SimpleField>, f: nat, now: string)
    requires f < |fs|
    ensures AllSimpleLines(name, fs[..f + 1], now) == AllSimpleLines(name, fs[..f], now) + SimpleLines(name, fs[f], now)
  {
    var front := fs[..f + 1];
    assert front[..|front| - 1] == fs[..f] && front[|front| - 1] == fs[f];
  }

  lemma NextFieldLines(m: Metric, f: nat, now: string)
    requires f < FieldCount(m)
    ensures LinesUpTo(m, f + 1, now) == LinesUpTo(m, f, now) + FieldLines(m, f, now)
  {
    match m
    case Histogram(name, fs) => NextHistogram(name, fs, f, now);
    case Simple(name, fs) => NextSimple(name, fs, f, now);
  }

  lemma LinesOfRecord(tree: seq<Metric>, r: nat, now: string)
    requires r < |tree|
    ensures TreeLines(tree[..r], now) + LinesUpTo(tree[r], FieldCount(tree[r]), now) == TreeLines(tree[..r + 1], now)
  {
    var front := tree[..r + 1];
    assert front[..|front| - 1] == tree[..r] && front[|front| - 1] == tree[r];
    match tree[r]
    case Histogram(_, fs) => assert fs[..|fs|] == fs;
    case Simple(_, fs) => assert fs[..|fs|] == fs;
  }

  /** The lines say the points of the sources so far. */
  ghost predicate SaySources(tree: seq<Metric>, ps: seq<Source>, r: nat, f: nat, lines: seq<Line>, now: string)
  {
    SourcesUpTo(tree, ps, r, f) && PointsFrom(tree, ps, Points(lines), now)
  }

  lemma NextRecord(tree: seq<Metric>, ps: seq<Source>, r: nat, lines: seq<Line>, now: string)
    requires r < |tree| && SaySources(tree, ps, r, FieldCount(tree[r]), lines, now)
    ensures SaySources(tree, ps, r + 1, 0, lines, now)
  {
    assert forall p :: Emits(tree, p) && p.record == r ==> p.field < FieldCount(tree[r]);
  }

  /** The lines are those of the records before `r` and of the first `f` fields of record `r`, and say their points. */
  ghost predicate SayRecord(tree: seq<Metric>, r: nat, f: nat, now: string, ps: seq<Source>, lines: seq<Line>)
    requires r < |tree| && f <= FieldCount(tree[r])
  {
    SaySources(tree, ps, r, f, lines, now) && lines == TreeLines(tree[..r], now) + LinesUpTo(tree[r], f, now)
  }

  lemma NextField(tree: seq<Metric>, r: nat, f: nat, now: string, before: seq<Source>, lines0: seq<Line>)
    returns (ps: seq<Source>, lines: seq<Line>)
    requires r < |tree| && f < FieldCount(tree[r]) && SayRecord(tree, r, f, now, before, lines0)
    ensures SayRecord(tree, r, f + 1, now, ps, lines)
  {
    ps := AddField(tree, r, f, now, before, lines0);
    NextFieldLines(tree[r], f, now);
    MoveLines(TreeLines(tree[..r], now), LinesUpTo(tree[r], f, now), FieldLines(tree[r], f, now));
    lines := lines0 + FieldLines(tree[r], f, now);
  }

  lemma RecordPoints(tree: seq<Metric>, r: nat, f: nat, now: string, start: seq<Source>,
                     before: seq<Line>)
    returns (ps: seq<Source>, lines: seq<Line>)
    requires r < |tree| && f <= FieldCount(tree[r]) && SayRecord(tree, r, 0, now, start, before)
    ensures SayRecord(tree, r, f, now, ps, lines)
  {
    ps, lines := start, before;
    for k := 0 to f
      invariant SayRecord(tree, r, k, now, ps, lines)
    {
      ps, lines := NextField(tree, r, k, now, ps, lines);
    }
  }

  lemma NoFields(m: Metric, before: seq<Line>, now: string)
    ensures before + LinesUpTo(m, 0, now) == before
  {
    assert LinesUpTo(m, 0, now) == [];
  }

  lemma {:induction false} RecordsPoints(tree: seq<Metric>, r: nat, now: string) returns (ps: seq<Source>)
    requires r <= |tree|
    ensures SaySources(tree, ps, r, 0, TreeLines(tree[..r], now), now)
    decreases r
  {
    if r == 0 {
      ps := [];
    } else {
      var start := RecordsPoints(tree, r - 1, now);
      NoFields(tree[r - 1], TreeLines(tree[..r - 1], now), now);
      var lines;
      ps, lines := RecordPoints(tree, r - 1, FieldCount(tree[r - 1]), now, start, TreeLines(tree[..r - 1], now));
      LinesOfRecord(tree, r - 1, now);
      NextRecord(tree, ps, r - 1, lines, now);
    }
  }

  /** All sources of the records, in order. */
  ghost predicate AllSources(tree: seq<Metric>, ps: seq<Source>)
  {
    && (forall i, j :: 0 <= i < j < |ps| ==> Earlier(ps[i], ps[j]))
    && (forall p :: p in ps <==> Emits(tree, p))
  }

  /**
   In terms of the records alone: the lines say one point for each filled bucket, sum and count of a histogram field
   that holds anything and for each other field that holds anything, in that order, and no others.
   */
  lemma PointsExactly(tree: seq<Metric>, now: string) returns (ps: seq<Source>)
    ensures AllSources(tree, ps) && PointsFrom(tree, ps, Points(TreeLines(tree, now)), now)
  {
    ps := RecordsPoints(tree, |tree|, now);
    assert tree[..|tree|] == tree;
  }
}
