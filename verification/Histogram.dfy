/**
 A cumulative histogram: buckets of counters by value name, filled by `set` and closed by `flush`.

 The dictionaries are objects here, because `flush` hands the live one over to the exporters.
 */
module Histogram {
  import opened Wrappers

  type ValueName(==, !new)

  datatype Bound = Fin(limit: real) | Inf

  datatype Entry = Entry(name: ValueName, value: real)

  type Tally = map<ValueName, nat>

  /** What a histogram dictionary holds; the buckets in the order of their bounds. */
  datatype Contents = Contents(buckets: seq<Tally>, sum: real, count: nat)

  predicate AtMost(value: real, bound: Bound)
  {
    bound.Inf? || value <= bound.limit
  }

  predicate Below(a: Bound, b: Bound)
  {
    a != b && (b.Inf? || (a.Fin? && a.limit < b.limit))
  }

  /** Bounds are ordered as numbers, with infinity last. */
  lemma BelowExactly(a: Bound, b: Bound)
    ensures Below(a, b) <==> a.Fin? && (b.Inf? || a.limit < b.limit)
  {
  }

  predicate Increasing(bounds: seq<Bound>)
  {
    forall i, j :: 0 <= i < j < |bounds| ==> Below(bounds[i], bounds[j])
  }

  predicate Sorted(bounds: seq<Bound>)
  {
    forall i, j :: 0 <= i < j < |bounds| ==> !Below(bounds[j], bounds[i])
  }

  /* --------------------------------------------------------- the recording */

  function Bump(t: Tally, name: ValueName): Tally
  {
    t[name := if name in t then t[name] + 1 else 1]
  }

  /** One bucket after a log of recorded values. */
  function BucketOf(bound: Bound, log: seq<Entry>): Tally
  {
    if log == [] then map[]
    else
      var before, e := BucketOf(bound, log[..|log| - 1]), log[|log| - 1];
      if AtMost(e.value, bound) then Bump(before, e.name) else before
  }

  function SumOf(log: seq<Entry>): real
  {
    if log == [] then 0.0 else SumOf(log[..|log| - 1]) + log[|log| - 1].value
  }

  function HistogramOf(bounds: seq<Bound>, log: seq<Entry>): Contents
  {
    Contents(seq(|bounds|, k requires 0 <= k < |bounds| => BucketOf(bounds[k], log)), SumOf(log), |log|)
  }

  lemma RecordOne(bounds: seq<Bound>, log: seq<Entry>, e: Entry)
    ensures SumOf(log + [e]) == SumOf(log) + e.value
    ensures forall k :: 0 <= k < |bounds| ==>
      BucketOf(bounds[k], log + [e]) ==
      if AtMost(e.value, bounds[k]) then Bump(BucketOf(bounds[k], log), e.name) else BucketOf(bounds[k], log)
  {
    assert (log + [e])[..|log|] == log;
  }

  /* ------------------------------------------------------ what buckets mean */

  /** The recorded values of a name that do not exceed the bound, by their position in the log. */
  ghost function Hits(bound: Bound, log: seq<Entry>, name: ValueName): set<nat>
  {
    set i: nat | i < |log| && log[i].name == name && (bound.Inf? || log[i].value <= bound.limit)
  }

  lemma HitsNext(bound: Bound, log: seq<Entry>, e: Entry, name: ValueName)
    ensures Hits(bound, log + [e], name) ==
            if e.name == name && AtMost(e.value, bound) then Hits(bound, log, name) + {|log|}
            else Hits(bound, log, name)
    ensures |log| !in Hits(bound, log, name)
  {
    var more := log + [e];
    forall i: nat | i < |more|
      ensures i in Hits(bound, more, name) <==>
              if i < |log| then i in Hits(bound, log, name) else e.name == name && AtMost(e.value, bound)
    {
      assert more[i] == if i < |log| then log[i] else e;
    }
  }

  /** A bucket counts, name by name, the values recorded at or below its bound. */
  lemma {:induction false} BucketCounts(bound: Bound, log: seq<Entry>, name: ValueName)
    ensures (name in BucketOf(bound, log) <==> Hits(bound, log, name) != {})
    ensures name in BucketOf(bound, log) ==> BucketOf(bound, log)[name] == |Hits(bound, log, name)|
  {
    if log != [] {
      var front, e := log[..|log| - 1], log[|log| - 1];
      BucketCounts(bound, front, name);
      HitsNext(bound, front, e, name);
      assert log == front + [e];
      ghost var hits := Hits(bound, front, name);
      assert |hits + {|front|}| == |hits| + 1;
    }
  }

  /** The sum is made of the recorded values, one by one. */
  lemma {:induction false} SumAdds(a: seq<Entry>, b: seq<Entry>, e: Entry)
    ensures SumOf([e]) == e.value && SumOf(a + b) == SumOf(a) + SumOf(b)
  {
    assert [e][..0] == [];
    if b == [] {
      assert a + b == a;
    } else {
      SumAdds(a, b[..|b| - 1], e);
      assert (a + b)[..|a + b| - 1] == a + b[..|b| - 1];
    }
  }

  lemma NewName(bound: Bound, log: seq<Entry>, name: ValueName)
    requires forall i :: 0 <= i < |log| ==> log[i].name != name
    ensures name !in BucketOf(bound, log)
  {
    BucketCounts(bound, log, name);
  }

  lemma SubsetIsSmaller<T>(a: set<T>, b: set<T>)
    requires a <= b
    ensures |a| <= |b|
  {
    assert b == a + (b - a);
  }

  /** Counts never decrease from one bucket to a later one. */
  lemma BucketsAreCumulative(bounds: seq<Bound>, log: seq<Entry>, i: nat, j: nat, name: ValueName)
    requires Increasing(bounds) && i < j < |bounds|
    ensures var b := HistogramOf(bounds, log).buckets;
            name in b[i] ==> name in b[j] && b[i][name] <= b[j][name]
  {
    BucketCounts(bounds[i], log, name);
    BucketCounts(bounds[j], log, name);
    assert Below(bounds[i], bounds[j]);
    assert Hits(bounds[i], log, name) <= Hits(bounds[j], log, name);
    SubsetIsSmaller(Hits(bounds[i], log, name), Hits(bounds[j], log, name));
  }

  ghost function Total(t: Tally): nat
  {
    if t == map[] then 0
    else
      var name :| name in t;
      t[name] + Total(t - {name})
  }

  lemma {:induction false} TotalWithout(t: Tally, name: ValueName)
    requires name in t
    ensures Total(t) == t[name] + Total(t - {name})
    decreases |t|
  {
    var first :| first in t && Total(t) == t[first] + Total(t - {first});
    if first != name {
      TotalWithout(t - {first}, name);
      TotalWithout(t - {name}, first);
      assert t - {first} - {name} == t - {name} - {first};
    }
  }

  lemma TotalOfBump(t: Tally, name: ValueName)
    ensures Total(Bump(t, name)) == Total(t) + 1
  {
    TotalWithout(Bump(t, name), name);
    assert Bump(t, name) - {name} == t - {name};
    if name in t {
      TotalWithout(t, name);
    } else {
      assert t - {name} == t;
    }
  }

  lemma {:induction false} InfinityBucketHoldsAll(log: seq<Entry>)
    ensures Total(BucketOf(Inf, log)) == |log|
  {
    if log != [] {
      InfinityBucketHoldsAll(log[..|log| - 1]);
      TotalOfBump(BucketOf(Inf, log[..|log| - 1]), log[|log| - 1].name);
    }
  }

  /** The infinity bucket, summed over the names, is the count, which is the number of recorded values. */
  lemma InfinityBucketIsCount(bounds: seq<Bound>, log: seq<Entry>)
    requires bounds != [] && bounds[|bounds| - 1] == Inf
    ensures var h := HistogramOf(bounds, log); Total(h.buckets[|bounds| - 1]) == h.count == |log|
  {
    InfinityBucketHoldsAll(log);
  }

  /* ------------------------------------------------------------- the bounds */

  lemma SortedNext(bounds: seq<Bound>, i: nat)
    requires i < |bounds| && Sorted(bounds[..i]) && (i > 0 ==> !Below(bounds[i], bounds[i - 1]))
    ensures Sorted(bounds[..i + 1])
  {
    forall j | 0 <= j < i ensures !Below(bounds[i], bounds[j]) {
      assert bounds[..i][j] == bounds[j] && bounds[..i][i - 1] == bounds[i - 1];
    }
    assert bounds[..i + 1] == bounds[..i] + [bounds[i]];
  }

  lemma AppendBound(keys: seq<Bound>, b: Bound)
    requires Increasing(keys) && b !in keys && (keys != [] ==> !Below(b, keys[|keys| - 1]))
    ensures Increasing(keys + [b])
  {
    var k := |keys|;
    assert forall j :: 0 <= j < k - 1 ==> Below(keys[j], keys[k - 1]);
    assert keys != [] ==> keys[k - 1] != b;
  }

  /** The keys of a dictionary filled from sorted bounds. */
  method WithoutRepeats(all: seq<Bound>) returns (keys: seq<Bound>)
    requires Sorted(all)
    ensures Increasing(keys) && forall b :: b in keys <==> b in all
    ensures (all == [] <==> keys == []) && (all != [] ==> keys[|keys| - 1] == all[|all| - 1])
  {
    keys := [];
    for i := 0 to |all|
      invariant Increasing(keys) && forall b :: b in keys <==> b in all[..i]
      invariant (i == 0 <==> keys == []) && (i > 0 ==> keys[|keys| - 1] == all[i - 1])
    {
      assert all[..i + 1] == all[..i] + [all[i]];
      if all[i] !in keys {
        AppendBound(keys, all[i]);
        keys := keys + [all[i]];
      }
    }
    assert all[..|all|] == all;
  }

  /** The keys of the bucket dictionary, or an error. */
  method MakeBounds(buckets: seq<Bound>) returns (r: Option<seq<Bound>>)
    ensures r.Some? <==> Sorted(buckets) && buckets != [] && buckets != [Inf]
    ensures r.Some? ==>
      Increasing(r.value) && |r.value| >= 1 && r.value[|r.value| - 1] == Inf &&
      forall b :: b in r.value <==> b in buckets || b == Inf
  {
    for i := 0 to |buckets|
      invariant Sorted(buckets[..i])
    {
      if i > 0 && Below(buckets[i], buckets[i - 1]) { return None; }
      SortedNext(buckets, i);
    }
    assert buckets[..|buckets|] == buckets;
    var all := if buckets != [] && buckets[|buckets| - 1] != Inf then buckets + [Inf] else buckets;
    if |all| < 2 { return None; }
    assert Sorted(all);
    var keys := WithoutRepeats(all);
    r := Some(keys);
  }

  /* ------------------------------------------------------------- the object */

  class Counts {
    var tally: Tally

    constructor (tally: Tally)
      ensures this.tally == tally
    {
      this.tally := tally;
    }
  }

  /** The dictionary `{"buckets": ..., "sum": ..., "count": ...}`. */
  class Hist {
    const buckets: seq<Counts>
    var sum: real
    var count: nat

    constructor (buckets: seq<Counts>, sum: real, count: nat)
      ensures this.buckets == buckets && this.sum == sum && this.count == count
    {
      this.buckets, this.sum, this.count := buckets, sum, count;
    }

    ghost function Repr(): set<object>
    {
      {this} + (set b: Counts | b in buckets)
    }

    ghost predicate Valid()
    {
      forall i, j :: 0 <= i < j < |buckets| ==> buckets[i] != buckets[j]
    }

    ghost predicate Holds(c: Contents)
      reads this, buckets
    {
      && |buckets| == |c.buckets| && sum == c.sum && count == c.count
      && forall k :: 0 <= k < |buckets| ==> buckets[k].tally == c.buckets[k]
    }

    /** `copy.deepcopy`: equal contents in new objects. */
    method DeepCopy(ghost c: Contents) returns (copied: Hist)
      requires Valid() && Holds(c)
      ensures copied.Valid() && fresh(copied.Repr()) && copied.Holds(c)
    {
      var bs: seq<Counts> := [];
      for k := 0 to |buckets|
        invariant |bs| == k && fresh(set b | b in bs)
        invariant forall i, j :: 0 <= i < j < k ==> bs[i] != bs[j]
        invariant forall i :: 0 <= i < k ==> bs[i].tally == c.buckets[i]
      {
        var b := new Counts(buckets[k].tally);
        bs := bs + [b];
      }
      copied := new Hist(bs, sum, count);
    }

    /** Sets the count of a new name to one in all buckets whose bound the value does not exceed. */
    method SetOnes(bounds: seq<Bound>, e: Entry, ghost log: seq<Entry>)
      requires Valid() && |buckets| == |bounds|
      requires forall k :: 0 <= k < |bounds| ==>
               buckets[k].tally == BucketOf(bounds[k], log) && e.name !in buckets[k].tally
      modifies buckets
      ensures forall k :: 0 <= k < |bounds| ==> buckets[k].tally == BucketOf(bounds[k], log + [e])
    {
      RecordOne(bounds, log, e);
      for k := 0 to |bounds|
        invariant forall j :: 0 <= j < k ==> buckets[j].tally == BucketOf(bounds[j], log + [e])
        invariant forall j :: k <= j < |bounds| ==>
                  buckets[j].tally == BucketOf(bounds[j], log) && e.name !in buckets[j].tally
      {
        if AtMost(e.value, bounds[k]) {
          buckets[k].tally := buckets[k].tally[e.name := 1];
        }
      }
    }

    /** Records the first value of a name. */
    method RecordInitial(bounds: seq<Bound>, e: Entry, ghost log: seq<Entry>)
      requires Valid() && |buckets| == |bounds| && Holds(HistogramOf(bounds, log))
      requires forall k :: 0 <= k < |bounds| ==> e.name !in BucketOf(bounds[k], log)
      modifies Repr()
      ensures Holds(HistogramOf(bounds, log + [e]))
    {
      var summed, counted := sum + e.value, count + 1;
      RecordOne(bounds, log, e);
      assert summed == HistogramOf(bounds, log + [e]).sum;
      SetOnes(bounds, e, log);
      sum, count := summed, counted;
    }

    /** Counts a name up in all buckets whose bound the value does not exceed. */
    method CountUp(bounds: seq<Bound>, e: Entry, ghost log: seq<Entry>)
      requires Valid() && |buckets| == |bounds|
      requires forall k :: 0 <= k < |bounds| ==> buckets[k].tally == BucketOf(bounds[k], log)
      modifies buckets
      ensures forall k :: 0 <= k < |bounds| ==> buckets[k].tally == BucketOf(bounds[k], log + [e])
    {
      RecordOne(bounds, log, e);
      for k := 0 to |bounds|
        invariant forall j :: 0 <= j < k ==> buckets[j].tally == BucketOf(bounds[j], log + [e])
        invariant forall j :: k <= j < |bounds| ==> buckets[j].tally == BucketOf(bounds[j], log)
      {
        if AtMost(e.value, bounds[k]) {
          var b := buckets[k];
          if e.name !in b.tally {
            b.tally := b.tally[e.name := 1];
          } else {
            b.tally := b.tally[e.name := b.tally[e.name] + 1];
          }
        }
      }
    }

    /** Records a value. */
    method Record(bounds: seq<Bound>, e: Entry, ghost log: seq<Entry>)
      requires Valid() && |buckets| == |bounds| && Holds(HistogramOf(bounds, log))
      modifies Repr()
      ensures Holds(HistogramOf(bounds, log + [e]))
    {
      var summary, counted := sum, count;
      RecordOne(bounds, log, e);
      CountUp(bounds, e, log);
      sum := summary + e.value;
      count := counted + 1;
    }
  }

  /** The initial histogram: every initial value is recorded once. */
  method InitHistogram(bounds: seq<Bound>, inits: seq<Entry>) returns (h: Hist)
    requires forall i, j :: 0 <= i < j < |inits| ==> inits[i].name != inits[j].name
    ensures h.Valid() && fresh(h.Repr()) && h.Holds(HistogramOf(bounds, inits))
  {
    var bs: seq<Counts> := [];
    for k := 0 to |bounds|
      invariant |bs| == k && fresh(set b | b in bs)
      invariant forall i, j :: 0 <= i < j < k ==> bs[i] != bs[j]
      invariant forall i :: 0 <= i < k ==> bs[i].tally == map[]
    {
      var b := new Counts(map[]);
      bs := bs + [b];
    }
    h := new Hist(bs, 0.0, 0);
    for i := 0 to |inits|
      invariant h.Holds(HistogramOf(bounds, inits[..i]))
    {
      assert inits[..i + 1] == inits[..i] + [inits[i]];
      forall k | 0 <= k < |bounds| ensures inits[i].name !in BucketOf(bounds[k], inits[..i]) {
        NewName(bounds[k], inits[..i], inits[i].name);
      }
      h.RecordInitial(bounds, inits[i], inits[..i]);
    }
    assert inits[..|inits|] == inits;
  }

  class HistogramMetric {
    const bounds: seq<Bound>
    /** `InitHistogram`. */
    const init: Hist
    const reset: bool
    /** `field['values']` and `field['actuals']` of the one field, and `_actuals`. */
    var values: Hist
    var actuals: Hist
    var current: Hist
    /** The initial values, as they were recorded. */
    ghost const initLog: seq<Entry>
    /** The initial values and what was recorded since the last reset. */
    ghost var log: seq<Entry>
    /** Everything a flush handed over. */
    ghost var published: set<object>

    ghost predicate Valid()
      reads this, init, init.buckets, actuals, actuals.buckets
    {
      && init.Valid() && actuals.Valid() && values.Valid() && current == actuals
      && init.Holds(HistogramOf(bounds, initLog))
      && actuals.Holds(HistogramOf(bounds, log))
      && actuals.Repr() !! init.Repr() && actuals.Repr() !! published
      && this !in actuals.Repr() && this !in published && this !in init.Repr() && init.Repr() !! published
      && values.Repr() <= published && |actuals.buckets| == |bounds|
    }

    /** The initial values are counted as recorded once each. */
    constructor (bounds: seq<Bound>, reset: bool, inits: seq<Entry>)
      requires forall i, j :: 0 <= i < j < |inits| ==> inits[i].name != inits[j].name
      ensures Valid() && this.bounds == bounds && this.reset == reset && initLog == inits == log
      ensures fresh(init.Repr()) && fresh(actuals.Repr()) && fresh(published)
      ensures values.Holds(HistogramOf(bounds, inits))
    {
      this.bounds, this.reset, initLog, log := bounds, reset, inits, inits;
      var h := InitHistogram(bounds, inits);
      var v := h.DeepCopy(HistogramOf(bounds, inits));
      var a := h.DeepCopy(HistogramOf(bounds, inits));
      init, values, actuals, current, published := h, v, a, a, v.Repr();
    }

    method Set(name: ValueName, value: real)
      requires Valid()
      modifies `log, actuals, actuals.buckets
      ensures Valid() && log == old(log) + [Entry(name, value)]
      ensures unchanged(published) && values == old(values)
    {
      current.Record(bounds, Entry(name, value), log);
      log := log + [Entry(name, value)];
    }

    /** Publishes the live histogram; with `reset` a copy of the initial one takes its place. */
    method Flush()
      requires Valid()
      modifies this
      ensures Valid() && log == (if reset then initLog else old(log))
      ensures values.Holds(HistogramOf(bounds, old(log))) && old(published) <= published
    {
      if reset {
        values := actuals;
        published := published + actuals.Repr();
        actuals := init.DeepCopy(HistogramOf(bounds, initLog));
        current := actuals;
        log := initLog;
      } else {
        values := actuals.DeepCopy(HistogramOf(bounds, log));
        published := published + values.Repr();
      }
    }
  }
}
