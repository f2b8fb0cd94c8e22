/**
 A counter with dynamic tags: one field per set of tags, fields that expire, and amounts that move from
 `actuals` to `values` at each flush.
 */
module DynamicCounter {
  import opened Wrappers

  type Key(==, !new)
  type Text(==, !new)
  type ValueName(==, !new)
  datatype Tags = Tags(texts: map<Key, Text>)
  {
    /** `tags.update(static)`: a static tag wins. */
    function With(fixed: Tags): Tags
    {
      Tags(texts + fixed.texts)
    }
  }

  /** The tags of a field: the static ones as they are, and others under the keys that are left. */
  lemma StaticTagsWin(tags: Tags, fixed: Tags, k: Key, text: Text)
    ensures (k, text) in tags.With(fixed).texts.Items <==>
            (k, text) in fixed.texts.Items || (k !in fixed.texts && (k, text) in tags.texts.Items)
  {
  }

  type Amounts = map<ValueName, int>

  /** What a field of the storage holds. */
  datatype Record = Record(tags: Tags, values: Amounts, actuals: Amounts, expiresAt: int)

  /** `reset` is the storage's flag, which may be missing. */
  datatype Setup = Setup(staticTags: Tags, init: Option<Amounts>, reset: Option<bool>, expiration: nat)
  {
    function Initial(): Amounts
    {
      if init.Some? then init.value else map[]
    }

    function Blank(tags: Tags, now: int): Record
    {
      Record(tags, Initial(), Initial(), now + expiration)
    }
  }

  /* --------------------------------------------------- operations on values */

  predicate DistinctTags(rs: seq<Record>)
  {
    forall i, j :: 0 <= i < j < |rs| ==> rs[i].tags != rs[j].tags
  }

  function Find(rs: seq<Record>, tags: Tags): (i: nat)
    ensures i <= |rs| && (i < |rs| ==> rs[i].tags == tags)
    ensures forall j :: 0 <= j < i ==> rs[j].tags != tags
  {
    if rs == [] || rs[0].tags == tags then 0 else 1 + Find(rs[1..], tags)
  }

  /** The records with one for `tags`, made if it was missing. */
  function Located(s: Setup, rs: seq<Record>, tags: Tags, now: int): (out: seq<Record>)
    ensures Find(rs, tags) < |out|
  {
    if Find(rs, tags) < |rs| then rs else rs + [s.Blank(tags, now)]
  }

  function Plus(a: Amounts, name: ValueName, amount: int): Amounts
  {
    if name in a then a[name := a[name] + amount] else a[name := amount]
  }

  /** `add` of `amount`, and `sub` of `-amount`. */
  function Added(s: Setup, rs: seq<Record>, name: ValueName, amount: int, tags: Tags, now: int): seq<Record>
  {
    var full := tags.With(s.staticTags);
    var i, out := Find(rs, full), Located(s, rs, full, now);
    out[i := out[i].(actuals := Plus(out[i].actuals, name, amount), expiresAt := now + s.expiration)]
  }

  lemma AddedIs(s: Setup, rs: seq<Record>, name: ValueName, amount: int, tags: Tags, now: int, located: seq<Record>)
    requires located == Located(s, rs, tags.With(s.staticTags), now)
    ensures var i := Find(rs, tags.With(s.staticTags));
            Added(s, rs, name, amount, tags, now) ==
            located[i :=
              located[i].(actuals := Plus(located[i].actuals, name, amount), expiresAt := now + s.expiration)]
  {
  }

  function Live(rs: seq<Record>, now: int): seq<Record>
  {
    if rs == [] then [] else
    if rs[0].expiresAt < now then Live(rs[1..], now) else [rs[0]] + Live(rs[1..], now)
  }

  function Closed(s: Setup, r: Record): Record
  {
    r.(values := r.actuals, actuals := if s.reset == Some(true) then s.Initial() else r.actuals)
  }

  function Flushed(s: Setup, rs: seq<Record>, now: int): (out: seq<Record>)
  {
    var live := Live(rs, now);
    seq(|live|, i requires 0 <= i < |live| => Closed(s, live[i]))
  }

  /* ------------------------------------------------------------- the object */

  class Field {
    const tags: Tags
    var values: Amounts
    var actuals: Amounts
    var expiresAt: int

    constructor (r: Record)
      ensures AsRecord() == r
    {
      tags, values, actuals, expiresAt := r.tags, r.values, r.actuals, r.expiresAt;
    }

    function AsRecord(): Record
      reads this
    {
      Record(tags, values, actuals, expiresAt)
    }
  }

  ghost function Records(fs: seq<Field>): (rs: seq<Record>)
    reads fs
    ensures |rs| == |fs| && forall i :: 0 <= i < |fs| ==> rs[i] == fs[i].AsRecord()
  {
    seq(|fs|, i requires 0 <= i < |fs| reads fs => fs[i].AsRecord())
  }

  /** One field per set of tags. */
  predicate DistinctFields(fs: seq<Field>)
  {
    forall i, j :: 0 <= i < j < |fs| ==> fs[i].tags != fs[j].tags
  }

  ghost function LiveFields(fs: seq<Field>, now: int): seq<Field>
    reads fs
  {
    if fs == [] then [] else
    if fs[0].expiresAt < now then LiveFields(fs[1..], now) else [fs[0]] + LiveFields(fs[1..], now)
  }

  lemma {:induction false} LiveFieldsAre(fs: seq<Field>, now: int)
    ensures Records(LiveFields(fs, now)) == Live(Records(fs), now)
    ensures forall f :: f in LiveFields(fs, now) ==> f in fs
  {
    if fs != [] {
      LiveFieldsAre(fs[1..], now);
      assert Records(fs)[1..] == Records(fs[1..]);
      assert Records([fs[0]] + LiveFields(fs[1..], now)) == [fs[0].AsRecord()] + Records(LiveFields(fs[1..], now));
    }
  }

  lemma {:induction false} LiveFieldsDistinct(fs: seq<Field>, now: int)
    requires DistinctFields(fs)
    ensures DistinctFields(LiveFields(fs, now))
  {
    if fs != [] {
      LiveFieldsDistinct(fs[1..], now);
      LiveFieldsAre(fs[1..], now);
      forall f | f in LiveFields(fs[1..], now) ensures f.tags != fs[0].tags {
        assert f in fs[1..];
      }
    }
  }

  lemma TakeOneMore<T>(xs: seq<T>, i: nat, ys: seq<T>)
    requires i < |xs|
    ensures var zs := xs[..i + 1] + ys;
            zs == xs[..i] + ([xs[i]] + ys) && zs[..i] + zs[i + 1..] == xs[..i] + ys
    ensures xs[i..][0] == xs[i] && xs[i..][1..] == xs[i + 1..]
  {
  }

  class CounterWithDynamicTags {
    const setup: Setup
    var fieldset: seq<Field>

    /** `_initialize_storage`: a counter with initial values starts with the field of its static tags. */
    constructor (setup: Setup, now: int)
      ensures this.setup == setup && Valid() && fresh(fieldset)
      ensures Records(fieldset) == Start(setup, now)
    {
      this.setup := setup;
      fieldset := [];
      new;
      if setup.init.Some? {
        var field := new Field(setup.Blank(setup.staticTags, now));
        fieldset := [field];
      }
    }

    ghost predicate Valid()
      reads this
    {
      DistinctFields(fieldset)
    }

    method LocateField(full: Tags, now: int) returns (i: nat)
      requires Valid()
      modifies this`fieldset
      ensures Valid() && forall f :: f in fieldset ==> f in old(fieldset) || fresh(f)
      ensures i == Find(old(Records(fieldset)), full) < |fieldset|
      ensures Records(fieldset) == Located(setup, old(Records(fieldset)), full, now)
    {
      i := 0;
      while i < |fieldset|
        invariant i <= |fieldset|
        invariant forall j :: 0 <= j < i ==> fieldset[j].tags != full
      {
        if fieldset[i].tags == full { return; }
        i := i + 1;
      }
      var field := new Field(setup.Blank(full, now));
      fieldset := fieldset + [field];
    }

    /** Stores new amounts in the `i`-th field and puts off its expiry. */
    method Touch(i: nat, actuals: Amounts, now: int)
      requires Valid() && i < |fieldset|
      modifies fieldset[i]
      ensures fieldset[i].AsRecord() ==
              old(fieldset[i].AsRecord()).(actuals := actuals, expiresAt := now + setup.expiration)
      ensures Records(fieldset) == old(Records(fieldset))[i := fieldset[i].AsRecord()]
    {
      fieldset[i].actuals := actuals;
      fieldset[i].expiresAt := now + setup.expiration;
    }

    /** Does so for the field of the tags, which has just been located in the records `rs`. */
    method Store(i: nat, actuals: Amounts, now: int,
                 ghost rs: seq<Record>, ghost name: ValueName, ghost amount: int, ghost tags: Tags)
      requires Valid() && i == Find(rs, tags.With(setup.staticTags)) && i < |fieldset|
      requires Records(fieldset) == Located(setup, rs, tags.With(setup.staticTags), now)
      requires actuals == Plus(fieldset[i].actuals, name, amount)
      modifies fieldset[i]
      ensures Records(fieldset) == Added(setup, rs, name, amount, tags, now)
    {
      AddedIs(setup, rs, name, amount, tags, now, Records(fieldset));
      Touch(i, actuals, now);
    }

    method Add(name: ValueName, amount: int, tags: Tags, now: int)
      requires Valid()
      modifies this, fieldset
      ensures Valid() && forall f :: f in fieldset ==> f in old(fieldset) || fresh(f)
      ensures Records(fieldset) == Added(setup, old(Records(fieldset)), name, amount, tags, now)
    {
      var i := LocateField(tags.With(setup.staticTags), now);
      assert fieldset[i] in fieldset;
      var actuals := fieldset[i].actuals;
      ghost var before := actuals;
      actuals := if name in actuals then actuals[name := actuals[name] + amount] else actuals[name := amount];
      assert actuals == Plus(before, name, amount);
      Store(i, actuals, now, old(Records(fieldset)), name, amount, tags);
    }

    method Sub(name: ValueName, amount: int, tags: Tags, now: int)
      requires Valid()
      modifies this, fieldset
      ensures Valid() && forall f :: f in fieldset ==> f in old(fieldset) || fresh(f)
      ensures Records(fieldset) == Added(setup, old(Records(fieldset)), name, -amount, tags, now)
    {
      var i := LocateField(tags.With(setup.staticTags), now);
      assert fieldset[i] in fieldset;
      var actuals := fieldset[i].actuals;
      ghost var before := actuals;
      actuals := if name in actuals then actuals[name := actuals[name] - amount] else actuals[name := -amount];
      assert actuals == Plus(before, name, -amount);
      Store(i, actuals, now, old(Records(fieldset)), name, -amount, tags);
    }

    /** `fieldset.remove(field)`: takes out the first field with equal contents, which is the field itself. */
    method RemoveEqual(field: Field, ghost at: nat)
      requires at < |fieldset| && fieldset[at] == field
      requires forall k :: 0 <= k < at ==> fieldset[k].tags != field.tags
      modifies this`fieldset
      ensures fieldset == old(fieldset)[..at] + old(fieldset)[at + 1..]
    {
      var k := 0;
      while fieldset[k].AsRecord() != field.AsRecord()
        invariant 0 <= k <= at
        decreases at - k
      {
        k := k + 1;
      }
      fieldset := fieldset[..k] + fieldset[k + 1..];
    }

    /** The loop over the reversed copy that drops the expired fields. */
    method DropExpired(now: int)
      requires Valid()
      modifies this`fieldset
      ensures Valid() && Records(fieldset) == Live(Records(old(fieldset)), now)
      ensures forall f :: f in fieldset ==> f in old(fieldset)
    {
      ghost var all := fieldset;
      var copied := fieldset;
      var i := |copied|;
      while i > 0
        invariant 0 <= i <= |copied|
        invariant fieldset == all[..i] + LiveFields(all[i..], now)
      {
        i := i - 1;
        TakeOneMore(all, i, LiveFields(all[i + 1..], now));
        if copied[i].expiresAt < now {
          RemoveEqual(copied[i], i);
        }
      }
      assert all[0..] == all;
      LiveFieldsAre(all, now);
      LiveFieldsDistinct(all, now);
    }

    method Flush(now: int)
      requires Valid()
      modifies this, fieldset
      ensures Valid() && forall f :: f in fieldset ==> f in old(fieldset)
      ensures Records(fieldset) == Flushed(setup, old(Records(fieldset)), now)
    {
      DropExpired(now);
      ghost var live, records := fieldset, Records(fieldset);
      for i := 0 to |fieldset|
        invariant fieldset == live
        invariant forall k :: 0 <= k < |fieldset| ==>
          fieldset[k].AsRecord() == if k < i then Closed(setup, records[k]) else records[k]
      {
        var field := fieldset[i];
        assert field in live;
        field.values := field.actuals;
        if setup.reset == Some(true) {
          field.actuals := if setup.init.Some? then setup.init.value else map[];
        }
      }
    }
  }

  /* --------------------------------------------------------------- the runs */

  datatype Event =
    | Add(name: ValueName, amount: int, tags: Tags, now: int)
    | Flush(now: int)

  function Start(s: Setup, now: int): seq<Record>
  {
    if s.init.Some? then [s.Blank(s.staticTags, now)] else []
  }

  function Step(s: Setup, rs: seq<Record>, e: Event): seq<Record>
  {
    match e
    case Add(name, amount, tags, now) => Added(s, rs, name, amount, tags, now)
    case Flush(now) => Flushed(s, rs, now)
  }

  function Run(s: Setup, start: int, es: seq<Event>): seq<Record>
  {
    if es == [] then Start(s, start) else Step(s, Run(s, start, es[..|es| - 1]), es[|es| - 1])
  }

  /** The amount under a name, nothing counting as zero. */
  function Of(a: Amounts, name: ValueName): int
  {
    if name in a then a[name] else 0
  }

  /** What the field with these tags has not flushed yet. */
  function Pending(rs: seq<Record>, tags: Tags, name: ValueName): int
  {
    var i := Find(rs, tags);
    if i < |rs| then Of(rs[i].actuals, name) else 0
  }

  /** What the last flush published for these tags. */
  function Published(rs: seq<Record>, tags: Tags, name: ValueName): int
  {
    var i := Find(rs, tags);
    if i < |rs| then Of(rs[i].values, name) else 0
  }

  /** What a flush drops together with an expired field. */
  function Dropped(rs: seq<Record>, now: int, tags: Tags, name: ValueName): int
  {
    var i := Find(rs, tags);
    if i < |rs| && rs[i].expiresAt < now then Of(rs[i].actuals, name) else 0
  }

  function TotalAdded(s: Setup, es: seq<Event>, tags: Tags, name: ValueName): int
  {
    if es == [] then 0
    else
      var e := es[|es| - 1];
      TotalAdded(s, es[..|es| - 1], tags, name) +
      if e.Add? && e.name == name && e.tags.With(s.staticTags) == tags then e.amount else 0
  }

  function TotalFlushed(s: Setup, start: int, es: seq<Event>, tags: Tags, name: ValueName): int
  {
    if es == [] then 0
    else
      TotalFlushed(s, start, es[..|es| - 1], tags, name) +
      if es[|es| - 1].Flush? then Published(Run(s, start, es), tags, name) else 0
  }

  function TotalDropped(s: Setup, start: int, es: seq<Event>, tags: Tags, name: ValueName): int
  {
    if es == [] then 0
    else
      var e := es[|es| - 1];
      TotalDropped(s, start, es[..|es| - 1], tags, name) +
      if e.Flush? then Dropped(Run(s, start, es[..|es| - 1]), e.now, tags, name) else 0
  }

  function LastTime(start: int, es: seq<Event>): int
  {
    if es == [] then start else es[|es| - 1].now
  }

  function LastFlush(start: int, es: seq<Event>): int
  {
    if es == [] then start else if es[|es| - 1].Flush? then es[|es| - 1].now else LastFlush(start, es[..|es| - 1])
  }

  /** A clock that does not go back, and flushes at most the expiration time apart. */
  predicate Timely(s: Setup, start: int, es: seq<Event>)
  {
    es == [] ||
    var front, e := es[..|es| - 1], es[|es| - 1];
    && Timely(s, start, front) && LastTime(start, front) <= e.now
    && (e.Flush? ==> e.now <= LastFlush(start, front) + s.expiration)
  }

  /* ------------------------------------------------------------- the proofs */

  lemma FindIs(rs: seq<Record>, tags: Tags, i: nat)
    requires DistinctTags(rs) && i < |rs| && rs[i].tags == tags
    ensures Find(rs, tags) == i
  {
  }

  lemma {:induction false} LiveRecords(rs: seq<Record>, now: int)
    ensures forall r :: r in Live(rs, now) <==> r in rs && r.expiresAt >= now
    ensures DistinctTags(rs) ==> DistinctTags(Live(rs, now))
  {
    if rs != [] {
      LiveRecords(rs[1..], now);
      assert forall r :: r in rs <==> r == rs[0] || r in rs[1..];
      var rest := Live(rs[1..], now);
      if DistinctTags(rs) {
        forall i | 0 <= i < |rest| ensures rest[i].tags != rs[0].tags {
          assert rest[i] in rs[1..];
        }
      }
    }
  }

  /** Every operation keeps one field per set of tags. */
  lemma StepKeepsTagsDistinct(s: Setup, rs: seq<Record>, e: Event)
    requires DistinctTags(rs)
    ensures DistinctTags(Step(s, rs, e))
  {
    if e.Flush? { LiveRecords(rs, e.now); }
  }

  lemma {:induction false} RunKeepsTagsDistinct(s: Setup, start: int, es: seq<Event>)
    ensures DistinctTags(Run(s, start, es))
  {
    if es != [] {
      RunKeepsTagsDistinct(s, start, es[..|es| - 1]);
      StepKeepsTagsDistinct(s, Run(s, start, es[..|es| - 1]), es[|es| - 1]);
    }
  }

  lemma AddMovesPending(s: Setup, rs: seq<Record>, name: ValueName, amount: int, tags: Tags, now: int, t: Tags,
                        n: ValueName)
    requires DistinctTags(rs)
    ensures Pending(Added(s, rs, name, amount, tags, now), t, n) ==
            Pending(rs, t, n) + (if n == name && t == tags.With(s.staticTags) then amount else 0)
            + if t == tags.With(s.staticTags) && Find(rs, t) == |rs| then Of(s.Initial(), n) else 0
  {
    var full := tags.With(s.staticTags);
    var i, out := Find(rs, full), Added(s, rs, name, amount, tags, now);
    var k := Find(rs, t);
    if t == full {
      FindIs(out, t, i);
    } else if k < |rs| {
      FindIs(out, t, k);
    }
  }

  /** An addition publishes nothing; a field that it makes starts with the initial amounts. */
  lemma AddKeepsPublished(s: Setup, rs: seq<Record>, name: ValueName, amount: int, tags: Tags, now: int, t: Tags,
                          n: ValueName)
    requires DistinctTags(rs)
    ensures Published(Added(s, rs, name, amount, tags, now), t, n) ==
            if t == tags.With(s.staticTags) && Find(rs, t) == |rs| then Of(s.Initial(), n) else Published(rs, t, n)
  {
    var full := tags.With(s.staticTags);
    var i, out := Find(rs, full), Added(s, rs, name, amount, tags, now);
    var k := Find(rs, t);
    if t == full {
      FindIs(out, t, i);
    } else if k < |rs| {
      FindIs(out, t, k);
    }
  }

  /** A flush closes the field of the tags, unless there is none or it has expired. */
  lemma FlushFinds(s: Setup, rs: seq<Record>, now: int, t: Tags)
    requires DistinctTags(rs)
    ensures var out, k := Flushed(s, rs, now), Find(rs, t);
            if k < |rs| && rs[k].expiresAt >= now then Find(out, t) < |out| && out[Find(out, t)] == Closed(s, rs[k])
            else Find(out, t) == |out|
  {
    var live, out, k := Live(rs, now), Flushed(s, rs, now), Find(rs, t);
    LiveRecords(rs, now);
    if k < |rs| && rs[k].expiresAt >= now {
      assert rs[k] in live;
      var i :| 0 <= i < |live| && live[i] == rs[k];
      FindIs(out, t, i);
    } else {
      forall i | 0 <= i < |live| ensures live[i].tags != t {
        assert live[i] in rs;
        var j :| 0 <= j < |rs| && rs[j] == live[i];
      }
    }
  }

  /**
   What a field has pending is published, or dropped with it.  A field that stays then has its initial amount
   pending if the counter resets, and what it had otherwise.
   */
  lemma FlushMovesPending(s: Setup, rs: seq<Record>, now: int, t: Tags, n: ValueName)
    requires DistinctTags(rs)
    ensures var out := Flushed(s, rs, now);
            && Pending(rs, t, n) == Published(out, t, n) + Dropped(rs, now, t, n)
            && Pending(out, t, n) ==
               if Find(rs, t) == |rs| || rs[Find(rs, t)].expiresAt < now then 0
               else if s.reset == Some(true) then Of(s.Initial(), n) else Pending(rs, t, n)
  {
    FlushFinds(s, rs, now, t);
  }

  /** The initial amounts of the field: one when it is made, and one at each flush that it outlives. */
  function TotalInitial(s: Setup, start: int, es: seq<Event>, t: Tags, n: ValueName): int
  {
    if es == [] then if s.init.Some? && t == s.staticTags then Of(s.Initial(), n) else 0
    else
      var rs, e := Run(s, start, es[..|es| - 1]), es[|es| - 1];
      var i := Find(rs, t);
      var added := match e
                   case Add(_, _, tags, _) => t == tags.With(s.staticTags) && i == |rs|
                   case Flush(now) => i < |rs| && rs[i].expiresAt >= now;
      TotalInitial(s, start, es[..|es| - 1], t, n) + if added then Of(s.Initial(), n) else 0
  }

  lemma {:induction false} NothingInitial(s: Setup, start: int, es: seq<Event>, t: Tags, n: ValueName)
    requires s.init == None
    ensures TotalInitial(s, start, es, t, n) == 0
  {
    if es != [] { NothingInitial(s, start, es[..|es| - 1], t, n); }
  }

  /**
   Nothing is counted twice or forgotten: an added amount, and an initial one, is flushed once, dropped with its
   field, or pending.
   */
  lemma {:induction false} Ledger(s: Setup, start: int, es: seq<Event>, t: Tags, n: ValueName)
    requires s.reset == Some(true)
    ensures TotalAdded(s, es, t, n) + TotalInitial(s, start, es, t, n) ==
            TotalFlushed(s, start, es, t, n) + TotalDropped(s, start, es, t, n) + Pending(Run(s, start, es), t, n)
  {
    if es != [] {
      var front, e := es[..|es| - 1], es[|es| - 1];
      Ledger(s, start, front, t, n);
      RunKeepsTagsDistinct(s, start, front);
      match e
      case Add(name, amount, tags, now) => AddMovesPending(s, Run(s, start, front), name, amount, tags, now, t, n);
      case Flush(now) => FlushMovesPending(s, Run(s, start, front), now, t, n);
    }
  }

  /** Fields with anything pending live until the next flush is due. */
  predicate PendingLive(s: Setup, rs: seq<Record>, lastFlush: int)
  {
    forall i :: 0 <= i < |rs| && rs[i].actuals != map[] ==> rs[i].expiresAt >= lastFlush + s.expiration
  }

  lemma {:induction false} TimelyKeepsPendingLive(s: Setup, start: int, es: seq<Event>)
    requires s.init == None && s.reset == Some(true) && Timely(s, start, es)
    ensures PendingLive(s, Run(s, start, es), LastFlush(start, es)) && LastFlush(start, es) <= LastTime(start, es)
  {
    if es != [] {
      TimelyKeepsPendingLive(s, start, es[..|es| - 1]);
    }
  }

  lemma {:induction false} TimelyDropsNothing(s: Setup, start: int, es: seq<Event>, t: Tags, n: ValueName)
    requires s.init == None && s.reset == Some(true) && Timely(s, start, es)
    ensures TotalDropped(s, start, es, t, n) == 0
  {
    if es != [] {
      TimelyDropsNothing(s, start, es[..|es| - 1], t, n);
      TimelyKeepsPendingLive(s, start, es[..|es| - 1]);
    }
  }

  /**
   With timely flushes every amount added or subtracted is in exactly one flushed `values` or still in
   `actuals`.
   */
  lemma Conservation(s: Setup, start: int, es: seq<Event>, t: Tags, n: ValueName)
    requires s.init == None && s.reset == Some(true) && Timely(s, start, es)
    ensures TotalAdded(s, es, t, n) == TotalFlushed(s, start, es, t, n) + Pending(Run(s, start, es), t, n)
  {
    Ledger(s, start, es, t, n);
    NothingInitial(s, start, es, t, n);
    TimelyDropsNothing(s, start, es, t, n);
  }

  /** The time of the latest addition under the tags since the last flush. */
  function LastAdded(s: Setup, es: seq<Event>, t: Tags): Option<int>
  {
    if es == [] || es[|es| - 1].Flush? then None
    else if es[|es| - 1].tags.With(s.staticTags) == t then Some(es[|es| - 1].now)
    else LastAdded(s, es[..|es| - 1], t)
  }

  function AddedSinceFlush(s: Setup, es: seq<Event>, t: Tags, n: ValueName): int
  {
    if es == [] || es[|es| - 1].Flush? then 0
    else
      var e := es[|es| - 1];
      AddedSinceFlush(s, es[..|es| - 1], t, n) + if e.name == n && e.tags.With(s.staticTags) == t then e.amount else 0
  }

  /** The field of the tags as the additions since the last flush have left it. */
  predicate FieldTells(s: Setup, rs: seq<Record>, t: Tags, n: ValueName, last: Option<int>, added: int)
  {
    var i := Find(rs, t);
    match last
    case Some(now) => i < |rs| && rs[i].expiresAt == now + s.expiration && Of(rs[i].actuals, n) == added
    case None => added == 0 && (i < |rs| ==> rs[i].actuals == map[])
  }

  lemma AddTells(s: Setup, rs: seq<Record>, e: Event, t: Tags, n: ValueName, last: Option<int>, added: int)
    requires s.init == None && DistinctTags(rs) && e.Add? && FieldTells(s, rs, t, n, last, added)
    ensures var mine := e.tags.With(s.staticTags) == t;
            FieldTells(s, Step(s, rs, e), t, n, if mine then Some(e.now) else last,
                       added + if e.name == n && mine then e.amount else 0)
  {
    AddMovesPending(s, rs, e.name, e.amount, e.tags, e.now, t, n);
    var full := e.tags.With(s.staticTags);
    var i, k, out := Find(rs, full), Find(rs, t), Step(s, rs, e);
    StepKeepsTagsDistinct(s, rs, e);
    if full == t {
      FindIs(out, t, i);
    } else if k < |rs| {
      FindIs(out, t, k);
    } else {
      assert forall j :: 0 <= j < |out| ==> out[j].tags != t;
    }
  }

  lemma FlushTells(s: Setup, rs: seq<Record>, now: int, t: Tags, n: ValueName)
    requires s.init == None && s.reset == Some(true)
    ensures FieldTells(s, Flushed(s, rs, now), t, n, None, 0)
  {
  }

  lemma {:induction false} RunTells(s: Setup, start: int, es: seq<Event>, t: Tags, n: ValueName)
    requires s.init == None && s.reset == Some(true)
    ensures FieldTells(s, Run(s, start, es), t, n, LastAdded(s, es, t), AddedSinceFlush(s, es, t, n))
  {
    if es != [] {
      var front, e := es[..|es| - 1], es[|es| - 1];
      RunTells(s, start, front, t, n);
      RunKeepsTagsDistinct(s, start, front);
      if e.Add? {
        AddTells(s, Run(s, start, front), e, t, n, LastAdded(s, front, t), AddedSinceFlush(s, front, t, n));
      } else {
        FlushTells(s, Run(s, start, front), e.now, t, n);
      }
    }
  }

  /**
   After every run, at whatever times: a flush drops for a set of tags exactly what was added since the last
   flush, if the latest of those additions is older than the expiration time, and nothing otherwise.
   */
  lemma DroppedExactly(s: Setup, start: int, es: seq<Event>, now: int, t: Tags, n: ValueName)
    requires s.init == None && s.reset == Some(true)
    ensures Dropped(Run(s, start, es), now, t, n) ==
            match LastAdded(s, es, t)
            case Some(last) => if last + s.expiration < now then AddedSinceFlush(s, es, t, n) else 0
            case None => 0
  {
    RunTells(s, start, es, t, n);
  }

  /* --------------------------------------------- counters that do not reset */

  /** When the field of the tags was touched last, if it has not expired at a flush since. */
  function Touched(s: Setup, start: int, es: seq<Event>, t: Tags): Option<int>
  {
    if es == [] then if s.init.Some? && t == s.staticTags then Some(start) else None
    else
      var before, e := Touched(s, start, es[..|es| - 1], t), es[|es| - 1];
      match e
      case Add(_, _, tags, now) => if tags.With(s.staticTags) == t then Some(now) else before
      case Flush(now) => if before.Some? && before.value + s.expiration < now then None else before
  }

  /** What was added under the tags since the field was made, initial amounts aside. */
  function AddedSinceMade(s: Setup, start: int, es: seq<Event>, t: Tags, n: ValueName): int
  {
    if es == [] then 0
    else
      var front, e := es[..|es| - 1], es[|es| - 1];
      match e
      case Add(name, amount, tags, now) =>
        AddedSinceMade(s, start, front, t, n) + if name == n && tags.With(s.staticTags) == t then amount else 0
      case Flush(now) => if Touched(s, start, es, t) == None then 0 else AddedSinceMade(s, start, front, t, n)
  }

  /** The field of the tags, told from the events. */
  predicate FieldStands(s: Setup, rs: seq<Record>, t: Tags, n: ValueName, touched: Option<int>, added: int)
  {
    var i := Find(rs, t);
    match touched
    case Some(now) =>
      i < |rs| && rs[i].expiresAt == now + s.expiration && Of(rs[i].actuals, n) == Of(s.Initial(), n) + added
    case None => i == |rs| && added == 0
  }

  lemma AddStands(s: Setup, rs: seq<Record>, e: Event, t: Tags, n: ValueName, touched: Option<int>, added: int)
    requires DistinctTags(rs) && e.Add? && FieldStands(s, rs, t, n, touched, added)
    ensures var mine := e.tags.With(s.staticTags) == t;
            FieldStands(s, Step(s, rs, e), t, n, if mine then Some(e.now) else touched,
                        added + if e.name == n && mine then e.amount else 0)
  {
    AddMovesPending(s, rs, e.name, e.amount, e.tags, e.now, t, n);
    var full := e.tags.With(s.staticTags);
    var i, k, out := Find(rs, full), Find(rs, t), Step(s, rs, e);
    StepKeepsTagsDistinct(s, rs, e);
    if full == t {
      FindIs(out, t, i);
    } else if k < |rs| {
      FindIs(out, t, k);
    } else {
      assert forall j :: 0 <= j < |out| ==> out[j].tags != t;
    }
  }

  lemma FlushStands(s: Setup, rs: seq<Record>, now: int, t: Tags, n: ValueName, touched: Option<int>, added: int)
    requires DistinctTags(rs) && s.reset != Some(true) && FieldStands(s, rs, t, n, touched, added)
    ensures var gone := touched.Some? && touched.value + s.expiration < now;
            FieldStands(s, Flushed(s, rs, now), t, n, if gone then None else touched, if gone then 0 else added)
  {
    FlushFinds(s, rs, now, t);
  }

  lemma {:induction false} RunStands(s: Setup, start: int, es: seq<Event>, t: Tags, n: ValueName)
    requires s.reset != Some(true)
    ensures FieldStands(s, Run(s, start, es), t, n, Touched(s, start, es, t), AddedSinceMade(s, start, es, t, n))
  {
    if es != [] {
      var front, e := es[..|es| - 1], es[|es| - 1];
      RunStands(s, start, front, t, n);
      RunKeepsTagsDistinct(s, start, front);
      var touched, added := Touched(s, start, front, t), AddedSinceMade(s, start, front, t, n);
      if e.Add? {
        AddStands(s, Run(s, start, front), e, t, n, touched, added);
      } else {
        FlushStands(s, Run(s, start, front), e.now, t, n, touched, added);
      }
    }
  }

  lemma ResetStands(s: Setup, rs: seq<Record>, now: int, t: Tags, n: ValueName, touched: Option<int>, added: int)
    requires DistinctTags(rs) && s.reset == Some(true) && FieldStands(s, rs, t, n, touched, added)
    ensures var gone := touched.Some? && touched.value + s.expiration < now;
            FieldStands(s, Flushed(s, rs, now), t, n, if gone then None else touched, 0)
  {
    FlushFinds(s, rs, now, t);
  }

  lemma {:induction false} ResettingRunStands(s: Setup, start: int, es: seq<Event>, t: Tags, n: ValueName)
    requires s.reset == Some(true)
    ensures FieldStands(s, Run(s, start, es), t, n, Touched(s, start, es, t), AddedSinceFlush(s, es, t, n))
  {
    if es != [] {
      var front, e := es[..|es| - 1], es[|es| - 1];
      ResettingRunStands(s, start, front, t, n);
      RunKeepsTagsDistinct(s, start, front);
      var touched, added := Touched(s, start, front, t), AddedSinceFlush(s, front, t, n);
      if e.Add? {
        AddStands(s, Run(s, start, front), e, t, n, touched, added);
      } else {
        ResetStands(s, Run(s, start, front), e.now, t, n, touched, added);
      }
    }
  }

  /**
   With initial amounts, too, a flush of a counter that resets drops exactly the fields not touched for longer than
   the expiration time: with each its initial amount and what was added since the last flush.
   */
  lemma DroppedWithInitialExactly(s: Setup, start: int, es: seq<Event>, now: int, t: Tags, n: ValueName)
    requires s.reset == Some(true)
    ensures Dropped(Run(s, start, es), now, t, n) ==
            match Touched(s, start, es, t)
            case Some(last) =>
              if last + s.expiration < now then Of(s.Initial(), n) + AddedSinceFlush(s, es, t, n) else 0
            case None => 0
  {
    ResettingRunStands(s, start, es, t, n);
  }

  /**
   A counter that does not reset publishes, whatever the times, the running total: for a set of tags whose field
   has not expired, its initial amount and all that was added since the field was made.
   */
  lemma PublishesRunningTotal(s: Setup, start: int, es: seq<Event>, now: int, t: Tags, n: ValueName)
    requires s.reset != Some(true)
    ensures var all := es + [Flush(now)];
            Published(Run(s, start, all), t, n) ==
            if Touched(s, start, all, t) == None then 0
            else Of(s.Initial(), n) + AddedSinceMade(s, start, es, t, n)
  {
    var all, rs := es + [Flush(now)], Run(s, start, es);
    assert all[..|all| - 1] == es;
    RunStands(s, start, es, t, n);
    RunKeepsTagsDistinct(s, start, es);
    FlushMovesPending(s, rs, now, t, n);
  }

  /** A flush that comes later than the expiration time loses what was added since the one before. */
  lemma LateFlushLoses(s: Setup, start: int, name: ValueName, amount: int, tags: Tags, late: int)
    requires s.init == None && late > start + s.expiration
    ensures var es := [Add(name, amount, tags, start), Flush(late)];
            var t := tags.With(s.staticTags);
            TotalAdded(s, es, t, name) == amount && TotalFlushed(s, start, es, t, name) == 0 &&
            Run(s, start, es) == []
  {
    var es := [Add(name, amount, tags, start), Flush(late)];
    var none: seq<Record> := [];
    var first := Added(s, none, name, amount, tags, start);
    assert es[..1] == [es[0]] && es[..1][..0] == [];
    assert Located(s, none, tags.With(s.staticTags), start) == [s.Blank(tags.With(s.staticTags), start)];
    assert Run(s, start, es[..1]) == first;
    assert first[1..] == [];
    assert Live(first, late) == [];
    assert TotalAdded(s, es[..1], tags.With(s.staticTags), name) == amount;
    assert TotalFlushed(s, start, es[..1], tags.With(s.staticTags), name) == 0;
  }
}
