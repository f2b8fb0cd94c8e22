/**
 Exact conditions over runs of the publisher: when a node is stale, when a change is left with nothing
 scheduled, and what an undisturbed pass repairs.
 */
module AdvertiseRuns {
  import opened Wrappers
  import opened Advertise

  /* ------------------------------------------------------------ stale nodes */

  /** A node that still has the recorded version is stale exactly when that version was written with other data. */
  lemma StaleExactly(s: State, p: Path)
    requires Reachable(s) && Matches(s.svc, p)
    ensures p in s.svc.wrote && (Stale(s.svc, p) <==> s.svc.wrote[p] != s.svc.advs[p].data)
  {
    ReachableInv(s);
    assert AdvInv(s.svc, p);
  }

  /**
   A recording leaves its node stale exactly when the node still has the version sent and the data has changed
   since it was sent.
   */
  lemma RecordMakesStaleExactly(s: State)
    requires Inv(s) && Enabled(s, Record)
    ensures var p, t := s.thread.path, s.thread;
            Stale(Step(s, Record).svc, p) <==>
            t.node in s.svc.nodes && s.svc.nodes[t.node].version == t.version && t.data != s.svc.advs[p].data
  {
  }

  /** Whether the latest recording for `p` came after its data had changed since the write. */
  predicate DividedNow(s: State, p: Path, e: Event, before: bool)
    requires Enabled(s, e)
  {
    if e.Record? && s.thread.path == p then s.thread.data != s.svc.advs[p].data else before
  }

  predicate DividedSince(s: State, p: Path, es: seq<Event>, before: bool)
    requires Legal(s, es)
    decreases |es|
  {
    if es == [] then before else DividedSince(Step(s, es[0]), p, es[1..], DividedNow(s, p, es[0], before))
  }

  predicate DivisionTracked(svc: Service, p: Path, divided: bool)
  {
    p in svc.advs && svc.advs[p].version >= 0 && svc.half != Some(p) ==>
      p in svc.wrote && (svc.wrote[p] != svc.advs[p].data <==> divided)
  }

  lemma StepTracksDivision(s: State, p: Path, e: Event, divided: bool)
    requires Inv(s) && Enabled(s, e) && DivisionTracked(s.svc, p, divided)
    ensures DivisionTracked(Step(s, e).svc, p, DividedNow(s, p, e, divided))
  {
    if p in s.svc.advs { assert AdvInv(s.svc, p); }
  }

  lemma {:induction false} RunTracksDivision(s: State, p: Path, es: seq<Event>, divided: bool)
    requires Inv(s) && Legal(s, es) && DivisionTracked(s.svc, p, divided)
    ensures DivisionTracked(Exec(s, es).svc, p, DividedSince(s, p, es, divided))
    decreases |es|
  {
    if es != [] {
      StepTracksDivision(s, p, es[0], divided);
      StepKeepsService(s, es[0]);
      StepKeepsThread(s, es[0]);
      RunTracksDivision(Step(s, es[0]), p, es[1..], DividedNow(s, p, es[0], divided));
    }
  }

  /**
   Over every run, unless `advertise` is half way: a node that still has the recorded version holds old data
   exactly when `advertise` changed the data between the latest write and its recording.
   */
  lemma StaleByDivisionExactly(es: seq<Event>, p: Path)
    requires Legal(INITIAL, es)
    requires var svc := Exec(INITIAL, es).svc; Matches(svc, p) && svc.half != Some(p)
    ensures Stale(Exec(INITIAL, es).svc, p) <==> DividedSince(INITIAL, p, es, false)
  {
    RunTracksDivision(INITIAL, p, es, false);
    StaleExactly(Exec(INITIAL, es), p);
  }

  /* ----------------------------------------------------------- lost changes */

  /** Something is outstanding, and neither a publisher nor a pending `advertise` will see to it. */
  predicate Forgotten(s: State)
  {
    && !NothingOutstanding(s.svc) && s.scheduled == 0 && s.svc.half == None
    && (s.thread.Idle? || s.thread.Leaving?)
  }

  /**
   The step drops the last hope of an outstanding change: a publisher that is skipped as the last one while the
   loop has made its last check or nobody runs it, or a loop that leaves by an error, for want of a connection
   or after its eleven passes.
   */
  predicate Forgets(s: State, e: Event)
    requires Enabled(s, e)
  {
    && !NothingOutstanding(s.svc) && s.svc.half == None
    && match e
       case Skip => s.scheduled == 1 && (s.thread.Idle? || s.thread.Leaving?)
       case Fail => s.scheduled == 0
       case EndPass(connected) => s.scheduled == 0 && !(connected && s.thread.count + 1 <= 10)
       case _ => false
  }

  /** A new change or the next tick brings a publisher back. */
  predicate Revives(e: Event)
  {
    e.Advertise? || e.Tick?
  }

  lemma ForgottenByStepExactly(s: State, e: Event)
    requires Inv(s) && Enabled(s, e)
    ensures Forgotten(Step(s, e)) <==> if Forgotten(s) then !Revives(e) else Forgets(s, e)
  {
  }

  predicate ForgottenNow(s: State, e: Event, before: bool)
    requires Enabled(s, e)
  {
    if before then !Revives(e) else Forgets(s, e)
  }

  predicate ForgottenSince(s: State, es: seq<Event>, before: bool)
    requires Legal(s, es)
    decreases |es|
  {
    if es == [] then before else ForgottenSince(Step(s, es[0]), es[1..], ForgottenNow(s, es[0], before))
  }

  lemma {:induction false} RunTracksForgotten(s: State, es: seq<Event>)
    requires Inv(s) && Legal(s, es)
    ensures Forgotten(Exec(s, es)) <==> ForgottenSince(s, es, Forgotten(s))
    decreases |es|
  {
    if es != [] {
      ForgottenByStepExactly(s, es[0]);
      StepKeepsService(s, es[0]);
      StepKeepsThread(s, es[0]);
      RunTracksForgotten(Step(s, es[0]), es[1..]);
    }
  }

  /**
   Over every run: a change is left with nothing to see to it exactly when a step forgot it and neither an
   `advertise` nor a tick came since.
   */
  lemma ForgottenExactly(es: seq<Event>)
    requires Legal(INITIAL, es)
    ensures Forgotten(Exec(INITIAL, es)) <==> ForgottenSince(INITIAL, es, false)
  {
    RunTracksForgotten(INITIAL, es);
  }

  /** A run in which no publisher is skipped, no call fails and no pass ends the loop early. */
  predicate Smooth(s: State, es: seq<Event>)
    requires Legal(s, es)
    decreases |es|
  {
    es == [] ||
    var e := es[0];
    && !e.Skip? && !e.Fail? && (e.EndPass? ==> e.connected && s.thread.count + 1 <= 10)
    && Smooth(Step(s, e), es[1..])
  }

  lemma {:induction false} SmoothForgetsNothing(s: State, es: seq<Event>)
    requires Legal(s, es) && Smooth(s, es)
    ensures !ForgottenSince(s, es, false)
    decreases |es|
  {
    if es != [] { SmoothForgetsNothing(Step(s, es[0]), es[1..]); }
  }

  /** A smooth run that comes to rest has published everything. */
  lemma SmoothRunsSettle(es: seq<Event>)
    requires Legal(INITIAL, es) && Smooth(INITIAL, es)
    requires var s := Exec(INITIAL, es); s.thread.Idle? && s.scheduled == 0 && s.svc.half == None
    ensures NothingOutstanding(Exec(INITIAL, es).svc)
  {
    ForgottenExactly(es);
    SmoothForgetsNothing(INITIAL, es);
  }

  /** A failing call loses a change too, with no `advertise` after the last check. */
  lemma FailedCreateForgetsHappens(p: Path, a: Data) returns (s: State)
    ensures Reachable(s) && Forgotten(s) && s.thread.Idle?
  {
    var es;
    es, s := [], INITIAL;
    es, s := Next(es, s, Advertise(p, a));
    es, s := Next(es, s, Acquire);
    es, s := Next(es, s, List);
    assert s.thread.todo == {p};
    es, s := Next(es, s, Look(p));
    es, s := Next(es, s, Fail);
    es, s := Next(es, s, Release);
    assert s.svc.advs[p].Outstanding();
  }

  /* ----------------------------------------------------------- eleven passes */

  /** How many passes begin in the run. */
  function Passes(es: seq<Event>): nat
  {
    if es == [] then 0 else (if es[0].List? then 1 else 0) + Passes(es[1..])
  }

  /** How many passes the loop may still begin before the lock is taken again. */
  function Left(t: Thread): int
  {
    match t
    case Idle => 0
    case Leaving => 0
    case Starting(count) => 11 - count
    case Checking(count) => 11 - count
    case _ => 10 - t.count
  }

  /** Until the lock is taken again, no more passes begin than are left. */
  lemma {:induction false} PassesAreLeft(s: State, es: seq<Event>)
    requires Inv(s) && Legal(s, es) && forall k :: 0 <= k < |es| ==> !es[k].Acquire?
    ensures Passes(es) <= Left(s.thread)
    decreases |es|
  {
    if es != [] {
      StepKeepsService(s, es[0]);
      StepKeepsThread(s, es[0]);
      PassesAreLeft(Step(s, es[0]), es[1..]);
    }
  }

  /** From one taking of the lock to the next the loop makes at most eleven passes, whatever happens meanwhile. */
  lemma AtMostElevenPassesPerRun(s: State, es: seq<Event>)
    requires Reachable(s) && Enabled(s, Acquire) && Legal(Step(s, Acquire), es)
    requires forall k :: 0 <= k < |es| ==> !es[k].Acquire?
    ensures Passes(es) <= 11
  {
    ReachableInv(s);
    StepKeepsService(s, Acquire);
    StepKeepsThread(s, Acquire);
    PassesAreLeft(Step(s, Acquire), es);
  }

  /** A run that takes the lock at most at its very beginning, from `s0` to `s` with `n` passes. */
  predicate Makes(s0: State, es: seq<Event>, s: State, n: nat)
  {
    Legal(s0, es) && Exec(s0, es) == s && Passes(es) == n && forall k :: 0 <= k < |es| ==> !es[k].Acquire?
  }

  lemma {:induction false} PassesNext(es: seq<Event>, e: Event)
    ensures Passes(es + [e]) == Passes(es) + if e.List? then 1 else 0
  {
    if es == [] {
      assert [] + [e] == [e] && [e][1..] == [];
    } else {
      PassesNext(es[1..], e);
      assert (es + [e])[1..] == es[1..] + [e];
    }
  }

  lemma OneMore(s0: State, es: seq<Event>, s: State, n: nat, e: Event) returns (es': seq<Event>, s': State)
    requires Makes(s0, es, s, n) && Enabled(s, e) && !e.Acquire?
    ensures s' == Step(s, e) && Makes(s0, es', s', if e.List? then n + 1 else n)
  {
    LegalNext(s0, es, e);
    PassesNext(es, e);
    es', s' := es + [e], Step(s, e);
  }

  /** One advertisement whose data comes again in every pass, after `k` passes. */
  function Busy(p: Path, d: Data, k: nat): State
    requires k > 0
  {
    State(Service(map[p := Adv(d, -1, Some(0))], None, map[0 := ZNode(d, k - 1)], 1, map[p := d], {}), k,
          if k <= 10 then Checking(k) else Leaving)
  }

  /** The end of a pass in which `advertise` comes again after the recording. */
  lemma BusyEnd(s0: State, p: Path, d: Data, k: nat, es0: seq<Event>, before: State)
    returns (es: seq<Event>, s: State)
    requires k <= 10 && Makes(s0, es0, before, k + 1)
    requires before == State(Service(map[p := Adv(d, k, Some(0))], None, map[0 := ZNode(d, k)], 1, map[p := d], {}), k,
                             Pass(k, {}))
    ensures s == Busy(p, d, k + 1) && Makes(s0, es, s, k + 1)
  {
    es, s := OneMore(s0, es0, before, k + 1, Advertise(p, d));
    es, s := OneMore(s0, es, s, k + 1, FinishAdvertise);
    es, s := OneMore(s0, es, s, k + 1, EndPass(true));
  }

  lemma FirstBusyPass(s0: State, p: Path, d: Data) returns (es: seq<Event>, s: State)
    requires s0 == State(Service(map[p := Adv(d, -1, None)], None, map[], 0, map[], {}), 0, Starting(0))
    ensures s == Busy(p, d, 1) && Makes(s0, es, s, 1)
  {
    es, s := OneMore(s0, [], s0, 0, List);
    es, s := OneMore(s0, es, s, 1, Look(p));
    es, s := OneMore(s0, es, s, 1, Create);
    assert s.thread.todo == {};
    es, s := OneMore(s0, es, s, 1, Record);
    es, s := BusyEnd(s0, p, d, 0, es, s);
  }

  /** The next pass, up to the write. */
  lemma BusyStart(s0: State, p: Path, d: Data, k: nat, es0: seq<Event>) returns (es: seq<Event>, s: State)
    requires 1 <= k <= 10 && Makes(s0, es0, Busy(p, d, k), k)
    ensures s == Busy(p, d, k).(thread := Setting(k, {}, p)) && Makes(s0, es, s, k + 1)
  {
    var before := Busy(p, d, k);
    assert before.svc.advs[p].Outstanding();
    es, s := OneMore(s0, es0, before, k, Check);
    es, s := OneMore(s0, es, s, k, List);
    assert s.thread == Pass(k, {p});
    es, s := OneMore(s0, es, s, k + 1, Look(p));
    assert {p} - {p} == {};
    es, s := OneMore(s0, es, s, k + 1, Compare);
  }

  /** The write and its recording. */
  lemma BusyWrite(s0: State, p: Path, d: Data, k: nat, es0: seq<Event>) returns (es: seq<Event>, s: State)
    requires 1 <= k <= 10 && Makes(s0, es0, Busy(p, d, k).(thread := Setting(k, {}, p)), k + 1)
    ensures s == State(Service(map[p := Adv(d, k, Some(0))], None, map[0 := ZNode(d, k)], 1, map[p := d], {}), k,
                       Pass(k, {}))
    ensures Makes(s0, es, s, k + 1)
  {
    es, s := OneMore(s0, es0, Busy(p, d, k).(thread := Setting(k, {}, p)), k + 1, Set);
    es, s := OneMore(s0, es, s, k + 1, Record);
  }

  lemma {:induction false} BusyPasses(s0: State, p: Path, d: Data, k: nat) returns (es: seq<Event>, s: State)
    requires s0 == State(Service(map[p := Adv(d, -1, None)], None, map[], 0, map[], {}), 0, Starting(0))
    requires 1 <= k <= 11
    ensures s == Busy(p, d, k) && Makes(s0, es, s, k)
  {
    if k == 1 {
      es, s := FirstBusyPass(s0, p, d);
    } else {
      es, s := BusyPasses(s0, p, d, k - 1);
      es, s := BusyStart(s0, p, d, k - 1, es);
      es, s := BusyWrite(s0, p, d, k - 1, es);
      es, s := BusyEnd(s0, p, d, k - 1, es, s);
    }
  }

  /** The bound is reached: with an `advertise` in every pass the loop makes eleven, and then leaves. */
  lemma ElevenPassesHappen(p: Path, d: Data) returns (s: State, es: seq<Event>)
    ensures Reachable(s) && Enabled(s, Acquire) && Legal(Step(s, Acquire), es)
    ensures (forall k :: 0 <= k < |es| ==> !es[k].Acquire?) && Passes(es) == 11
    ensures Exec(Step(s, Acquire), es).thread == Leaving && !NothingOutstanding(Exec(Step(s, Acquire), es).svc)
  {
    s := Step(INITIAL, Advertise(p, d));
    LegalNext(INITIAL, [], Advertise(p, d));
    assert Legal(INITIAL, [] + [Advertise(p, d)]) && Exec(INITIAL, [] + [Advertise(p, d)]) == s;
    var last;
    es, last := BusyPasses(Step(s, Acquire), p, d, 11);
    assert last.svc.advs[p].Outstanding();
  }

  /* ------------------------------------------------------ undisturbed passes */

  /** A step of the publisher within a pass, or one that only schedules or drops publishers. */
  predicate Publishing(e: Event)
  {
    e.List? || e.Look? || e.Compare? || e.Set? || e.Create? || e.Record? || e.Tick? || e.Skip?
  }

  predicate InPass(t: Thread)
  {
    t.Pass? || t.Seen? || t.Setting? || t.Creating? || t.Sent?
  }

  /** How far the advertisement the publisher works on has come. */
  predicate Working(before: Service, now: Service, t: Thread)
    requires (t.Seen? || t.Setting? || t.Creating? || t.Sent?) && t.path in before.advs && t.path in now.advs
  {
    var p := t.path;
    var a, b := before.advs[p], now.advs[p];
    b.data == a.data &&
    match t
    case Seen(_, _, _, found) =>
      Untouched(before, now, p) && HasNode(before, p) && found == before.nodes[a.realPath.value].version
    case Setting(_, _, _) =>
      Untouched(before, now, p) && HasNode(before, p) && !Matches(before, p)
    case Creating(_, _, _) => !HasNode(before, p) && b.realPath == None
    case Sent(_, _, _, n, v, d, _) =>
      !Stale(before, p) && d == a.data && n in now.nodes && now.nodes[n] == ZNode(d, v)
    case _ => true
  }

  /** Halfway through an undisturbed pass that began with `before`. */
  predicate PassInv(before: Service, s: State)
  {
    var t := s.thread;
    && Inv(s) && s.svc.advs.Keys == before.advs.Keys
    && (t.Starting? ==> s.svc == before)
    && (t.Starting? || InPass(t))
    && (InPass(t) ==>
          && t.todo <= before.advs.Keys
          && (!t.Pass? ==> t.path in before.advs && t.path !in t.todo && Working(before, s.svc, t))
          && forall p :: p in before.advs && !(!t.Pass? && p == t.path) ==>
               if p in t.todo then Untouched(before, s.svc, p) else RepairedAt(before, s.svc, p))
  }

  lemma ListKeepsPass(before: Service, s: State, e: Event)
    requires PassInv(before, s) && Enabled(s, e) && (e.List? || e.Tick? || e.Skip?)
    ensures PassInv(before, Step(s, e))
  {
    StepKeepsService(s, e);
    StepKeepsThread(s, e);
  }

  lemma LookKeepsPass(before: Service, s: State, e: Event)
    requires PassInv(before, s) && Enabled(s, e) && e.Look?
    ensures PassInv(before, Step(s, e))
  {
    StepKeepsService(s, e);
    StepKeepsThread(s, e);
  }

  lemma CompareKeepsPass(before: Service, s: State, e: Event)
    requires PassInv(before, s) && Enabled(s, e) && e.Compare?
    ensures PassInv(before, Step(s, e))
  {
    StepKeepsService(s, e);
    StepKeepsThread(s, e);
  }

  lemma WriteKeepsPass(before: Service, s: State, e: Event)
    requires PassInv(before, s) && Enabled(s, e) && (e.Set? || e.Create?)
    ensures PassInv(before, Step(s, e))
  {
    StepKeepsService(s, e);
    StepKeepsThread(s, e);
  }

  lemma RecordKeepsPass(before: Service, s: State, e: Event)
    requires PassInv(before, s) && Enabled(s, e) && e.Record?
    ensures PassInv(before, Step(s, e))
  {
    StepKeepsService(s, e);
    StepKeepsThread(s, e);
  }

  lemma StepKeepsPass(before: Service, s: State, e: Event)
    requires PassInv(before, s) && Enabled(s, e) && Publishing(e)
    ensures PassInv(before, Step(s, e))
  {
    match e
    case Look(p) => LookKeepsPass(before, s, e);
    case Compare => CompareKeepsPass(before, s, e);
    case Set => WriteKeepsPass(before, s, e);
    case Create => WriteKeepsPass(before, s, e);
    case Record => RecordKeepsPass(before, s, e);
    case _ => ListKeepsPass(before, s, e);
  }

  lemma {:induction false} RunKeepsPass(before: Service, s: State, es: seq<Event>)
    requires PassInv(before, s) && Legal(s, es) && forall k :: 0 <= k < |es| ==> Publishing(es[k])
    ensures PassInv(before, Exec(s, es))
    decreases |es|
  {
    if es != [] {
      StepKeepsPass(before, s, es[0]);
      RunKeepsPass(before, Step(s, es[0]), es[1..]);
    }
  }

  /**
   A whole pass of steps that nothing disturbs, from the list of advertisements to the last recording,
   publishes every advertisement, with its data unless it was stale before.
   */
  lemma UndisturbedPassRepairs(s: State, es: seq<Event>, p: Path)
    requires Inv(s) && s.thread.Starting? && Legal(s, es) && forall k :: 0 <= k < |es| ==> Publishing(es[k])
    requires Exec(s, es).thread.Pass? && Exec(s, es).thread.todo == {} && p in s.svc.advs
    ensures RepairedAt(s.svc, Exec(s, es).svc, p)
  {
    RunKeepsPass(s.svc, s, es);
  }
}
