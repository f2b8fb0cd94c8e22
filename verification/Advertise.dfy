/**
 Publishing advertisements to ZooKeeper.

 The publisher writes each advertisement into its own node and then records the version it wrote; `advertise`
 changes the data from another thread at any moment.  `wrote` and `torn` are history: the data that the
 recorded version stands for, and the paths for which `advertise` came between a write and its recording.
 */
module Advertise {
  import opened Wrappers

  type Path(==, !new)
  type Data(==, !new)

  /** `ZooKeeperAdvertisement`; version -1 asks for a write. */
  datatype Adv = Adv(data: Data, version: int, realPath: Option<nat>)
  {
    predicate Outstanding()
    {
      version == -1 || realPath == None
    }
  }

  datatype ZNode = ZNode(data: Data, version: nat)

  /** Node names are numbered: sequential nodes never reuse a name. */
  datatype Service = Service(advs: map<Path, Adv>, half: Option<Path>, nodes: map<nat, ZNode>, next: nat,
                             wrote: map<Path, Data>, torn: set<Path>)

  /** Where the publisher is; `count` passes are behind it. */
  datatype Thread =
    | Idle
    | Starting(count: nat)
    | Pass(count: nat, todo: set<Path>)
    | Seen(count: nat, todo: set<Path>, path: Path, found: nat)
    | Setting(count: nat, todo: set<Path>, path: Path)
    | Creating(count: nat, todo: set<Path>, path: Path)
    | Sent(count: nat, todo: set<Path>, path: Path, node: nat, version: nat, data: Data, touched: bool)
    | Checking(count: nat)
    | Leaving

  datatype State = State(svc: Service, scheduled: nat, thread: Thread)

  datatype Event =
    | Advertise(p: Path, d: Data)     // the data of a known path, or a new advertisement
    | FinishAdvertise                 // version = -1, and a publisher is scheduled
    | Tick                            // a tick or a new connection schedules a publisher
    | Acquire                         // a scheduled publisher gets the lock
    | Skip                            // ... or finds the lock taken, or no connection
    | List                            // takes the list of advertisements
    | Look(p: Path)                   // `exists` for the next advertisement
    | Compare                         // the version found against the recorded one
    | Set                             // `set`, which may find no node
    | Create                          // `create`
    | Record                          // records the node and the version
    | EndPass(connected: bool)
    | Check                           // is anything outstanding?
    | Release
    | Fail                            // a ZooKeeper call raises
    | ForeignWrite(n: nat, d: Data)
    | Vanish(n: nat)

  predicate Enabled(s: State, e: Event)
  {
    var svc, t := s.svc, s.thread;
    match e
    case Advertise(p, d) => svc.half == None
    case FinishAdvertise => svc.half.Some? && svc.half.value in svc.advs
    case Tick => true
    case Acquire => s.scheduled > 0 && t.Idle?
    case Skip => s.scheduled > 0
    case List => t.Starting?
    case Look(p) => t.Pass? && p in t.todo && p in svc.advs
    case Compare => t.Seen? && t.path in svc.advs
    case Set => t.Setting? && t.path in svc.advs && svc.advs[t.path].realPath.Some?
    case Create => t.Creating? && t.path in svc.advs
    case Record => t.Sent? && t.path in svc.advs
    case EndPass(c) => t.Pass? && t.todo == {}
    case Check => t.Checking?
    case Release => t.Leaving?
    case Fail => t.Pass? || t.Setting? || t.Creating?
    case ForeignWrite(n, d) => n in svc.nodes
    case Vanish(n) => n in svc.nodes
  }

  function StepService(s: State, e: Event): Service
    requires Enabled(s, e)
  {
    var svc, t := s.svc, s.thread;
    match e
    case Advertise(p, d) =>
      if p in svc.advs then svc.(advs := svc.advs[p := svc.advs[p].(data := d)], half := Some(p))
      else svc.(advs := svc.advs[p := Adv(d, -1, None)])
    case FinishAdvertise =>
      var p := svc.half.value;
      svc.(advs := svc.advs[p := svc.advs[p].(version := -1)], half := None, torn := svc.torn - {p})
    case Look(p) => if Gone(svc, p) then Forget(svc, p) else svc
    case Set =>
      var a := svc.advs[t.path];
      var n := a.realPath.value;
      if n in svc.nodes then svc.(nodes := svc.nodes[n := ZNode(a.data, svc.nodes[n].version + 1)])
      else Forget(svc, t.path)
    case Create =>
      svc.(nodes := svc.nodes[svc.next := ZNode(svc.advs[t.path].data, 0)], next := svc.next + 1)
    case Record =>
      svc.(advs := svc.advs[t.path := svc.advs[t.path].(version := t.version, realPath := Some(t.node))],
           wrote := svc.wrote[t.path := t.data],
           torn := if t.touched then svc.torn + {t.path} else svc.torn - {t.path})
    case ForeignWrite(n, d) => svc.(nodes := svc.nodes[n := ZNode(d, svc.nodes[n].version + 1)])
    case Vanish(n) => svc.(nodes := map m | m in svc.nodes && m != n :: svc.nodes[m])
    case _ => svc
  }

  predicate Gone(svc: Service, p: Path)
    requires p in svc.advs
  {
    svc.advs[p].realPath.Some? && svc.advs[p].realPath.value !in svc.nodes
  }

  function Forget(svc: Service, p: Path): Service
    requires p in svc.advs
  {
    svc.(advs := svc.advs[p := svc.advs[p].(realPath := None)])
  }

  predicate NothingOutstanding(svc: Service)
  {
    forall p :: p in svc.advs ==> !svc.advs[p].Outstanding()
  }

  function StepThread(s: State, e: Event): Thread
    requires Enabled(s, e)
  {
    var svc, t := s.svc, s.thread;
    match e
    case FinishAdvertise => if t.Sent? && t.path == svc.half.value then t.(touched := true) else t
    case Acquire => Starting(0)
    case List => Pass(t.count, svc.advs.Keys)
    case Look(p) =>
      if svc.advs[p].realPath == None || Gone(svc, p) then Creating(t.count, t.todo - {p}, p)
      else Seen(t.count, t.todo - {p}, p, svc.nodes[svc.advs[p].realPath.value].version)
    case Compare =>
      if t.found != svc.advs[t.path].version then Setting(t.count, t.todo, t.path) else Pass(t.count, t.todo)
    case Set =>
      var a := svc.advs[t.path];
      var n := a.realPath.value;
      if n in svc.nodes then Sent(t.count, t.todo, t.path, n, svc.nodes[n].version + 1, a.data, false)
      else Creating(t.count, t.todo, t.path)
    case Create => Sent(t.count, t.todo, t.path, svc.next, 0, svc.advs[t.path].data, false)
    case Record => Pass(t.count, t.todo)
    case EndPass(connected) => if connected && t.count + 1 <= 10 then Checking(t.count + 1) else Leaving
    case Check => if NothingOutstanding(svc) then Leaving else Starting(t.count)
    case Release => Idle
    case Fail => Leaving
    case _ => t
  }

  function StepScheduled(s: State, e: Event): nat
    requires Enabled(s, e)
  {
    match e
    case Advertise(p, d) => if p in s.svc.advs then s.scheduled else s.scheduled + 1
    case FinishAdvertise => s.scheduled + 1
    case Tick => s.scheduled + 1
    case Acquire => s.scheduled - 1
    case Skip => s.scheduled - 1
    case _ => s.scheduled
  }

  function Step(s: State, e: Event): State
    requires Enabled(s, e)
  {
    State(StepService(s, e), StepScheduled(s, e), StepThread(s, e))
  }

  const INITIAL: State := State(Service(map[], None, map[], 0, map[], {}), 0, Idle)

  predicate Legal(s: State, es: seq<Event>)
    decreases |es|
  {
    es == [] || (Enabled(s, es[0]) && Legal(Step(s, es[0]), es[1..]))
  }

  function Exec(s: State, es: seq<Event>): State
    requires Legal(s, es)
    decreases |es|
  {
    if es == [] then s else Exec(Step(s, es[0]), es[1..])
  }

  ghost predicate Reachable(s: State)
  {
    exists es :: Legal(INITIAL, es) && Exec(INITIAL, es) == s
  }

  /* --------------------------------------------------------- the invariant */

  /** The node of the advertisement still has the version on record. */
  predicate Matches(svc: Service, p: Path)
  {
    p in svc.advs && svc.advs[p].realPath.Some? && svc.advs[p].realPath.value in svc.nodes &&
    svc.nodes[svc.advs[p].realPath.value].version == svc.advs[p].version
  }

  function NodeData(svc: Service, p: Path): Data
    requires Matches(svc, p)
  {
    svc.nodes[svc.advs[p].realPath.value].data
  }

  /** A node that is no older than the version written has either other data since, or the data written. */
  predicate Holds(svc: Service, n: nat, version: int, data: Data)
  {
    && n < svc.next
    && (n in svc.nodes ==>
          svc.nodes[n].version >= version && (svc.nodes[n].version == version ==> svc.nodes[n].data == data))
  }

  predicate AdvInv(svc: Service, p: Path)
    requires p in svc.advs
  {
    var a := svc.advs[p];
    && a.version >= -1
    && (a.realPath.Some? ==> a.realPath.value < svc.next)
    && (a.version >= 0 ==>
          p in svc.wrote && (p !in svc.torn && svc.half != Some(p) ==> svc.wrote[p] == a.data) &&
          (a.realPath.Some? ==> Holds(svc, a.realPath.value, a.version, svc.wrote[p])))
  }

  /** No two advertisements share a node. */
  predicate OwnNodes(advs: map<Path, Adv>)
  {
    forall p, q :: p in advs && q in advs && p != q && advs[p].realPath.Some? ==> advs[p].realPath != advs[q].realPath
  }

  predicate ServiceInv(svc: Service)
  {
    && (forall p :: p in svc.advs ==> AdvInv(svc, p))
    && (forall n :: n in svc.nodes ==> n < svc.next)
    && OwnNodes(svc.advs)
    && (svc.half.Some? ==> svc.half.value in svc.advs)
  }

  predicate ThreadInv(svc: Service, t: Thread)
  {
    && (t.Starting? || t.Pass? || t.Seen? || t.Setting? || t.Creating? || t.Sent? || t.Checking? ==> t.count <= 10)
    && (t.Pass? || t.Seen? || t.Setting? || t.Creating? || t.Sent? ==> forall p :: p in t.todo ==> p in svc.advs)
    && (t.Seen? || t.Setting? || t.Creating? || t.Sent? ==> t.path in svc.advs)
    && (t.Seen? || t.Setting? ==> svc.advs[t.path].realPath.Some?)
    && (t.Sent? ==>
          Holds(svc, t.node, t.version, t.data) &&
          (forall q :: q in svc.advs && q != t.path ==> svc.advs[q].realPath != Some(t.node)) &&
          (!t.touched && svc.half != Some(t.path) ==> t.data == svc.advs[t.path].data))
  }

  predicate Inv(s: State)
  {
    ServiceInv(s.svc) && ThreadInv(s.svc, s.thread)
  }

  lemma StepKeepsAdv(s: State, e: Event, p: Path)
    requires Inv(s) && Enabled(s, e) && p in StepService(s, e).advs
    ensures AdvInv(StepService(s, e), p)
  {
    if p in s.svc.advs { assert AdvInv(s.svc, p); }
  }

  lemma StepKeepsOwnNodes(s: State, e: Event)
    requires Inv(s) && Enabled(s, e)
    ensures OwnNodes(StepService(s, e).advs)
  {
    if e.Record? {
      var svc, t := s.svc, s.thread;
      assert forall q :: q in svc.advs && q != t.path ==> svc.advs[q].realPath != Some(t.node);
    }
  }

  lemma StepKeepsService(s: State, e: Event)
    requires Inv(s) && Enabled(s, e)
    ensures ServiceInv(StepService(s, e))
  {
    forall p | p in StepService(s, e).advs ensures AdvInv(StepService(s, e), p) { StepKeepsAdv(s, e, p); }
    StepKeepsOwnNodes(s, e);
  }

  lemma StepKeepsThread(s: State, e: Event)
    requires Inv(s) && Enabled(s, e)
    ensures ThreadInv(StepService(s, e), StepThread(s, e))
  {
  }

  lemma {:induction false} RunKeepsInv(s: State, es: seq<Event>)
    requires Inv(s) && Legal(s, es)
    ensures Inv(Exec(s, es))
    decreases |es|
  {
    if es != [] {
      StepKeepsService(s, es[0]);
      StepKeepsThread(s, es[0]);
      RunKeepsInv(Step(s, es[0]), es[1..]);
    }
  }

  lemma ReachableInv(s: State)
    requires Reachable(s)
    ensures Inv(s)
  {
    var es :| Legal(INITIAL, es) && Exec(INITIAL, es) == s;
    RunKeepsInv(INITIAL, es);
  }

  /* ------------------------------------------------------------ the results */

  /**
   A node that still has the version on record holds the latest advertised data, unless `advertise` is half
   way through, or came between the write and the recording of its version.
   */
  lemma RecordedNodesAreCurrent(s: State, p: Path)
    requires Reachable(s) && Matches(s.svc, p) && s.svc.half != Some(p) && p !in s.svc.torn
    ensures NodeData(s.svc, p) == s.svc.advs[p].data
  {
    ReachableInv(s);
    assert AdvInv(s.svc, p);
  }

  /** Looking for a node, or writing to it, when it is gone. */
  predicate FindsNothing(s: State, e: Event, p: Path)
  {
    p in s.svc.advs &&
    match e
    case Look(q) => q == p && Enabled(s, e) && (s.svc.advs[p].realPath == None || Gone(s.svc, p))
    case Set => Enabled(s, e) && s.thread.path == p && Gone(s.svc, p)
    case _ => false
  }

  /**
   A node that is gone is made anew in the same pass: the advertisement is outstanding from then on, and the `create`
   and its recording publish it with its data.
   */
  lemma GoneIsCreated(s: State, e: Event, p: Path)
    requires Inv(s) && FindsNothing(s, e, p)
    ensures var s1 := Step(s, e);
            && p in s1.svc.advs && s1.svc.advs[p].Outstanding() && Enabled(s1, Create)
            && var s2 := Step(s1, Create);
               Enabled(s2, Record) &&
               var svc := Step(s2, Record).svc;
               Matches(svc, p) && NodeData(svc, p) == svc.advs[p].data == s.svc.advs[p].data
  {
  }

  /** No `advertise` finishes between a write of its advertisement and the recording. */
  predicate Undivided(s: State, es: seq<Event>)
    requires Legal(s, es)
    decreases |es|
  {
    es == [] ||
    (!(es[0].FinishAdvertise? && s.thread.Sent? && s.svc.half == Some(s.thread.path)) &&
      Undivided(Step(s, es[0]), es[1..]))
  }

  lemma {:induction false} UndividedNeverTears(s: State, es: seq<Event>)
    requires Legal(s, es) && Undivided(s, es) && s.svc.torn == {} && (s.thread.Sent? ==> !s.thread.touched)
    ensures Exec(s, es).svc.torn == {}
    decreases |es|
  {
    if es != [] {
      UndividedNeverTears(Step(s, es[0]), es[1..]);
    }
  }

  /**
   If writing and recording are never divided, a node that still has the recorded version always holds the
   latest data, whatever else happens, except while its `advertise` is half way.
   */
  lemma UndividedStaysCurrent(es: seq<Event>, p: Path)
    requires Legal(INITIAL, es) && Undivided(INITIAL, es)
    requires var svc := Exec(INITIAL, es).svc; Matches(svc, p) && svc.half != Some(p)
    ensures NodeData(Exec(INITIAL, es).svc, p) == Exec(INITIAL, es).svc.advs[p].data
  {
    UndividedNeverTears(INITIAL, es);
    RecordedNodesAreCurrent(Exec(INITIAL, es), p);
  }

  /** The loop makes at most eleven passes: a pass only starts when at most ten are behind. */
  lemma AtMostElevenPasses(s: State)
    requires Reachable(s) && Enabled(s, List)
    ensures s.thread.count + 1 <= 11
  {
    ReachableInv(s);
  }

  /**
   When the loop leaves because nothing is outstanding, every advertisement has a path and a version, and
   the nodes nobody touched since hold the latest data, torn recordings aside.
   */
  lemma LeavesSettled(s: State, p: Path)
    requires Reachable(s) && Enabled(s, Check) && Step(s, Check).thread == Leaving && p in s.svc.advs
    ensures s.svc.advs[p].realPath.Some? && s.svc.advs[p].version >= 0
    ensures Matches(s.svc, p) && s.svc.half != Some(p) && p !in s.svc.torn ==> NodeData(s.svc, p) == s.svc.advs[p].data
  {
    ReachableInv(s);
    assert AdvInv(s.svc, p) && !s.svc.advs[p].Outstanding();
    if Matches(s.svc, p) && s.svc.half != Some(p) && p !in s.svc.torn { RecordedNodesAreCurrent(s, p); }
  }

  predicate Stale(svc: Service, p: Path)
  {
    Matches(svc, p) && NodeData(svc, p) != svc.advs[p].data
  }

  /** The publisher is about to overwrite the node, or has just done so. */
  predicate Underway(s: State, p: Path)
  {
    var t := s.thread;
    && (t.Seen? || t.Setting? || t.Creating? || t.Sent?) && t.path == p && p in s.svc.advs
    && (t.Seen? ==> t.found != s.svc.advs[p].version)
  }

  /** A step that concerns the advertisement from outside: `advertise`, a foreign write, a vanished node. */
  predicate Disturbs(svc: Service, e: Event, p: Path)
  {
    p in svc.advs &&
    match e
    case Advertise(q, d) => q == p
    case FinishAdvertise => svc.half == Some(p)
    case ForeignWrite(n, d) => svc.advs[p].realPath == Some(n)
    case Vanish(n) => svc.advs[p].realPath == Some(n)
    case _ => false
  }

  predicate Undisturbed(s: State, es: seq<Event>, p: Path)
    requires Legal(s, es)
    decreases |es|
  {
    es == [] || (!Disturbs(s.svc, es[0], p) && Undisturbed(Step(s, es[0]), es[1..], p))
  }

  lemma StaleStays(s: State, e: Event, p: Path)
    requires Inv(s) && Enabled(s, e) && Stale(s.svc, p) && !Underway(s, p) && !Disturbs(s.svc, e, p)
    ensures var t := Step(s, e); Stale(t.svc, p) && !Underway(t, p)
  {
    assert AdvInv(s.svc, p);
  }

  /** No pass repairs a stale node: it stays stale until something from outside concerns it. */
  lemma {:induction false} StaleUntilDisturbed(s: State, es: seq<Event>, p: Path)
    requires Inv(s) && Legal(s, es) && Stale(s.svc, p) && !Underway(s, p) && Undisturbed(s, es, p)
    ensures Stale(Exec(s, es).svc, p)
    decreases |es|
  {
    if es != [] {
      StaleStays(s, es[0], p);
      StepKeepsService(s, es[0]);
      StepKeepsThread(s, es[0]);
      StaleUntilDisturbed(Step(s, es[0]), es[1..], p);
    }
  }

  predicate RunsTo(es: seq<Event>, s: State)
  {
    Legal(INITIAL, es) && Exec(INITIAL, es) == s
  }

  lemma {:induction false} LegalNext(s: State, es: seq<Event>, e: Event)
    requires Legal(s, es) && Enabled(Exec(s, es), e)
    ensures Legal(s, es + [e]) && Exec(s, es + [e]) == Step(Exec(s, es), e)
    decreases |es|
  {
    if es == [] {
      assert [e][1..] == [];
      assert es + [e] == [e];
    } else {
      LegalNext(Step(s, es[0]), es[1..], e);
      assert (es + [e])[0] == es[0] && (es + [e])[1..] == es[1..] + [e];
    }
  }

  lemma Next(es: seq<Event>, s: State, e: Event) returns (es': seq<Event>, s': State)
    requires RunsTo(es, s) && Enabled(s, e)
    ensures RunsTo(es', s') && s' == Step(s, e)
  {
    LegalNext(INITIAL, es, e);
    es', s' := es + [e], Step(s, e);
  }

  /** The first publication of an advertisement, up to its `create`. */
  lemma FirstCreate(p: Path, a: Data) returns (es: seq<Event>, s: State)
    ensures RunsTo(es, s)
    ensures s == State(Service(map[p := Adv(a, -1, None)], None, map[0 := ZNode(a, 0)], 1, map[], {}), 0,
                       Sent(0, {}, p, 0, 0, a, false))
  {
    es, s := [], INITIAL;
    es, s := Next(es, s, Advertise(p, a));
    es, s := Next(es, s, Acquire);
    es, s := Next(es, s, List);
    assert s.thread.todo == {p};
    es, s := Next(es, s, Look(p));
    assert s.thread.todo == {};
    es, s := Next(es, s, Create);
  }

  /** `advertise` between the write and its recording: the version of the old data goes over the -1. */
  lemma TornRecording(p: Path, a: Data, b: Data) returns (es: seq<Event>, s: State)
    ensures RunsTo(es, s) && s == State(Torn(p, a, b), 1, Pass(0, {}))
  {
    es, s := FirstCreate(p, a);
    es, s := Next(es, s, Advertise(p, b));
    es, s := Next(es, s, FinishAdvertise);
    es, s := Next(es, s, Record);
  }

  /** Version 0 is on record for data `b`, but the node of version 0 holds `a`. */
  function Torn(p: Path, a: Data, b: Data): Service
  {
    Service(map[p := Adv(b, 0, Some(0))], None, map[0 := ZNode(a, 0)], 1, map[p := a], {p})
  }

  lemma TornPassEnds(p: Path, a: Data, b: Data, es0: seq<Event>, s0: State, n: nat) returns (es: seq<Event>, s: State)
    requires RunsTo(es0, s0) && s0 == State(Torn(p, a, b), n, Pass(0, {}))
    ensures RunsTo(es, s) && s == State(Torn(p, a, b), n, Idle)
  {
    es, s := Next(es0, s0, EndPass(true));
    es, s := Next(es, s, Check);
    es, s := Next(es, s, Release);
  }

  lemma TornPassFindsNothing(p: Path, a: Data, b: Data, es0: seq<Event>, s0: State) returns (es: seq<Event>, s: State)
    requires RunsTo(es0, s0) && s0 == State(Torn(p, a, b), 1, Idle)
    ensures RunsTo(es, s) && s == State(Torn(p, a, b), 0, Pass(0, {}))
  {
    es, s := Next(es0, s0, Acquire);
    es, s := Next(es, s, List);
    assert s.thread == Pass(0, {p});
    es, s := Next(es, s, Look(p));
    assert s.thread == Seen(0, {}, p, 0);
    es, s := Next(es, s, Compare);
  }

  /** The publisher scheduled for a torn recording finds nothing to do: the node keeps the old data. */
  lemma TornRecordingHappens(p: Path, a: Data, b: Data) returns (s: State)
    requires a != b
    ensures Reachable(s) && Stale(s.svc, p) && s.svc.half == None && s.scheduled == 0 && s.thread == Idle
  {
    var es;
    es, s := TornRecording(p, a, b);
    es, s := TornPassEnds(p, a, b, es, s, 1);
    es, s := TornPassFindsNothing(p, a, b, es, s);
    es, s := TornPassEnds(p, a, b, es, s, 0);
  }

  /** The first publication of an advertisement, up to the last check. */
  lemma FirstCheck(p: Path, a: Data) returns (es: seq<Event>, s: State)
    ensures RunsTo(es, s)
    ensures s.svc == Service(map[p := Adv(a, 0, Some(0))], None, map[0 := ZNode(a, 0)], 1, map[p := a], {})
    ensures s.scheduled == 0 && s.thread == Leaving
  {
    es, s := FirstCreate(p, a);
    es, s := Next(es, s, Record);
    es, s := Next(es, s, EndPass(true));
    es, s := Next(es, s, Check);
  }

  /**
   `advertise` after the last check and before the lock is free: its publisher finds the lock taken, and the
   change is left outstanding with nothing left to run.
   */
  lemma LostWakeupHappens(p: Path, a: Data, b: Data) returns (s: State)
    ensures Reachable(s) && p in s.svc.advs && s.svc.advs[p].Outstanding() && s.scheduled == 0 && s.thread == Idle
  {
    var es;
    es, s := FirstCheck(p, a);
    es, s := Next(es, s, Advertise(p, b));
    es, s := Next(es, s, FinishAdvertise);
    es, s := Next(es, s, Skip);
    es, s := Next(es, s, Release);
  }

  /* ------------------------------------------- a pass that nothing disturbs */

  predicate HasNode(svc: Service, p: Path)
  {
    p in svc.advs && svc.advs[p].realPath.Some? && svc.advs[p].realPath.value in svc.nodes
  }

  /** The advertisement and its node are what they were. */
  predicate Untouched(before: Service, after: Service, p: Path)
  {
    && p in before.advs && p in after.advs && after.advs[p] == before.advs[p]
    && (before.advs[p].realPath.Some? ==>
          var n := before.advs[p].realPath.value;
          (n in after.nodes <==> n in before.nodes) && (n in after.nodes ==> after.nodes[n] == before.nodes[n]))
  }

  /** The advertisement is published, with its data unless it was stale before. */
  predicate RepairedAt(before: Service, after: Service, p: Path)
  {
    && p in before.advs && p in after.advs && after.advs[p].data == before.advs[p].data
    && Matches(after, p) && (NodeData(after, p) == after.advs[p].data <==> !Stale(before, p))
  }

  lemma PassStep(before: Service, middle: Service, after: Service, p: Path, q: Path)
    requires q == p ==> Untouched(before, middle, q) && RepairedAt(middle, after, q)
    requires q != p ==> Untouched(middle, after, q)
    ensures q != p && Untouched(before, middle, q) ==> Untouched(before, after, q)
    ensures q == p || RepairedAt(before, middle, q) ==> RepairedAt(before, after, q)
  {
  }

  /** The advertisements in `todo` are untouched, the others are repaired. */
  predicate PassSoFar(before: Service, now: Service, todo: set<Path>)
  {
    && todo <= now.advs.Keys == before.advs.Keys
    && forall p :: p in before.advs ==> if p in todo then Untouched(before, now, p) else RepairedAt(before, now, p)
  }

  lemma PassAdvances(before: Service, middle: Service, after: Service, todo: set<Path>, p: Path)
    requires PassSoFar(before, middle, todo) && p in todo && after.advs.Keys == middle.advs.Keys
    requires RepairedAt(middle, after, p)
    requires forall q :: q in middle.advs && q != p ==> Untouched(middle, after, q)
    ensures PassSoFar(before, after, todo - {p})
  {
    forall q | q in before.advs
      ensures if q in todo - {p} then Untouched(before, after, q) else RepairedAt(before, after, q)
    {
      PassStep(before, middle, after, p, q);
    }
  }

  class ZooKeeperContainer {
    var advertisements: map<Path, Adv>
    var nodes: map<nat, ZNode>
    var next: nat

    /** The state the results above speak of, seen between two passes. */
    ghost function Svc(): Service
      reads this
    {
      Service(advertisements, None, nodes, next, map[], {})
    }

    ghost predicate Valid()
      reads this
    {
      && (forall n :: n in nodes ==> n < next) && OwnNodes(advertisements)
      && forall p :: p in advertisements && advertisements[p].realPath.Some? ==> advertisements[p].realPath.value < next
    }

    /** The body of the loop for one advertisement. */
    method PublishOne(p: Path)
      requires Valid() && p in advertisements
      modifies this
      ensures Valid() && RepairedAt(old(Svc()), Svc(), p)
      ensures advertisements.Keys == old(advertisements.Keys)
      ensures forall q :: q in advertisements && q != p ==> Untouched(old(Svc()), Svc(), q)
      ensures old(Matches(Svc(), p)) ==> Svc() == old(Svc())
      ensures old(!Matches(Svc(), p) && HasNode(Svc(), p)) ==>
                var n := old(advertisements)[p].realPath.value;
                && next == old(next)
                && nodes == old(nodes)[n := ZNode(old(advertisements)[p].data, old(nodes)[n].version + 1)]
      ensures old(!HasNode(Svc(), p)) ==>
                next == old(next) + 1 && nodes == old(nodes)[old(next) := ZNode(old(advertisements)[p].data, 0)]
    {
      var adv := advertisements[p];
      if adv.realPath.Some? {
        var n := adv.realPath.value;
        if n !in nodes {
          adv := adv.(realPath := None);
        } else if nodes[n].version != adv.version {
          nodes := nodes[n := ZNode(adv.data, nodes[n].version + 1)];
          adv := adv.(version := nodes[n].version);
        }
      }
      if adv.realPath == None {
        nodes := nodes[next := ZNode(adv.data, 0)];
        adv := adv.(realPath := Some(next), version := 0);
        next := next + 1;
      }
      advertisements := advertisements[p := adv];
    }

    /**
     One pass of `_publish_adv_at_proactor_thread` that nothing disturbs: it creates what has vanished,
     overwrites what others wrote, and leaves only what was stale before.  Then nothing is outstanding, and
     the loop ends.
     */
    method PublishPass()
      requires Valid()
      modifies this
      ensures Valid() && advertisements.Keys == old(advertisements.Keys)
      ensures forall p :: p in advertisements ==> RepairedAt(old(Svc()), Svc(), p)
      ensures NothingOutstanding(Svc())
    {
      ghost var before := Svc();
      var todo := advertisements.Keys;
      while todo != {}
        invariant Valid() && PassSoFar(before, Svc(), todo)
        decreases |todo|
      {
        var p :| p in todo;
        ghost var middle := Svc();
        PublishOne(p);
        PassAdvances(before, middle, Svc(), todo, p);
        todo := todo - {p};
      }
      forall p | p in advertisements ensures !advertisements[p].Outstanding() {
        assert RepairedAt(before, Svc(), p);
      }
    }
  }
}
