/**
 The tasks of the discovery service on one event loop, interleaved at their awaits.

 A task is a watch event being applied or a rescan.  Between two awaits a task runs alone, so each step
 below is one such stretch; the state it works on is that of `Discovery.DiscoveryService` together with
 the rescan lock and the flag that asks for a rescan.
 */
module DiscoveryTasks {
  import opened Wrappers
  import opened Discovery
  import opened Selections

  datatype Task =
    | Changing(item: Name, data: Option<Record>) // before the raw table is written; no data means DELETED
    | Applying(rescan: bool)                     // before the cache is rebuilt, possibly inside a rescan
    | Requesting                                 // a rescan before it sets the flag
    | Waiting                                    // a rescan that saw the lock free, before it takes it
    | Looping                                    // holds the lock, before the test of the flag
    | Scanning                                   // holds the lock, waits for the scan
    | Swapping(items: seq<(Name, Record)>)       // holds the lock, before the raw table is replaced
    | Finished

  /** How a scan ends: with items, by giving up, which yields none, or by raising. */
  datatype ScanResult = Items(items: seq<(Name, Record)>) | GaveUp | Raised

  /** What reading one listed node comes to. */
  datatype Reading = Got(item: Name, data: Record) | NoNode | ConnectionLost | Broken

  /** The last three fields record when things happened; `clock` counts steps. */
  datatype Service = Service(
    raw: Raw,
    cache: Cache,
    ready: bool,
    requested: bool,
    locked: bool,
    clock: nat,
    lastRequest: nat,
    lastScan: nat,
    lastRaise: nat)

  datatype State = State(svc: Service, tasks: seq<Task>)

  datatype Action =
    | WatchEvent(item: Name, data: Option<Record>) // schedules `_on_change`
    | AskRescan                                    // schedules `_rescan_advertised_instances`
    | Run(task: nat, result: ScanResult)           // runs a task to its next await; `result` ends a scan

  const START: State := State(Service(map[], map[], false, false, false, 1, 0, 0, 0), [])

  predicate HoldsLock(t: Task)
  {
    t.Looping? || t.Scanning? || t.Swapping? || t == Applying(true)
  }

  predicate Enabled(s: State, a: Action)
  {
    a.Run? ==>
      a.task < |s.tasks| && !s.tasks[a.task].Finished? && (s.tasks[a.task].Waiting? ==> !s.svc.locked)
  }

  /** Where task `t` stands after its next stretch. */
  function NextTask(d: Service, t: Task, result: ScanResult): Task
  {
    match t
    case Changing(item, data) => if data.Some? || item in d.raw then Applying(false) else Finished
    case Applying(rescan) => if rescan then Looping else Finished
    case Requesting => if d.locked then Finished else Waiting
    case Waiting => Looping
    case Looping => if d.requested then Scanning else Finished
    case Scanning =>
      (match result
       case Items(items) => Swapping(items)
       case GaveUp => Swapping([])
       case Raised => Finished)
    case Swapping(_) => Applying(true)
    case Finished => Finished
  }

  /** What the stretch does to the service. */
  function NextService(d: Service, t: Task, result: ScanResult): Service
  {
    match t
    case Changing(item, data) => d.(raw := if data.Some? then d.raw[item := data.value] else d.raw - {item})
    case Applying(_) => d.(cache := Index(d.raw), ready := true)
    case Requesting => d.(requested := true, lastRequest := d.clock)
    case Waiting => d.(locked := true)
    case Looping => if d.requested then d.(requested := false, lastScan := d.clock) else d.(locked := false)
    case Scanning => if result.Raised? then d.(locked := false, lastRaise := d.clock) else d
    case Swapping(items) => d.(raw := TableOf(items))
    case Finished => d
  }

  function Tick(d: Service): Service
  {
    d.(clock := d.clock + 1)
  }

  function Step(s: State, a: Action): State
    requires Enabled(s, a)
  {
    match a
    case WatchEvent(item, data) => State(Tick(s.svc), s.tasks + [Changing(item, data)])
    case AskRescan => State(Tick(s.svc), s.tasks + [Requesting])
    case Run(i, result) =>
      State(Tick(NextService(s.svc, s.tasks[i], result)), s.tasks[i := NextTask(s.svc, s.tasks[i], result)])
  }

  predicate Legal(s: State, run: seq<Action>)
    decreases |run|
  {
    run == [] || (Enabled(s, run[0]) && Legal(Step(s, run[0]), run[1..]))
  }

  function Exec(s: State, run: seq<Action>): State
    requires Legal(s, run)
    decreases |run|
  {
    if run == [] then s else Exec(Step(s, run[0]), run[1..])
  }

  /* ------------------------------------------------------------ invariant */

  datatype Kind = ApplyingTask | WaitingTask | LockHolder

  predicate Is(t: Task, kind: Kind)
  {
    match kind
    case ApplyingTask => t.Applying?
    case WaitingTask => t.Waiting?
    case LockHolder => HoldsLock(t)
  }

  ghost predicate SomeTask(s: State, kind: Kind)
  {
    exists i :: 0 <= i < |s.tasks| && Is(s.tasks[i], kind)
  }

  /** The cache is the index of the current table, or a task will still rebuild it. */
  ghost predicate CacheInv(s: State)
  {
    s.svc.ready ==> s.svc.cache == Index(s.svc.raw) || SomeTask(s, ApplyingTask)
  }

  /** One rescan at a time: the lock is held exactly while one task is inside the loop. */
  ghost predicate LockInv(s: State)
  {
    (s.svc.locked <==> SomeTask(s, LockHolder)) &&
    (forall i, j :: 0 <= i < |s.tasks| && 0 <= j < |s.tasks| && HoldsLock(s.tasks[i]) && HoldsLock(s.tasks[j]) ==>
      i == j)
  }

  /** Every request was followed by the start of a scan, or a rescan is still to see it, or a scan raised since. */
  ghost predicate RequestInv(s: State)
  {
    s.svc.lastRequest < s.svc.clock && s.svc.lastScan < s.svc.clock && s.svc.lastRaise < s.svc.clock &&
    if s.svc.requested then s.svc.locked || SomeTask(s, WaitingTask) || s.svc.lastRequest < s.svc.lastRaise
    else s.svc.lastRequest < s.svc.lastScan || s.svc.lastRequest == 0
  }

  ghost predicate Inv(s: State)
  {
    CacheInv(s) && LockInv(s) && RequestInv(s)
  }

  /** Only task `i` changes in a step, and tasks never disappear. */
  lemma StepTasks(s: State, a: Action) returns (i: nat)
    requires Enabled(s, a)
    ensures i == if a.Run? then a.task else |s.tasks|
    ensures i < |Step(s, a).tasks| && |s.tasks| <= |Step(s, a).tasks|
    ensures forall k :: 0 <= k < |Step(s, a).tasks| && k != i ==> k < |s.tasks| && Step(s, a).tasks[k] == s.tasks[k]
    ensures !a.Run? ==> Step(s, a).tasks[i].Changing? || Step(s, a).tasks[i].Requesting?
  {
    i := if a.Run? then a.task else |s.tasks|;
  }

  /** A task of the given kind is left, unless the only one was the task that ran. */
  lemma StillThere(s: State, a: Action, kind: Kind)
    requires Enabled(s, a) && SomeTask(s, kind)
    requires a.Run? && Is(s.tasks[a.task], kind) ==> Is(Step(s, a).tasks[a.task], kind)
    ensures SomeTask(Step(s, a), kind)
  {
    var i := StepTasks(s, a);
    var k :| 0 <= k < |s.tasks| && Is(s.tasks[k], kind);
    assert Is(Step(s, a).tasks[k], kind);
  }

  /** A stretch leads to a rebuild, is one, or leaves the raw table and the cache alone. */
  lemma StretchAndCache(d: Service, t: Task, result: ScanResult)
    ensures var d' := NextService(d, t, result);
            || NextTask(d, t, result).Applying?
            || (t.Applying? && d'.cache == Index(d'.raw))
            || (!t.Applying? && d'.raw == d.raw && d'.cache == d.cache && d'.ready == d.ready)
  {
    if t.Changing? && t.data.None? && t.item !in d.raw {
      assert d.raw - {t.item} == d.raw;
    }
  }

  lemma StepKeepsCache(s: State, a: Action)
    requires Inv(s) && Enabled(s, a)
    ensures CacheInv(Step(s, a))
  {
    var s' := Step(s, a);
    if a.Run? {
      StretchAndCache(s.svc, s.tasks[a.task], a.result);
    }
    if a.Run? && s'.tasks[a.task].Applying? {
      assert Is(s'.tasks[a.task], ApplyingTask);
    } else if !(a.Run? && s.tasks[a.task].Applying?) && SomeTask(s, ApplyingTask) {
      StillThere(s, a, ApplyingTask);
    }
  }

  lemma StepKeepsLock(s: State, a: Action)
    requires Inv(s) && Enabled(s, a)
    ensures LockInv(Step(s, a))
  {
    var s' := Step(s, a);
    var i := StepTasks(s, a);
    if i < |s.tasks| && Is(s.tasks[i], LockHolder) {
      assert SomeTask(s, LockHolder);
    } else if s.svc.locked {
      StillThere(s, a, LockHolder);
    }
    if Is(s'.tasks[i], LockHolder) {
      assert SomeTask(s', LockHolder);
    }
  }

  lemma ScheduleKeepsRequests(s: State, a: Action)
    requires Inv(s) && Enabled(s, a) && !a.Run?
    ensures RequestInv(Step(s, a))
  {
    if SomeTask(s, WaitingTask) { StillThere(s, a, WaitingTask); }
  }

  lemma StretchKeepsRequests(s: State, a: Action)
    requires Inv(s) && Enabled(s, a) && a.Run?
    ensures RequestInv(Step(s, a))
  {
    var t := s.tasks[a.task];
    if Step(s, a).tasks[a.task].Waiting? {
      assert Is(Step(s, a).tasks[a.task], WaitingTask);
    } else if !t.Waiting? && SomeTask(s, WaitingTask) {
      StillThere(s, a, WaitingTask);
    }
    if HoldsLock(t) { assert Is(t, LockHolder) && SomeTask(s, LockHolder); }
  }

  lemma {:induction false} RunKeepsInv(s: State, run: seq<Action>)
    requires Inv(s) && Legal(s, run)
    ensures Inv(Exec(s, run))
    decreases |run|
  {
    if run != [] {
      StepKeepsCache(s, run[0]);
      StepKeepsLock(s, run[0]);
      if run[0].Run? { StretchKeepsRequests(s, run[0]); } else { ScheduleKeepsRequests(s, run[0]); }
      RunKeepsInv(Step(s, run[0]), run[1..]);
    }
  }

  /* ------------------------------------------------------------- theorems */

  /**
   In every interleaving, once the service is ready the cache is the index of the current raw table or a
   running task has yet to apply it; without such a task a lookup finds exactly what a scan of the table finds.
   */
  lemma ReadyCacheIsCurrent(run: seq<Action>, s: State)
    requires Legal(START, run) && s == Exec(START, run) && s.svc.ready
    ensures s.svc.cache == Index(s.svc.raw) || SomeTask(s, ApplyingTask)
    ensures (forall i :: 0 <= i < |s.tasks| ==> !s.tasks[i].Applying?) ==>
              forall query, e :: CacheFinds(s.svc.cache, query, e) <==> ScanFinds(s.svc.raw, query, e)
  {
    RunKeepsInv(START, run);
    if forall i :: 0 <= i < |s.tasks| ==> !s.tasks[i].Applying? {
      forall query, e ensures CacheFinds(s.svc.cache, query, e) <==> ScanFinds(s.svc.raw, query, e) {
        IndexAnswersLikeScan(s.svc.raw, query, e);
      }
    }
  }

  /** At most one rescan is past the lock at any time. */
  lemma OneRescanAtATime(run: seq<Action>, s: State, i: nat, j: nat)
    requires Legal(START, run) && s == Exec(START, run) && i < |s.tasks| && j < |s.tasks|
    requires HoldsLock(s.tasks[i]) && HoldsLock(s.tasks[j])
    ensures i == j && s.svc.locked
  {
    RunKeepsInv(START, run);
    assert SomeTask(s, LockHolder);
  }

  /**
   A request is never forgotten: once no rescan is left that could serve it, a scan has started after the
   latest request, unless a scan raised after that request.
   */
  lemma RequestsAreServed(run: seq<Action>, s: State)
    requires Legal(START, run) && s == Exec(START, run) && s.svc.lastRequest > 0
    requires forall i :: 0 <= i < |s.tasks| ==> !HoldsLock(s.tasks[i]) && !s.tasks[i].Waiting?
    ensures s.svc.lastRequest < s.svc.lastScan || s.svc.lastRequest < s.svc.lastRaise
  {
    RunKeepsInv(START, run);
  }

  /**
   What a watch event changes for lookups: once its task has rebuilt the cache undisturbed, they find what the
   event's record and the records under other names offer, and nothing else.
   */
  lemma WatchEventIsSeen(s: State, i: nat, result: ScanResult, query: map<IdType, Name>, e: Endpoint)
    requires i < |s.tasks| && s.tasks[i].Changing? && NextTask(s.svc, s.tasks[i], result).Applying?
    ensures Enabled(s, Run(i, result)) && Enabled(Step(s, Run(i, result)), Run(i, result))
    ensures var d := Step(Step(s, Run(i, result)), Run(i, result)).svc;
            var item, data := s.tasks[i].item, s.tasks[i].data;
            CacheFinds(d.cache, query, e) <==>
            exists t :: t in query && ((data.Some? && Offers(data.value, Offer(t, query[t], e))) ||
                                       OfferedByOthers(s.svc.raw, item, Offer(t, query[t], e)))
  {
    var d := Step(Step(s, Run(i, result)), Run(i, result)).svc;
    var (item, data) := (s.tasks[i].item, s.tasks[i].data);
    IndexAnswersLikeScan(d.raw, query, e);
    forall t | t in query
      ensures Offered(d.raw, Offer(t, query[t], e)) <==>
              (data.Some? && Offers(data.value, Offer(t, query[t], e))) ||
                OfferedByOthers(s.svc.raw, item, Offer(t, query[t], e))
    {
      if data.Some? {
        ChangedOffers(s.svc.raw, item, data.value, Offer(t, query[t], e));
      } else {
        DeletedOffers(s.svc.raw, item, Offer(t, query[t], e));
      }
    }
  }

  /**
   Overlapping requests coalesce: one that meets a rescan under way ends at once, and that rescan starts another scan
   when it tests the flag again.
   */
  lemma RequestsCoalesce(s: State, i: nat, j: nat, result: ScanResult)
    requires i < |s.tasks| && j < |s.tasks| && s.tasks[i].Requesting? && s.tasks[j].Looping? && s.svc.locked
    ensures Enabled(s, Run(i, result)) && Enabled(Step(s, Run(i, result)), Run(j, result))
    ensures var s1 := Step(s, Run(i, result));
            s1.tasks[i].Finished? && s1.svc.locked && Step(s1, Run(j, result)).tasks[j].Scanning?
  {
  }

  /** The records that were read. */
  function Found(readings: seq<Reading>): seq<(Name, Record)>
  {
    if readings == [] then []
    else
      var before, r := Found(readings[..|readings| - 1]), readings[|readings| - 1];
      if r.Got? then before + [(r.item, r.data)] else before
  }

  ghost function GotAt(readings: seq<Reading>): set<nat>
  {
    set k: nat | k < |readings| && readings[k].Got?
  }

  /** The items are the records read at the positions `ks`. */
  ghost predicate ItemsAt(readings: seq<Reading>, ks: seq<nat>, items: seq<(Name, Record)>)
  {
    |items| == |ks| && forall i :: 0 <= i < |ks| ==>
      ks[i] < |readings| && readings[ks[i]] == Got(items[i].0, items[i].1)
  }

  lemma GotNext(front: seq<Reading>, last: Reading)
    ensures GotAt(front + [last]) == if last.Got? then GotAt(front) + {|front|} else GotAt(front)
  {
    forall k: nat ensures k in GotAt(front + [last]) <==> k in GotAt(front) || (k == |front| && last.Got?) {
      if k < |front| { assert (front + [last])[k] == front[k]; }
    }
  }

  /** Every record that was read is found, in order, and nothing else. */
  lemma {:induction false} FoundExactly(readings: seq<Reading>) returns (ks: seq<nat>)
    ensures Enumerates(ks, GotAt(readings)) && ItemsAt(readings, ks, Found(readings))
  {
    if readings == [] {
      ks := [];
    } else {
      var front, last := readings[..|readings| - 1], readings[|readings| - 1];
      ks := FoundExactly(front);
      assert readings == front + [last];
      GotNext(front, last);
      if last.Got? {
        EnumeratesNext(ks, GotAt(front), |front|);
        ks := ks + [|front|];
      }
    }
  }

  predicate Readable(r: Reading)
  {
    r.Got? || r.NoNode?
  }

  /**
   `_iter_zk_items`; no listing means that listing the nodes raised, whatever the reason.  Giving up loses the
   records that were already read.
   */
  method IterItems(listing: Option<seq<Reading>>) returns (r: ScanResult)
    ensures r.Items? <==> listing.Some? && forall k :: 0 <= k < |listing.value| ==> Readable(listing.value[k])
    ensures r.Items? ==> exists ks :: Enumerates(ks, GotAt(listing.value)) && ItemsAt(listing.value, ks, r.items)
    ensures r.GaveUp? <==>
            listing.None? ||
            exists k :: 0 <= k < |listing.value| && listing.value[k].ConnectionLost? &&
                        forall j :: 0 <= j < k ==> Readable(listing.value[j])
  {
    if listing.None? { return GaveUp; }
    var readings := listing.value;
    var result: seq<(Name, Record)> := [];
    for k := 0 to |readings|
      invariant result == Found(readings[..k]) && forall j :: 0 <= j < k ==> Readable(readings[j])
    {
      assert readings[..k + 1][..k] == readings[..k];
      match readings[k] {
        case Got(item, data) => result := result + [(item, data)];
        case NoNode =>
        case ConnectionLost => return GaveUp;
        case Broken => return Raised;
      }
    }
    assert readings[..|readings|] == readings;
    ghost var ks := FoundExactly(readings);
    return Items(result);
  }

  /**
   What a finished scan changes for lookups: if the rescan runs on undisturbed, they find what the last item of each
   name offers, and nothing of what was there before.
   */
  lemma ScanIsSeen(s: State, i: nat, items: seq<(Name, Record)>, result: ScanResult, query: map<IdType, Name>,
                   e: Endpoint)
    requires i < |s.tasks| && s.tasks[i].Scanning?
    ensures Enabled(s, Run(i, Items(items)))
    ensures var s1 := Step(s, Run(i, Items(items)));
            Enabled(s1, Run(i, result)) && Enabled(Step(s1, Run(i, result)), Run(i, result)) &&
            var d := Step(Step(s1, Run(i, result)), Run(i, result)).svc;
            d.ready &&
            (CacheFinds(d.cache, query, e) <==>
             exists k, t :: 0 <= k < |items| && t in query && Offers(items[k].1, Offer(t, query[t], e)) &&
                            forall j :: k < j < |items| ==> items[j].0 != items[k].0)
  {
    var d := Step(Step(Step(s, Run(i, Items(items))), Run(i, result)), Run(i, result)).svc;
    assert d.raw == TableOf(items) && d.cache == Index(d.raw);
    IndexAnswersLikeScan(d.raw, query, e);
    if t :| t in query && Offered(d.raw, Offer(t, query[t], e)) {
      var n :| n in d.raw && Offers(d.raw[n], Offer(t, query[t], e));
      TableOfExactly(items, n, d.raw[n]);
      var k :| 0 <= k < |items| && items[k] == (n, d.raw[n]) && forall j :: k < j < |items| ==> items[j].0 != n;
      assert Offers(items[k].1, Offer(t, query[t], e));
    }
    if k, t :| 0 <= k < |items| && t in query && Offers(items[k].1, Offer(t, query[t], e)) &&
               forall j :: k < j < |items| ==> items[j].0 != items[k].0
    {
      var (n, r) := items[k];
      TableOfExactly(items, n, r);
      assert n in d.raw && Offers(d.raw[n], Offer(t, query[t], e));
      assert Offered(d.raw, Offer(t, query[t], e));
    }
  }

  /**
   A scan that gives up, because listing the nodes raised or the connection was lost while reading them,
   empties the raw table: if the rescan then runs on undisturbed, every lookup comes back empty, whatever was
   advertised before.
   */
  lemma GivingUpForgetsEverything(s: State, i: nat, result: ScanResult)
    requires i < |s.tasks| && s.tasks[i].Scanning?
    ensures Enabled(s, Run(i, GaveUp))
    ensures var s1 := Step(s, Run(i, GaveUp));
            Enabled(s1, Run(i, result)) && Enabled(Step(s1, Run(i, result)), Run(i, result)) &&
            var d := Step(Step(s1, Run(i, result)), Run(i, result)).svc;
            d.raw == map[] && d.ready && forall query, e :: !CacheFinds(d.cache, query, e)
  {
    var s1 := Step(s, Run(i, GaveUp));
    var d := Step(Step(s1, Run(i, result)), Run(i, result)).svc;
    forall query, e ensures !CacheFinds(d.cache, query, e) {
      IndexAnswersLikeScan(map[], query, e);
      assert !ScanFinds(map[], query, e);
    }
  }

  predicate RunsTo(run: seq<Action>, s: State)
  {
    Legal(START, run) && Exec(START, run) == s
  }

  lemma {:induction false} LegalNext(s: State, run: seq<Action>, a: Action)
    requires Legal(s, run) && Enabled(Exec(s, run), a)
    ensures Legal(s, run + [a]) && Exec(s, run + [a]) == Step(Exec(s, run), a)
    decreases |run|
  {
    if run == [] {
      assert [a][1..] == [] && run + [a] == [a];
    } else {
      LegalNext(Step(s, run[0]), run[1..], a);
      assert (run + [a])[0] == run[0] && (run + [a])[1..] == run[1..] + [a];
    }
  }

  lemma Next(run: seq<Action>, s: State, a: Action) returns (run': seq<Action>, s': State)
    requires RunsTo(run, s) && Enabled(s, a)
    ensures RunsTo(run', s') && s' == Step(s, a)
  {
    LegalNext(START, run, a);
    run', s' := run + [a], Step(s, a);
  }

  /** A first watch event is applied: lookups find what its record offers. */
  lemma FoundAfterFirstEvent(item: Name, data: Record, x: Offer) returns (run: seq<Action>, s: State)
    requires Offers(data, x)
    ensures RunsTo(run, s) && s.svc.raw == map[item := data] && s.svc.ready && !s.svc.locked && s.tasks == [Finished]
    ensures CacheFinds(s.svc.cache, map[x.t := x.id], x.e)
  {
    run, s := [], START;
    run, s := Next(run, s, WatchEvent(item, Some(data)));
    ghost var changing := s;
    run, s := Next(run, s, Run(0, GaveUp));
    run, s := Next(run, s, Run(0, GaveUp));
    var query := map[x.t := x.id];
    WatchEventIsSeen(changing, 0, GaveUp, query, x.e);
    assert x == Offer(x.t, query[x.t], x.e);
  }

  /** The table and the lookups can hold anything before: any record is found while such a scan is under way. */
  lemma FoundDuringScanHappens(item: Name, data: Record, x: Offer) returns (run: seq<Action>, s: State)
    requires Offers(data, x)
    ensures RunsTo(run, s) && |s.tasks| == 2 && s.tasks[1].Scanning?
    ensures s.svc.raw == map[item := data] && s.svc.ready && CacheFinds(s.svc.cache, map[x.t := x.id], x.e)
  {
    run, s := FoundAfterFirstEvent(item, data, x);
    run, s := Next(run, s, AskRescan);
    run, s := Next(run, s, Run(1, GaveUp));
    run, s := Next(run, s, Run(1, GaveUp));
    run, s := Next(run, s, Run(1, GaveUp));
  }
}
