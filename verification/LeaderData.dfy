/**
 Whose data `LeaderInfo` holds, and which steps publish FOLLOWER!.
 */
module LeaderData {
  import opened Wrappers
  import opened Leader
  import opened LeaderClaims

  /** An election that found a node holds the data of the instance that created it. */
  lemma FetchedDataIsTheCreators(n: nat, run: seq<Move>, c: Cluster, i: nat)
    requires Reaches(n, run, c) && i < |c.insts|
    ensures match c.insts[i].thread
            case Fetched(_, z, info) => z in c.creator && info == c.creator[z].inst
            case Comparing(z, info) => z in c.creator && info == c.creator[z].inst
            case _ => true
  {
    ReachableInv(n, run, c);
    assert InstInv(c, i);
  }

  /** Instance `j` created an election node at some time. */
  ghost predicate HasCreated(c: Cluster, j: nat)
  {
    exists z :: Mine(c, j, z)
  }

  /** The leader data that the lock holder is about to store. */
  function ToStore(t: Thread): Option<nat>
  {
    match t
    case Demoting(info) => Some(info)
    case Demoted(info) => Some(info)
    case _ => None
  }

  /** A leader past the write of its data names itself, and any leader data names a creator of election nodes. */
  ghost predicate NamesRight(c: Cluster, i: nat)
    requires i < |c.insts|
  {
    var r := c.insts[i];
    && (r.leaderZxid.Some? && !r.thread.Wrote? ==> r.leaderInfo in {None, Some(i)})
    && (r.leaderInfo.Some? ==> HasCreated(c, r.leaderInfo.value))
    && (ToStore(r.thread).Some? ==> r.leaderZxid.None? || r.thread.Demoting?)
    && (ToStore(r.thread).Some? ==> HasCreated(c, ToStore(r.thread).value))
  }

  lemma CreatorsStay(c: Cluster, d: Cluster)
    requires forall z :: z in c.creator ==> z in d.creator && d.creator[z] == c.creator[z]
    ensures forall j :: HasCreated(c, j) ==> HasCreated(d, j)
  {
    forall j | HasCreated(c, j) ensures HasCreated(d, j) {
      var z :| Mine(c, j, z);
      assert Mine(d, j, z);
    }
  }

  lemma OwnStatementNamesRight(c: Cluster, i: nat)
    requires Inv(c) && Enabled(c, i, Local) && NamesRight(c, i)
    ensures NamesRight(Put(c, i, LocalStep(c.insts[i], i)), i)
  {
    assert InstInv(c, i);
    var t, d := c.insts[i].thread, Put(c, i, LocalStep(c.insts[i], i));
    CreatorsStay(c, d);
    if t.Comparing? { assert Mine(c, t.info, t.czxid); }
    if t.Wrote? { assert Mine(c, i, t.czxid); }
  }

  lemma OwnCallNamesRight(c: Cluster, i: nat)
    requires Inv(c) && Enabled(c, i, Call) && NamesRight(c, i)
    ensures i < |Step(c, i, Call).insts| && NamesRight(Step(c, i, Call), i)
  {
    StepFrames(c, i, Call);
    CreatorsStay(c, Step(c, i, Call));
  }

  lemma OwnStepNamesRight(c: Cluster, i: nat, a: Action)
    requires Inv(c) && Enabled(c, i, a) && NamesRight(c, i)
    ensures i < |Step(c, i, a).insts| && NamesRight(Step(c, i, a), i)
  {
    if a.Local? {
      OwnStatementNamesRight(c, i);
    } else if a.Call? {
      OwnCallNamesRight(c, i);
    } else {
      StepFrames(c, i, a);
      CreatorsStay(c, Step(c, i, a));
    }
  }

  lemma OthersStepNamesRight(c: Cluster, m: Move, i: nat)
    requires Inv(c) && Enabled(c, m.inst, m.action) && i < |c.insts| && i != m.inst && NamesRight(c, i)
    ensures i < |Step(c, m.inst, m.action).insts| && NamesRight(Step(c, m.inst, m.action), i)
  {
    StepFrames(c, m.inst, m.action);
    CreatorsStay(c, Step(c, m.inst, m.action));
  }

  lemma {:induction false} RunNamesRight(c: Cluster, run: seq<Move>, i: nat)
    requires Inv(c) && Legal(c, run) && i < |c.insts| && NamesRight(c, i)
    ensures i < |Exec(c, run).insts| && NamesRight(Exec(c, run), i)
    decreases |run|
  {
    if run != [] {
      var m := run[0];
      if m.inst == i { OwnStepNamesRight(c, i, m.action); } else { OthersStepNamesRight(c, m, i); }
      StepKeepsInv(c, m.inst, m.action);
      RunNamesRight(Step(c, m.inst, m.action), run[1..], i);
    }
  }

  /**
   In every reachable state a leader whose lock is free names itself or nobody, and whoever an instance names has
   created an election node.
   */
  lemma LeaderNamesItself(n: nat, run: seq<Move>, c: Cluster, i: nat)
    requires Reaches(n, run, c) && i < n
    ensures i < |c.insts|
    ensures c.insts[i].thread.Free? && c.insts[i].IsLeader() ==> c.insts[i].leaderInfo in {None, Some(i)}
    ensures c.insts[i].leaderInfo.Some? ==>
            exists z :: z in c.creator && c.creator[z].inst == c.insts[i].leaderInfo.value
  {
    InitInv(n);
    RunNamesRight(Init(n), run, i);
    if c.insts[i].leaderInfo.Some? {
      var z :| Mine(c, c.insts[i].leaderInfo.value, z);
    }
  }

  /* ------------------------------------------------------------ publications */

  /** The step publishes FOLLOWER! for instance `i`. */
  predicate Withdraws(c: Cluster, i: nat, m: Move)
  {
    i < |c.insts| && m.inst == i &&
    var r := c.insts[i];
    match m.action
    case Local =>
      || r.thread.Demoted? || r.thread.Cleared? || (r.thread.Invalidated? && !r.IsLeader())
      || (r.thread.Created? && r.electionKey != Some(r.thread.key))
    case LostContinues => r.handler.Infoless?
    case _ => false
  }

  /**
   LEADER! is published by the last statement of an election only; FOLLOWER! exactly when an election ends behind
   another node or with a created node and a stale key, when a step-down ends without a claim, and at the end of
   the LOST handler.
   */
  lemma PublishesExactly(c: Cluster, i: nat, m: Move)
    requires Inv(c) && Enabled(c, m.inst, m.action) && i < |c.insts|
    ensures i < |Step(c, m.inst, m.action).insts|
    ensures Step(c, m.inst, m.action).insts[i].published ==
            c.insts[i].published +
            if Announces(c, i, m) then [LEADER] else if Withdraws(c, i, m) then [FOLLOWER] else []
  {
    if m.inst != i { StepFrames(c, m.inst, m.action); }
  }
}
