/**
 When exactly a leader loses its claim while something still rests on it: an election node that nobody
 claims any more, and LEADER! published without a claim.
 */
module LeaderClaims {
  import opened Wrappers
  import opened Leader

  /**
   A leader whose lock is free has its node standing in its live session exactly when no LOST is owed that will
   clear its claim.
   */
  lemma IdleLeaderStandsExactly(n: nat, run: seq<Move>, c: Cluster, i: nat)
    requires Reaches(n, run, c) && i < |c.insts| && c.insts[i].thread.Free? && c.insts[i].IsLeader()
    ensures Standing(c, i, c.insts[i].leaderZxid.value) <==> !LostOwed(c, i)
  {
    ReachableInv(n, run, c);
    assert InstInv(c, i);
  }

  /* ---------------------------------------------------------- own elections */

  /** The czxid of the node that the election under way created. */
  function Own(t: Thread): Option<nat>
  {
    match t
    case Created(_, z) => Some(z)
    case Writing(_, z) => Some(z)
    case Wrote(_, z) => Some(z)
    case Rechecking(_, z) => Some(z)
    case Undoing(_, z) => Some(z)
    case _ => None
  }

  /**
   The node of the election under way stands as long as its session lives; and an instance whose claim still
   stands is not about to overwrite, demote or resign it.
   */
  predicate Tidy(c: Cluster, i: nat)
    requires i < |c.insts|
  {
    var r := c.insts[i];
    && (Own(r.thread).Some? ==>
          var z := Own(r.thread).value;
          z in c.creator && c.creator[z].serial < r.serial && (r.session == Some(c.creator[z]) ==> Standing(c, i, z)))
    && (r.leaderZxid.Some? && Standing(c, i, r.leaderZxid.value) ==>
          match r.thread
          case Created(_, _) => false
          case Writing(_, _) => false
          case Demoting(_) => false
          case Released(_) => false
          case Fetched(_, y, _) => Some(y) == r.leaderZxid
          case Comparing(y, _) => Some(y) == r.leaderZxid
          case _ => true)
  }

  predicate AllTidy(c: Cluster)
  {
    forall i :: 0 <= i < |c.insts| ==> Tidy(c, i)
  }

  lemma StatementKeepsTidy(c: Cluster, i: nat)
    requires Inv(c) && Enabled(c, i, Local) && Tidy(c, i)
    ensures Tidy(Put(c, i, LocalStep(c.insts[i], i)), i)
  {
    assert InstInv(c, i);
  }

  lemma CallKeepsTidy(c: Cluster, i: nat)
    requires Inv(c) && Enabled(c, i, Call) && Tidy(c, i)
    ensures i < |Step(c, i, Call).insts| && Tidy(Step(c, i, Call), i)
  {
    assert InstInv(c, i);
  }

  lemma ConnectionKeepsTidy(c: Cluster, i: nat, a: Action)
    requires Inv(c) && Enabled(c, i, a) && Tidy(c, i)
    requires a.Suspended? || a.LostBegins? || a.LostContinues? || a.SessionStarts? || a.SessionEnds?
    ensures i < |Step(c, i, a).insts| && Tidy(Step(c, i, a), i)
  {
    assert InstInv(c, i);
  }

  lemma OwnStepKeepsTidy(c: Cluster, i: nat, a: Action)
    requires Inv(c) && Enabled(c, i, a) && Tidy(c, i)
    ensures i < |Step(c, i, a).insts| && Tidy(Step(c, i, a), i)
  {
    match a
    case Local => StatementKeepsTidy(c, i);
    case Call => CallKeepsTidy(c, i);
    case Suspended => ConnectionKeepsTidy(c, i, a);
    case LostBegins(_) => ConnectionKeepsTidy(c, i, a);
    case LostContinues => ConnectionKeepsTidy(c, i, a);
    case SessionStarts => ConnectionKeepsTidy(c, i, a);
    case SessionEnds => ConnectionKeepsTidy(c, i, a);
    case _ =>
  }

  lemma StepKeepsTidy(c: Cluster, m: Move)
    requires Inv(c) && AllTidy(c) && Enabled(c, m.inst, m.action)
    ensures AllTidy(Step(c, m.inst, m.action))
  {
    var d := Step(c, m.inst, m.action);
    StepFrames(c, m.inst, m.action);
    OwnStepKeepsTidy(c, m.inst, m.action);
    forall i | 0 <= i < |c.insts| && i != m.inst ensures Tidy(d, i) {
      OthersStayTidy(c, m, i);
    }
  }

  lemma OthersStayTidy(c: Cluster, m: Move, i: nat)
    requires Inv(c) && Enabled(c, m.inst, m.action) && i < |c.insts| && i != m.inst && Tidy(c, i)
    ensures i < |Step(c, m.inst, m.action).insts| && Tidy(Step(c, m.inst, m.action), i)
  {
    assert InstInv(c, i) && InstInv(c, m.inst);
    StepFrames(c, m.inst, m.action);
  }

  lemma {:induction false} RunKeepsTidy(c: Cluster, run: seq<Move>)
    requires Inv(c) && AllTidy(c) && Legal(c, run)
    ensures AllTidy(Exec(c, run))
    decreases |run|
  {
    if run != [] {
      StepKeepsTidy(c, run[0]);
      StepKeepsInv(c, run[0].inst, run[0].action);
      RunKeepsTidy(Step(c, run[0].inst, run[0].action), run[1..]);
    }
  }

  lemma InitInv(n: nat)
    ensures Inv(Init(n)) && AllTidy(Init(n))
  {
    ReachableInv(n, [], Init(n));
  }

  lemma ReachableTidy(n: nat, run: seq<Move>, c: Cluster)
    requires Reaches(n, run, c)
    ensures Inv(c) && |c.insts| == n && AllTidy(c)
  {
    ReachableInv(n, run, c);
    InitInv(n);
    RunKeepsTidy(Init(n), run);
  }

  /** A standing claim is never overwritten, given up for another leader's node, or cleared by a resignation. */
  lemma StandingClaimIsKept(n: nat, run: seq<Move>, c: Cluster, i: nat)
    requires Reaches(n, run, c) && i < |c.insts| && c.insts[i].IsLeader() && Standing(c, i, c.insts[i].leaderZxid.value)
    ensures var t := c.insts[i].thread; !t.Writing? && !t.Demoting? && !t.Released?
  {
    ReachableTidy(n, run, c);
    assert Tidy(c, i);
  }

  /** The session behind a late write has ended, and its LOST handler is past the statement that clears claims. */
  lemma LateWriteFollowsLost(n: nat, run: seq<Move>, c: Cluster, i: nat)
    requires Reaches(n, run, c) && i < |c.insts| && LateWrite(c, i)
    ensures c.insts[i].leaderZxid.value in c.creator
    ensures var r, s := c.insts[i], c.creator[c.insts[i].leaderZxid.value];
            && s.inst == i && s.serial < r.serial && r.session != Some(s)
            && (s in r.lost ==> r.handler == Leaderless(s) || r.handler == Infoless(s))
  {
    ReachableTidy(n, run, c);
    assert Tidy(c, i) && InstInv(c, i);
  }

  /* ----------------------------------------------------- stranded elections */

  /** The instance claims czxid `z`, or its lock holder works on it. */
  predicate Holds(r: Instance, z: nat)
  {
    r.leaderZxid == Some(z) || Concerns(r.thread, z)
  }

  /** The next statement of the lock holder gives `z` up. */
  predicate StatementLetsGo(r: Instance, z: nat)
  {
    match r.thread
    case Created(key, y) => y == z && r.electionKey != Some(key)
    case Rechecking(_, y) => y == z && r.leaderZxid != Some(z)
    case Undoing(_, y) => y == z && r.leaderZxid == Some(z)
    case _ => false
  }

  /**
   The step gives `z` up: a created node with a stale key, a recheck that finds the claim gone, a claim that
   is retracted, the LOST handler clearing a claim no thread works on, or a step-down whose call raises after
   the claim is gone.
   */
  predicate LetsGo(r: Instance, a: Action, z: nat)
  {
    match a
    case Local => StatementLetsGo(r, z)
    case LostContinues => r.handler.Keyless? && r.leaderZxid == Some(z) && !Concerns(r.thread, z)
    case CallRaises => Concerns(r.thread, z) && r.leaderZxid != Some(z)
    case _ => false
  }

  predicate Stands(c: Cluster, z: nat)
  {
    c.node.Some? && c.node.value.czxid == z
  }

  /** Only the instance that created the node can hold it. */
  lemma StrandedMeansOwnerLetGo(c: Cluster, z: nat)
    requires Inv(c) && Stands(c, z)
    ensures c.node.value.owner.inst < |c.insts|
    ensures Stranded(c, z) <==> !Holds(c.insts[c.node.value.owner.inst], z)
  {
    forall i | 0 <= i < |c.insts| && Holds(c.insts[i], z) ensures i == c.node.value.owner.inst {
      assert InstInv(c, i);
      assert Mine(c, i, z);
    }
  }

  lemma OwnStepLetsGo(c: Cluster, i: nat, a: Action, z: nat)
    requires Inv(c) && Enabled(c, i, a) && Stands(c, z) && Step(c, i, a).node == c.node
    requires Holds(c.insts[i], z) && Tidy(c, i)
    ensures !Holds(Step(c, i, a).insts[i], z) <==> LetsGo(c.insts[i], a, z)
  {
    assert InstInv(c, i);
  }

  /**
   A standing node that is held becomes stranded by a step exactly when its owner lets it go in that step.
   */
  lemma StrandedByStepExactly(c: Cluster, m: Move, z: nat)
    requires Inv(c) && AllTidy(c) && Enabled(c, m.inst, m.action) && Stands(c, z) && !Stranded(c, z)
    requires Step(c, m.inst, m.action).node == c.node
    ensures Stranded(Step(c, m.inst, m.action), z) <==>
            m.inst == c.node.value.owner.inst && LetsGo(c.insts[m.inst], m.action, z)
  {
    var d := Step(c, m.inst, m.action);
    StepKeepsInv(c, m.inst, m.action);
    StepFrames(c, m.inst, m.action);
    StrandedMeansOwnerLetGo(c, z);
    StrandedMeansOwnerLetGo(d, z);
    if m.inst == c.node.value.owner.inst { OwnStepLetsGo(c, m.inst, m.action, z); }
  }

  /** Whether the owner of the present node has let it go since the node was created. */
  predicate LetGoNow(c: Cluster, m: Move, before: bool)
    requires Enabled(c, m.inst, m.action)
  {
    Step(c, m.inst, m.action).node == c.node && c.node.Some? &&
    (before || (m.inst == c.node.value.owner.inst && LetsGo(c.insts[m.inst], m.action, c.node.value.czxid)))
  }

  predicate LetGoSince(c: Cluster, run: seq<Move>, before: bool)
    requires Legal(c, run)
    decreases |run|
  {
    if run == [] then before
    else LetGoSince(Step(c, run[0].inst, run[0].action), run[1..], LetGoNow(c, run[0], before))
  }

  predicate NodeStranded(c: Cluster)
  {
    c.node.Some? && Stranded(c, c.node.value.czxid)
  }

  lemma StepTracksStranding(c: Cluster, m: Move)
    requires Inv(c) && AllTidy(c) && Enabled(c, m.inst, m.action)
    ensures NodeStranded(Step(c, m.inst, m.action)) <==> LetGoNow(c, m, NodeStranded(c))
  {
    var d := Step(c, m.inst, m.action);
    if c.node.Some? && d.node == c.node {
      var z := c.node.value.czxid;
      if NodeStranded(c) {
        EndedSessionTakesNode(c, m);
        StepKeepsStranded(c, m, z);
      } else {
        StrandedByStepExactly(c, m, z);
      }
    } else if d.node.Some? {
      assert Concerns(d.insts[m.inst].thread, d.node.value.czxid);
    }
  }

  lemma EndedSessionTakesNode(c: Cluster, m: Move)
    requires Inv(c) && Enabled(c, m.inst, m.action) && c.node.Some? && Step(c, m.inst, m.action).node == c.node
    ensures m != Move(c.node.value.owner.inst, SessionEnds)
  {
    assert InstInv(c, m.inst);
  }

  lemma {:induction false} RunTracksStranding(c: Cluster, run: seq<Move>)
    requires Inv(c) && AllTidy(c) && Legal(c, run)
    ensures NodeStranded(Exec(c, run)) <==> LetGoSince(c, run, NodeStranded(c))
    decreases |run|
  {
    if run != [] {
      var m := run[0];
      StepTracksStranding(c, m);
      StepKeepsTidy(c, m);
      StepKeepsInv(c, m.inst, m.action);
      RunTracksStranding(Step(c, m.inst, m.action), run[1..]);
    }
  }

  /**
   In every reachable state the election node is claimed by nobody exactly when its owner let it go in some
   step since the node was created.
   */
  lemma StrandedExactly(n: nat, run: seq<Move>, c: Cluster)
    requires Reaches(n, run, c)
    ensures NodeStranded(c) <==> LetGoSince(Init(n), run, false)
  {
    InitInv(n);
    RunTracksStranding(Init(n), run);
  }

  predicate NoSuspension(run: seq<Move>)
  {
    forall k :: 0 <= k < |run| ==> !run[k].action.Suspended?
  }

  /** A session that ended and one that started after it: the LOST of the first is still owed. */
  lemma RunToSecondSession() returns (run: seq<Move>, c: Cluster)
    ensures Reaches(1, run, c) && NoSuspension(run)
    ensures c == Put(Init(1), 0, FRESH.(session := Some(Session(0, 1)), lost := {Session(0, 0)}, serial := 2))
  {
    run, c := Extend(1, [], Init(1), 0, SessionStarts);
    run, c := Extend(1, run, c, 0, SessionEnds);
    run, c := Extend(1, run, c, 0, SessionStarts);
    assert c.insts[0].lost == {Session(0, 0)};
    assert c.insts == Put(Init(1), 0, c.insts[0]).insts;
  }

  /** An election of instance 0 in its live session creates the node. */
  lemma RunToCreate(run: seq<Move>, c: Cluster, key: Key) returns (run': seq<Move>, c': Cluster)
    requires Reaches(1, run, c) && NoSuspension(run) && |c.insts| == 1 && c.node.None? && c.insts[0].thread.Free?
    requires c.insts[0].participating && c.insts[0].session.Some?
    ensures Reaches(1, run', c') && NoSuspension(run')
    ensures var s, z := c.insts[0].session.value, c.nextZxid;
            c' == Put(c, 0, c.insts[0].(electionKey := Some(key), thread := Created(key, z)))
                  .(node := Some(Node(z, s)), nextZxid := z + 1, creator := c.creator[z := s])
  {
    run', c' := Extend(1, run, c, 0, Elect);
    run', c' := Extend(1, run', c', 0, Capture(Some(key)));
    run', c' := Extend(1, run', c', 0, Local);
    run', c' := Extend(1, run', c', 0, Call);
  }

  /** The first test of the key passes and the claim is written. */
  lemma RunToWritten(run: seq<Move>, c: Cluster) returns (run': seq<Move>, c': Cluster)
    requires Reaches(1, run, c) && NoSuspension(run) && |c.insts| == 1 && c.insts[0].thread.Created?
    requires c.insts[0].electionKey == Some(c.insts[0].thread.key)
    ensures Reaches(1, run', c') && NoSuspension(run')
    ensures var r := c.insts[0];
            c' == Put(c, 0, r.(leaderZxid := Some(r.thread.czxid), thread := Wrote(r.thread.key, r.thread.czxid)))
  {
    run', c' := Extend(1, run, c, 0, Local);
    run', c' := Extend(1, run', c', 0, Local);
  }

  /** The second test of the key passes. */
  lemma RunToAnnounce(run: seq<Move>, c: Cluster) returns (run': seq<Move>, c': Cluster)
    requires Reaches(1, run, c) && NoSuspension(run) && |c.insts| == 1 && c.insts[0].thread.Wrote?
    requires c.insts[0].electionKey == Some(c.insts[0].thread.key)
    ensures Reaches(1, run', c') && NoSuspension(run')
    ensures c' == Put(c, 0, c.insts[0].(leaderInfo := Some(0), thread := Announcing))
  {
    run', c' := Extend(1, run, c, 0, Local);
    run', c' := Extend(1, run', c', 0, Local);
  }

  /** The LOST handler of session `s` runs to its end, and nothing else does. */
  lemma RunHandler(run: seq<Move>, c: Cluster, s: Session) returns (run': seq<Move>, c': Cluster)
    requires Reaches(1, run, c) && NoSuspension(run) && |c.insts| == 1
    requires c.insts[0].handler.Idle? && s in c.insts[0].lost
    ensures Reaches(1, run', c') && NoSuspension(run')
    ensures var r := c.insts[0];
            c' == Put(c, 0, r.(electionKey := None, leaderZxid := None, leaderInfo := None, lost := r.lost - {s},
                               published := r.published + [FOLLOWER]))
  {
    run', c' := Extend(1, run, c, 0, LostBegins(s));
    run', c' := Extend(1, run', c', 0, LostContinues);
    run', c' := Extend(1, run', c', 0, LostContinues);
    run', c' := Extend(1, run', c', 0, LostContinues);
  }

  /**
   No suspension is needed: the late LOST of an earlier session takes the claim from a leader that was
   elected and announced in its present session, and leaves that session's node stranded.
   */
  lemma StrandedByOldLostHappens() returns (run: seq<Move>, c: Cluster)
    ensures Reaches(1, run, c) && NoSuspension(run) && |c.insts| == 1 && NodeStranded(c)
    ensures var r := c.insts[0];
            r.session == Some(c.node.value.owner) && r.thread.Free? && r.lost == {} && r.published == [LEADER, FOLLOWER]
  {
    run, c := RunToSecondSession();
    run, c := RunToCreate(run, c, Key(Session(0, 1), 0));
    run, c := RunToWritten(run, c);
    run, c := RunToAnnounce(run, c);
    run, c := Extend(1, run, c, 0, Local);      // LEADER!
    run, c := RunHandler(run, c, Session(0, 0));
  }

  /* -------------------------------------------- announcements without a claim */

  /** Between the write of the claim and the publication of LEADER!, the retraction aside. */
  predicate Claiming(t: Thread)
  {
    t.Wrote? || t.Rechecking? || t.Announcing?
  }

  /** In this stretch nothing but the LOST handler clears a claim, and nothing sets one. */
  lemma ClaimLostByStepExactly(c: Cluster, i: nat, m: Move)
    requires Inv(c) && Enabled(c, m.inst, m.action) && i < |c.insts|
    requires Claiming(c.insts[i].thread) && c.insts[i].leaderZxid.Some?
    ensures i < |Step(c, m.inst, m.action).insts|
    ensures Step(c, m.inst, m.action).insts[i].leaderZxid.None? <==>
            m == Move(i, LostContinues) && c.insts[i].handler.Keyless?
  {
    assert InstInv(c, i);
    StepFrames(c, m.inst, m.action);
  }

  /** Whether the LOST handler of `i` has cleared `_leader_zxid` since its last election wrote it. */
  predicate ClearedNow(c: Cluster, i: nat, m: Move, before: bool)
    requires i < |c.insts|
  {
    if m == Move(i, Local) && c.insts[i].thread.Writing? then false
    else before || (m == Move(i, LostContinues) && c.insts[i].handler.Keyless?)
  }

  predicate ClearedSince(c: Cluster, i: nat, run: seq<Move>, before: bool)
    requires Legal(c, run) && i < |c.insts|
    decreases |run|
  {
    if run == [] then before
    else
      var d := Step(c, run[0].inst, run[0].action);
      i < |d.insts| && ClearedSince(d, i, run[1..], ClearedNow(c, i, run[0], before))
  }

  predicate ClaimTracked(c: Cluster, i: nat, cleared: bool)
    requires i < |c.insts|
  {
    Claiming(c.insts[i].thread) ==> (c.insts[i].leaderZxid.None? <==> cleared)
  }

  lemma OwnStatementTracksClaim(c: Cluster, i: nat, cleared: bool)
    requires Enabled(c, i, Local) && ClaimTracked(c, i, cleared)
    ensures ClaimTracked(Put(c, i, LocalStep(c.insts[i], i)), i, ClearedNow(c, i, Move(i, Local), cleared))
  {
  }

  lemma OwnStepTracksClaim(c: Cluster, i: nat, a: Action, cleared: bool)
    requires Enabled(c, i, a) && !a.Local? && ClaimTracked(c, i, cleared)
    ensures i < |Step(c, i, a).insts|
    ensures ClaimTracked(Step(c, i, a), i, ClearedNow(c, i, Move(i, a), cleared))
  {
  }

  lemma StepTracksClaim(c: Cluster, i: nat, m: Move, cleared: bool)
    requires Inv(c) && Enabled(c, m.inst, m.action) && i < |c.insts| && ClaimTracked(c, i, cleared)
    ensures i < |Step(c, m.inst, m.action).insts|
    ensures ClaimTracked(Step(c, m.inst, m.action), i, ClearedNow(c, i, m, cleared))
  {
    if m.inst != i {
      StepFrames(c, m.inst, m.action);
    } else if m.action.Local? {
      OwnStatementTracksClaim(c, i, cleared);
    } else {
      OwnStepTracksClaim(c, i, m.action, cleared);
    }
  }

  lemma {:induction false} RunTracksClaim(c: Cluster, i: nat, run: seq<Move>, cleared: bool)
    requires Inv(c) && Legal(c, run) && i < |c.insts| && ClaimTracked(c, i, cleared)
    ensures i < |Exec(c, run).insts|
    ensures ClaimTracked(Exec(c, run), i, ClearedSince(c, i, run, cleared))
    decreases |run|
  {
    if run != [] {
      var d := Step(c, run[0].inst, run[0].action);
      StepTracksClaim(c, i, run[0], cleared);
      StepKeepsInv(c, run[0].inst, run[0].action);
      RunTracksClaim(d, i, run[1..], ClearedNow(c, i, run[0], cleared));
    }
  }

  /** The step publishes LEADER! for instance `i`. */
  predicate Announces(c: Cluster, i: nat, m: Move)
  {
    i < |c.insts| && m == Move(i, Local) && c.insts[i].thread.Announcing?
  }

  lemma OwnStepPublishes(c: Cluster, i: nat, a: Action)
    requires Enabled(c, i, a)
    ensures var before, after := c.insts[i].published, Step(c, i, a).insts[i].published;
            if Announces(c, i, Move(i, a)) then after == before + [LEADER] else after in {before, before + [FOLLOWER]}
  {
  }

  lemma OnlyAnnouncingPublishesLeader(c: Cluster, i: nat, m: Move)
    requires Inv(c) && Enabled(c, m.inst, m.action) && i < |c.insts|
    ensures i < |Step(c, m.inst, m.action).insts|
    ensures multiset(Step(c, m.inst, m.action).insts[i].published)[LEADER] ==
            multiset(c.insts[i].published)[LEADER] + if Announces(c, i, m) then 1 else 0
  {
    if m.inst != i { StepFrames(c, m.inst, m.action); } else { OwnStepPublishes(c, i, m.action); }
  }

  /**
   Over every run: LEADER! is published without a claim exactly when the LOST handler has cleared
   `_leader_zxid` since the election wrote it.
   */
  lemma AnnouncedWithoutClaimExactly(n: nat, run: seq<Move>, c: Cluster, i: nat, m: Move)
    requires Reaches(n, run, c) && Announces(c, i, m) && i < n
    ensures !c.insts[i].IsLeader() <==> ClearedSince(Init(n), i, run, false)
  {
    InitInv(n);
    RunTracksClaim(Init(n), i, run, false);
  }

  /**
   The recheck does not detect every such case: the LOST of an earlier session that began before the election
   stored its key clears the claim, the recheck passes, and the instance announces itself with a good key, in
   the live session that owns the node, without a claim.
   */
  lemma RecheckMissesOldLostHappens() returns (run: seq<Move>, c: Cluster)
    ensures Reaches(1, run, c) && |c.insts| == 1 && Announces(c, 0, Move(0, Local)) && !c.insts[0].IsLeader()
    ensures c.node.Some? && c.insts[0].session == Some(c.node.value.owner) && c.insts[0].electionKey.Some?
  {
    run, c := RunToSecondSession();
    run, c := Extend(1, run, c, 0, LostBegins(Session(0, 0)));
    run, c := RunToCreate(run, c, Key(Session(0, 1), 0));
    run, c := RunToWritten(run, c);
    run, c := Extend(1, run, c, 0, LostContinues);
    run, c := RunToAnnounce(run, c);
  }
}
