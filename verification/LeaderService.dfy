/**
 The methods of `LeaderService`, statement by statement.

 Between any two statements `Yield` lets everything else happen: other instances, sessions that start and
 end, and the handlers of this instance that take no lock.  Each method is shown to take nothing but steps of
 the state machine, so what holds of its runs holds of the methods under every interference.
 */
module LeaderService {
  import opened Wrappers
  import opened Leader
  import opened LeaderClaims

  /** Who runs: the thread that holds the election lock, the LOST handler, or a thread that waits for the lock. */
  datatype Activity = LockHolder | LostHandler | Waiting

  /** A move that is not the next statement of the activity itself. */
  predicate Foreign(m: Move, me: nat, who: Activity)
  {
    m.inst != me ||
    match who
    case LockHolder => !(m.action.Elect? || m.action.StepDown? || m.action.SetUp? || m.action.Capture? ||
                         m.action.Local? || m.action.Call? || m.action.CallRaises?)
    case LostHandler => !m.action.LostContinues?
    case Waiting => true
  }

  function Leaderships(r: Instance): nat
  {
    multiset(r.published)[LEADER]
  }

  /** What others do to an instance whose lock holder stands still: they clear, and publish no LEADER!. */
  predicate Interfered(before: Instance, after: Instance)
  {
    && after.participating == before.participating
    && after.leaderZxid in {None, before.leaderZxid} && after.leaderInfo in {None, before.leaderInfo}
    && after.electionKey in {None, before.electionKey}
    && Leaderships(after) == Leaderships(before)
  }

  /** How an election ends. */
  datatype Outcome =
    | NotTried     // not participating, or no connection
    | Raised       // a ZooKeeper call raised
    | StaleKey     // another leader exists, but the key is stale
    | StillLeader  // the node is the own one
    | Follows      // another leader exists: FOLLOWER!
    | Rejected     // the node was created with a stale key: FOLLOWER!
    | Retracted    // the claim was written with a stale key
    | Led          // LEADER!

  predicate SaysFollower(r: Instance)
  {
    r.published != [] && r.published[|r.published| - 1] == FOLLOWER
  }

  /** What an election with that outcome has made of the instance, whatever interfered. */
  predicate Ended(o: Outcome, before: Instance, after: Instance, me: nat)
  {
    && after.thread.Free? && after.participating == before.participating
    && Leaderships(after) == Leaderships(before) + (if o.Led? then 1 else 0)
    && match o
       case Led => after.leaderInfo in {None, Some(me)}
       case Retracted => after.leaderZxid == None && after.leaderInfo == None
       case Follows => after.leaderZxid == None && after.leaderInfo.Some? && SaysFollower(after)
       case Rejected => Kept(before, after) && SaysFollower(after)
       case _ => Kept(before, after)
  }

  /** The claim and the leader data are what they were, or cleared by a LOST. */
  predicate Kept(before: Instance, after: Instance)
  {
    after.leaderZxid in {None, before.leaderZxid} && after.leaderInfo in {None, before.leaderInfo}
  }

  /** What a step-down has made of the instance. */
  predicate Resigned(released: bool, before: Instance, after: Instance)
  {
    && after.thread.Free? && Leaderships(after) == Leaderships(before) && after.participating == before.participating
    && after.electionKey in {None, before.electionKey}
    && if released then after.leaderZxid == None && after.leaderInfo == None && SaysFollower(after)
       else Kept(before, after)
  }

  /** After `run` instance `i` is about to read the election node, and the node's data is that of instance `leader`. */
  ghost predicate Reads(n: nat, run: seq<Move>, i: nat, leader: Option<nat>)
  {
    Legal(Init(n), run) &&
    var d := Exec(Init(n), run);
    i < |d.insts| && d.insts[i].thread.Fetching? && d.node.Some? && leader == Some(d.node.value.owner.inst)
  }

  lemma ForeignStepInterferes(c: Cluster, m: Move, me: nat)
    requires me < |c.insts| && Enabled(c, m.inst, m.action) && Foreign(m, me, LockHolder)
    ensures me < |Step(c, m.inst, m.action).insts|
    ensures var r, r' := c.insts[me], Step(c, m.inst, m.action).insts[me]; Interfered(r, r') && r'.thread == r.thread
  {
    if m.inst != me { OthersLeaveAlone(c, m, me); }
  }

  lemma OthersLeaveAlone(c: Cluster, m: Move, me: nat)
    requires me < |c.insts| && Enabled(c, m.inst, m.action) && m.inst != me
    ensures me < |Step(c, m.inst, m.action).insts| && Step(c, m.inst, m.action).insts[me] == c.insts[me]
  {
  }

  /** While the lock is held, others move neither its holder nor give the instance a claim. */
  lemma {:induction false} ForeignMovesInterfere(c: Cluster, script: seq<Move>, me: nat)
    requires me < |c.insts| && Legal(c, script) && forall k :: 0 <= k < |script| ==> Foreign(script[k], me, LockHolder)
    ensures var d := Exec(c, script);
            |d.insts| == |c.insts| && Interfered(c.insts[me], d.insts[me]) && d.insts[me].thread == c.insts[me].thread
    decreases |script|
  {
    if script != [] {
      assert Foreign(script[0], me, LockHolder);
      ForeignStepInterferes(c, script[0], me);
      ForeignMovesInterfere(Step(c, script[0].inst, script[0].action), script[1..], me);
    }
  }

  /** While the LOST handler runs, others do not move it. */
  lemma {:induction false} ForeignMovesKeepHandler(c: Cluster, script: seq<Move>, me: nat)
    requires me < |c.insts| && Legal(c, script) && forall k :: 0 <= k < |script| ==> Foreign(script[k], me, LostHandler)
    requires !c.insts[me].handler.Idle?
    ensures |Exec(c, script).insts| == |c.insts| && Exec(c, script).insts[me].handler == c.insts[me].handler
    decreases |script|
  {
    if script != [] {
      assert Foreign(script[0], me, LostHandler);
      ForeignMovesKeepHandler(Step(c, script[0].inst, script[0].action), script[1..], me);
    }
  }

  /** Only a step-down ends the participation. */
  lemma {:induction false} OnlyStepDownEndsParticipation(c: Cluster, script: seq<Move>, me: nat)
    requires me < |c.insts| && Legal(c, script) && Move(me, StepDown) !in script && c.insts[me].participating
    ensures |Exec(c, script).insts| == |c.insts| && Exec(c, script).insts[me].participating
    decreases |script|
  {
    if script != [] {
      assert script[0] in script;
      OnlyStepDownEndsParticipation(Step(c, script[0].inst, script[0].action), script[1..], me);
    }
  }

  lemma {:induction false} ClearedAppend(c: Cluster, i: nat, run: seq<Move>, m: Move, before: bool)
    requires Legal(c, run) && i < |c.insts| && Enabled(Exec(c, run), m.inst, m.action) && Legal(c, run + [m])
    requires Inv(c)
    ensures i < |Exec(c, run).insts|
    ensures ClearedSince(c, i, run + [m], before) == ClearedNow(Exec(c, run), i, m, ClearedSince(c, i, run, before))
    decreases |run|
  {
    RunKeepsInv(c, run);
    if run == [] {
      assert run + [m] == [m] && [m][1..] == [];
      StepKeepsInv(c, m.inst, m.action);
      StepFrames(c, m.inst, m.action);
    } else {
      var d := Step(c, run[0].inst, run[0].action);
      assert (run + [m])[0] == run[0] && (run + [m])[1..] == run[1..] + [m];
      StepKeepsInv(c, run[0].inst, run[0].action);
      StepFrames(c, run[0].inst, run[0].action);
      ClearedAppend(d, i, run[1..], m, ClearedNow(c, i, run[0], before));
    }
  }

  lemma {:induction false} RunsAppend(c: Cluster, run: seq<Move>, more: seq<Move>)
    requires Legal(c, run) && Legal(Exec(c, run), more)
    ensures Legal(c, run + more) && Exec(c, run + more) == Exec(Exec(c, run), more)
    decreases |run|
  {
    if run == [] {
      assert run + more == more;
    } else {
      RunsAppend(Step(c, run[0].inst, run[0].action), run[1..], more);
      assert (run + more)[0] == run[0] && (run + more)[1..] == run[1..] + more;
    }
  }

  class LeaderService {
    const me: nat
    /** How many instances there are. */
    ghost const peers: nat

    /** The fields of the service, where its lock holder and its LOST handler stand, and its ZooKeeper sessions. */
    var self: Instance

    /** Everything: the election node, and all instances as they stood after the last statement of this one. */
    var world: Cluster

    ghost var history: seq<Move>

    /** The present state, this instance included, is the one that the history leads to. */
    ghost predicate Traced()
      reads this
    {
      me < |world.insts| && Reaches(peers, history, world) && world.insts[me] == self
    }

    constructor (me: nat, peers: nat)
      requires me < peers
      ensures this.me == me && this.peers == peers && Traced() && world == Init(peers) && history == []
    {
      this.me, this.peers := me, peers;
      self := FRESH;
      world, history := Init(peers), [];
    }

    /** Whatever interfered: a leader without a pending LOST owns the election node. */
    lemma LeaderOwnsTheNode()
      requires Traced() && self.thread.Free? && self.IsLeader() && self.lost == {}
      ensures world.node.Some? && world.node.value.czxid == self.leaderZxid.value
      ensures self.session == Some(world.node.value.owner)
    {
      FreeLeaderIsBacked(peers, history, world, me, self.leaderZxid.value);
    }

    /** Any moves of the others that are possible from `c`. */
    method OthersMove(c: Cluster, who: Activity) returns (script: seq<Move>)
      ensures Legal(c, script) && forall k :: 0 <= k < |script| ==> Foreign(script[k], me, who)
    {
      script := *;
      if !Legal(c, script) || exists k :: 0 <= k < |script| && !Foreign(script[k], me, who) {
        script := [];
      }
    }

    /** Whatever the rest of the world does before the next statement of the lock holder. */
    method Yield()
      requires Traced()
      modifies this
      ensures Traced() && old(history) <= history
      ensures Interfered(old(self), self) && self.thread == old(self.thread)
    {
      var script := OthersMove(world, LockHolder);
      ForeignMovesInterfere(world, script, me);
      Adopt(script);
    }

    /** Whatever the rest of the world does before the next statement of the LOST handler. */
    method YieldHandler()
      requires Traced() && !self.handler.Idle?
      modifies this
      ensures Traced() && old(history) <= history && self.handler == old(self.handler)
      ensures multiset(history)[Move(me, LostContinues)] == multiset(old(history))[Move(me, LostContinues)]
    {
      var script := OthersMove(world, LostHandler);
      ForeignMovesKeepHandler(world, script, me);
      Adopt(script);
    }

    /** Whatever happens until a waiting thread gets the lock. */
    method YieldLock()
      requires Traced()
      modifies this
      ensures Traced() && old(history) <= history && self.thread.Free? == old(self.thread).Free?
      ensures old(self.participating) && Move(me, StepDown) !in history[|old(history)|..] ==> self.participating
    {
      var script := OthersMove(world, Waiting);
      var r := Exec(world, script);
      if me >= |r.insts| || r.insts[me].thread.Free? != self.thread.Free? { script := []; }
      if self.participating && Move(me, StepDown) !in script { OnlyStepDownEndsParticipation(world, script, me); }
      Adopt(script);
      assert history[|old(history)|..] == script;
    }

    method Adopt(script: seq<Move>)
      requires Traced() && Legal(world, script) && me < |Exec(world, script).insts|
      modifies this
      ensures Traced() && history == old(history) + script
      ensures world == Exec(old(world), script) && self == world.insts[me]
    {
      RunsAppend(Init(peers), history, script);
      world := Exec(world, script);
      self := world.insts[me];
      history := history + script;
    }

    /** The statement just carried out changed nothing but this instance, and was the step `a`. */
    method Took(a: Action)
      requires me < |world.insts| && Reaches(peers, history, world)
      requires Enabled(world, me, a) && Step(world, me, a) == Put(world, me, self)
      modifies `world, `history
      ensures Traced() && history == old(history) + [Move(me, a)] && world.node == old(world.node)
    {
      ExecAppends(Init(peers), history, Move(me, a));
      history := history + [Move(me, a)];
      world := Put(world, me, self);
    }

    /** The same for a statement of the lock holder that is no ZooKeeper call. */
    method Did()
      requires me < |world.insts| && Reaches(peers, history, world)
      requires var r := world.insts[me];
               !r.thread.Free? && !r.thread.Capturing? && !AtCall(r.thread) && self == LocalStep(r, me)
      modifies `world, `history
      ensures Traced() && history == old(history) + [Move(me, Local)]
    {
      Took(Local);
    }

    /** The ZooKeeper call just carried out changed this instance, and made `after` of everything beside. */
    method Called(after: Cluster)
      requires me < |world.insts| && Reaches(peers, history, world) && after.insts == world.insts
      requires Enabled(world, me, Call) && Step(world, me, Call) == Put(after, me, self)
      modifies `world, `history
      ensures Traced() && history == old(history) + [Move(me, Call)] && world.node == after.node
    {
      ExecAppends(Init(peers), history, Move(me, Call));
      history := history + [Move(me, Call)];
      world := Put(after, me, self);
    }

    /** After LEADER!: the claim stands unless the LOST handler has cleared it since it was written. */
    ghost predicate Accounted()
      requires Traced()
      reads this
    {
      me < peers && (self.leaderZxid == None <==> ClearedSince(Init(peers), me, history, false))
    }

    /** The leader data on record is what a `get` since the `start`-th move has read. */
    ghost predicate ReadSince(start: nat)
      reads this
    {
      exists k ::
        start <= k < |history| && history[k] == Move(me, Call) && Reads(peers, history[..k], me, self.leaderInfo)
    }

    /** `_election_thread`. */
    method ElectionThread(key: Option<Key>, createRaises: bool, getRaises: bool) returns (o: Outcome)
      requires Traced() && self.thread.Free?
      modifies this
      ensures Traced() && old(history) + [Move(me, Elect)] <= history
      ensures Ended(o, old(self), self, me) && (o.NotTried? <==> !self.participating || key.None?)
      ensures self.participating ==> exists k :: |old(history)| < k < |history| && history[k] == Move(me, Capture(key))
      ensures (o.Led? ==> Accounted()) && (o.Follows? ==> ReadSince(|old(history)|))
    {
      if !self.participating {
        Took(Elect);
        return NotTried;
      }
      self := self.(thread := Capturing);
      Took(Elect);
      Yield();

      if key.None? {
        self := self.(thread := Free);
        Took(Capture(None));
        assert history[|history| - 1] == Move(me, Capture(key));
        return NotTried;
      }
      self := self.(thread := Captured(key.value));
      Took(Capture(key));
      ghost var k := |history| - 1;
      Yield();

      o := TryToLead(key.value, createRaises, getRaises);
      assert history[k] == Move(me, Capture(key));
    }

    /** The election once the key is captured. */
    method TryToLead(key: Key, createRaises: bool, getRaises: bool) returns (o: Outcome)
      requires Traced() && self.thread == Captured(key)
      modifies this
      ensures Traced() && old(history) <= history
      ensures Ended(o, old(self), self, me) && !o.NotTried? && (createRaises ==> o.Raised?)
      ensures (o.Led? ==> Accounted()) && (o.Follows? ==> ReadSince(|old(history)|))
    {
      self := self.(electionKey := Some(key), thread := Creating(key));
      Did();
      Yield();
      o := Contend(key, createRaises, getRaises);
    }

    /** `create`, and what follows from its outcome. */
    method Contend(key: Key, createRaises: bool, getRaises: bool) returns (o: Outcome)
      requires Traced() && self.thread == Creating(key)
      modifies this
      ensures Traced()
      ensures old(history) + [Move(me, if createRaises || old(self.session).None? then CallRaises else Call)] <= history
      ensures Ended(o, old(self), self, me)
      ensures if createRaises || old(self.session).None? then o.Raised?
              else if old(world.node).Some? then o in {Raised, StaleKey, StillLeader, Follows}
              else o in {Rejected, Retracted, Led}
      ensures (o.Led? ==> Accounted()) && (o.Follows? ==> ReadSince(|old(history)|))
    {
      if createRaises || self.session.None? {
        self := self.(thread := Free);
        Took(CallRaises);
        o := Raised;
      } else if world.node.Some? {
        o := FindNode(key, getRaises);
      } else {
        o := Win(key);
      }
    }

    /** `create`, when the node exists: `NodeExistsError`. */
    method FindNode(key: Key, getRaises: bool) returns (o: Outcome)
      requires Traced() && self.thread == Creating(key) && self.session.Some? && world.node.Some?
      modifies this
      ensures Traced() && old(history) + [Move(me, Call)] <= history
      ensures Ended(o, old(self), self, me) && o in {Raised, StaleKey, StillLeader, Follows}
      ensures o.Follows? ==> ReadSince(|old(history)|)
    {
      self := self.(thread := Fetching(key));
      Took(Call);
      Yield();
      o := FollowExisting(key, getRaises);
    }

    /** `create`, when there is no node, and what follows. */
    method Win(key: Key) returns (o: Outcome)
      requires Traced() && self.thread == Creating(key) && self.session.Some? && world.node.None?
      modifies this
      ensures Traced() && old(history) + [Move(me, Call)] <= history
      ensures Ended(o, old(self), self, me) && o in {Rejected, Retracted, Led}
      ensures o.Led? ==> Accounted()
    {
      CreateNode(key);
      Yield();
      o := ClaimLeadership(key, self.thread.czxid);
    }

    /** `create`, carried out. */
    method CreateNode(key: Key)
      requires Traced() && self.thread == Creating(key) && self.session.Some? && world.node.None?
      modifies this
      ensures Traced() && history == old(history) + [Move(me, Call)]
      ensures self == old(self).(thread := Created(key, old(world.nextZxid)))
      ensures world.node == Some(Node(old(world.nextZxid), old(self.session.value)))
    {
      var zxid := world.nextZxid;
      self := self.(thread := Created(key, zxid));
      Called(world.(node := Some(Node(zxid, self.session.value)), nextZxid := zxid + 1,
                    creator := world.creator[zxid := self.session.value]));
    }

    /** The election after `NodeExistsError`. */
    method FollowExisting(key: Key, raises: bool) returns (o: Outcome)
      requires Traced() && self.thread == Fetching(key)
      modifies this
      ensures Traced()
      ensures var fails := raises || old(self.session).None? || old(world.node).None?;
              && old(history) + [Move(me, if fails then CallRaises else Call)] <= history
              && if fails then o.Raised? else o in {StaleKey, StillLeader, Follows}
      ensures Ended(o, old(self), self, me)
      ensures o.Follows? ==> self.leaderInfo == Some(old(world.node).value.owner.inst)
      ensures o.Follows? ==> ReadSince(|old(history)|)
    {
      ghost var run := history;
      if raises || self.session.None? || world.node.None? {
        self := self.(thread := Free);
        Took(CallRaises);
        return Raised;
      }
      var leaderData, czxid := world.node.value.owner.inst, world.node.value.czxid;
      self := self.(thread := Fetched(key, czxid, leaderData));
      Took(Call);
      Yield();
      o := CheckKey(key, czxid, leaderData);
      assert history[..|run|] == run && history[|run|] == Move(me, Call);
    }

    /** The test of the key before a follower overwrites anything: a stale key leaves everything as it is. */
    method CheckKey(key: Key, czxid: nat, leaderData: nat) returns (o: Outcome)
      requires Traced() && self.thread == Fetched(key, czxid, leaderData)
      modifies this
      ensures Traced() && old(history) <= history
      ensures Ended(o, old(self), self, me) && o in {StaleKey, StillLeader, Follows}
      ensures o.StaleKey? <==> old(self.electionKey) != Some(key)
      ensures o.StaleKey? ==> self == old(self).(thread := Free)
      ensures o.Follows? ==> self.leaderInfo == Some(leaderData)
    {
      if self.electionKey != Some(key) {
        self := self.(thread := Free);
        Did();
        return StaleKey;
      }
      self := self.(thread := Comparing(czxid, leaderData));
      Did();
      Yield();

      o := Demote(czxid, leaderData);
    }

    /** The own node leaves everything as it is; another one makes this instance its follower. */
    method Demote(czxid: nat, leaderData: nat) returns (o: Outcome)
      requires Traced() && self.thread == Comparing(czxid, leaderData)
      modifies this
      ensures Traced() && old(history) <= history
      ensures Ended(o, old(self), self, me)
      ensures o == if old(self.leaderZxid) == Some(czxid) then StillLeader else Follows
      ensures o.StillLeader? ==> self == old(self).(thread := Free)
      ensures o.Follows? ==> self.leaderInfo == Some(leaderData)
    {
      if self.leaderZxid == Some(czxid) {
        self := self.(thread := Free);
        Did();
        return StillLeader;
      }
      self := self.(thread := Demoting(leaderData));
      Did();
      Yield();

      BecomeFollower(leaderData);
      o := Follows;
    }

    method BecomeFollower(leaderData: nat)
      requires Traced() && self.thread == Demoting(leaderData)
      modifies this
      ensures Traced() && old(history) <= history
      ensures Ended(Follows, old(self), self, me) && self.leaderInfo == Some(leaderData)
    {
      self := self.(leaderZxid := None, thread := Demoted(leaderData));
      Did();
      Yield();

      self := self.(leaderInfo := Some(leaderData), published := self.published + [FOLLOWER], thread := Free);
      Did();
    }

    /** The election after its node was created: test, write, test again, announce. */
    method ClaimLeadership(key: Key, czxid: nat) returns (o: Outcome)
      requires Traced() && self.thread == Created(key, czxid)
      modifies this
      ensures Traced() && old(history) <= history
      ensures Ended(o, old(self), self, me) && o in {Rejected, Retracted, Led}
      ensures o.Rejected? <==> old(self.electionKey) != Some(key)
      ensures o.Rejected? ==> self == old(self).(published := old(self.published) + [FOLLOWER], thread := Free)
      ensures o.Led? ==> self.leaderZxid in {None, Some(czxid)} && Accounted()
    {
      if self.electionKey != Some(key) {
        self := self.(published := self.published + [FOLLOWER], thread := Free);
        Did();
        return Rejected;
      }
      self := self.(thread := Writing(key, czxid));
      Did();
      Yield();

      o := WriteClaim(key, czxid);
    }

    method WriteClaim(key: Key, czxid: nat) returns (o: Outcome)
      requires Traced() && self.thread == Writing(key, czxid)
      modifies this
      ensures Traced() && old(history) <= history
      ensures Ended(o, old(self), self, me) && o in {Retracted, Led}
      ensures o.Led? ==> self.leaderZxid in {None, Some(czxid)} && Accounted()
    {
      self := self.(leaderZxid := Some(czxid), thread := Wrote(key, czxid));
      Did();
      Yield();

      o := WriteInfo(key, czxid);
    }

    method WriteInfo(key: Key, czxid: nat) returns (o: Outcome)
      requires Traced() && self.thread == Wrote(key, czxid)
      modifies this
      ensures Traced() && old(history) <= history
      ensures Ended(o, old(self), self, me) && o in {Retracted, Led}
      ensures o.Led? ==> self.leaderZxid in {None, old(self.leaderZxid)} && Accounted()
    {
      self := self.(leaderInfo := Some(me), thread := Rechecking(key, czxid));
      Did();
      Yield();

      o := ConfirmLeadership(key, czxid);
    }

    /** The second test of the key: LEADER! follows exactly an unchanged key. */
    method ConfirmLeadership(key: Key, czxid: nat) returns (o: Outcome)
      requires Traced() && self.thread == Rechecking(key, czxid) && self.leaderInfo in {None, Some(me)}
      modifies this
      ensures Traced() && old(history) <= history
      ensures Ended(o, old(self), self, me)
      ensures o == if old(self.electionKey) == Some(key) then Led else Retracted
      ensures o.Led? ==> self.leaderZxid in {None, old(self.leaderZxid)} && Accounted()
    {
      if self.electionKey != Some(key) {
        self := self.(thread := Undoing(key, czxid));
        Did();
        Yield();
        Retract(key, czxid);
        return Retracted;
      }
      self := self.(thread := Announcing);
      Did();
      Yield();

      Announce();
      o := Led;
    }

    method Announce()
      requires Traced() && self.thread.Announcing?
      modifies this
      ensures Traced() && history == old(history) + [Move(me, Local)] && Accounted()
      ensures self == old(self).(published := old(self.published) + [LEADER], thread := Free)
    {
      ReachableInv(peers, history, world);
      AnnouncedWithoutClaimExactly(peers, history, world, me, Move(me, Local));
      ghost var before, run := world, history;
      self := self.(published := self.published + [LEADER], thread := Free);
      Did();
      InitInv(peers);
      ClearedAppend(Init(peers), me, run, Move(me, Local), false);
    }

    /** Clears the claim and the leader data again. */
    method Retract(key: Key, czxid: nat)
      requires Traced() && self.thread == Undoing(key, czxid)
      modifies this
      ensures Traced() && old(history) <= history && Ended(Retracted, old(self), self, me)
    {
      self := self.(leaderZxid := None, thread := Undone);
      Did();
      Yield();

      self := self.(leaderInfo := None, thread := Free);
      Did();
    }

    /** `_step_down_thread`; `released` is false when a ZooKeeper call raised and the claim was kept. */
    method StepDownThread(getRaises: bool, deleteRaises: bool) returns (released: bool)
      requires Traced() && self.thread.Free?
      modifies this
      ensures Traced() && old(history) + [Move(me, StepDown)] <= history
      ensures Resigned(released, old(self).(participating := false), self) && self.electionKey == None
    {
      self := self.(participating := false, thread := Leaving);
      Took(StepDown);
      Yield();

      self := self.(electionKey := None, thread := Invalidated);
      Did();
      Yield();

      released := Resign(getRaises, deleteRaises);
    }

    /** Gives the claim up, if there is one. */
    method Resign(getRaises: bool, deleteRaises: bool) returns (released: bool)
      requires Traced() && self.thread.Invalidated?
      modifies this
      ensures Traced() && old(history) <= history
      ensures Resigned(released, old(self), self) && (old(self.leaderZxid) == None ==> released)
    {
      if self.leaderZxid.None? {
        self := self.(leaderInfo := None, published := self.published + [FOLLOWER], thread := Free);
        Did();
        return true;
      }
      var zxid := self.leaderZxid.value;
      self := self.(thread := Locating(zxid));
      Did();
      Yield();
      released := ReleaseClaim(zxid, getRaises, deleteRaises);
    }

    method ReleaseClaim(zxid: nat, getRaises: bool, deleteRaises: bool) returns (released: bool)
      requires Traced() && self.thread == Locating(zxid)
      modifies this
      ensures Traced() && old(history) <= history && Resigned(released, old(self), self)
    {
      released := ReleaseNode(zxid, getRaises, deleteRaises);
      if released {
        Yield();
        ClearClaim(zxid);
      }
    }

    method ClearClaim(zxid: nat)
      requires Traced() && self.thread == Released(zxid)
      modifies this
      ensures Traced() && old(history) <= history && Resigned(true, old(self), self)
    {
      self := self.(leaderZxid := None, thread := Cleared);
      Did();
      Yield();

      self := self.(leaderInfo := None, published := self.published + [FOLLOWER], thread := Free);
      Did();
    }

    /** `get`, and `delete` if the node is the own one. */
    method ReleaseNode(zxid: nat, getRaises: bool, deleteRaises: bool) returns (released: bool)
      requires Traced() && self.thread == Locating(zxid)
      modifies this
      ensures Traced() && Interfered(old(self), self)
      ensures old(history) + [Move(me, if getRaises || old(self.session).None? then CallRaises else Call)] <= history
      ensures self.thread == if released then Released(zxid) else Free
    {
      if getRaises || self.session.None? {
        self := self.(thread := Free);
        Took(CallRaises);
        return false;
      }
      if world.node.None? || world.node.value.czxid != zxid {
        self := self.(thread := Released(zxid));
        Took(Call);
        return true;
      }
      var s := self.session.value;
      self := self.(thread := Deleting(zxid, s));
      Took(Call);
      Yield();

      released := DeleteNode(zxid, s, deleteRaises);
    }

    method DeleteNode(zxid: nat, s: Session, deleteRaises: bool) returns (released: bool)
      requires Traced() && self.thread == Deleting(zxid, s)
      modifies this
      ensures Traced()
      ensures released <==> !deleteRaises && old(self.session) == Some(s)
      ensures history == old(history) + [Move(me, if released then Call else CallRaises)]
      ensures self == old(self).(thread := if released then Released(zxid) else Free)
      ensures world.node == if released then None else old(world.node)
    {
      if deleteRaises || self.session != Some(s) {
        self := self.(thread := Free);
        Took(CallRaises);
        return false;
      }
      self := self.(thread := Released(zxid));
      Called(world.(node := None));
      return true;
    }

    /** `_set_up_thread`: the lock is free for a moment before the election takes it. */
    method SetUpThread(key: Option<Key>, createRaises: bool, getRaises: bool) returns (o: Outcome)
      requires Traced() && self.thread.Free?
      modifies this
      ensures Traced() && old(history) + [Move(me, SetUp)] <= history && self.thread.Free?
      ensures exists k :: |old(history)| < k < |history| && history[k] == Move(me, Elect)
      ensures Move(me, StepDown) !in history[|old(history)|..] ==> self.participating && (o.NotTried? <==> key.None?)
      ensures o.Led? ==> Accounted()
    {
      self := self.(participating := true);
      Took(SetUp);
      ghost var run := history;
      YieldLock();
      ghost var met := history;
      o := ElectionThread(key, createRaises, getRaises);
      assert history[|met|] == Move(me, Elect);
      NothingMissed(run, met, history, old(history), Move(me, StepDown));
    }

    /** `_on_zk_suspended`, wherever the lock holder stands. */
    method OnZkSuspended()
      requires Traced() && self.handler.Idle?
      modifies this
      ensures Traced() && history == old(history) + [Move(me, Suspended)]
      ensures self == old(self).(electionKey := None)
    {
      self := self.(electionKey := None);
      Took(Suspended);
    }

    /** `_on_zk_lost`, wherever the lock holder stands: each of its statements is carried out once. */
    method OnZkLost(s: Session)
      requires Traced() && self.handler.Idle? && s in self.lost
      modifies this
      ensures Traced() && old(history) + [Move(me, LostBegins(s))] <= history && self.handler.Idle?
      ensures multiset(history)[Move(me, LostContinues)] == multiset(old(history))[Move(me, LostContinues)] + 3
      ensures s !in self.lost && SaysFollower(self)
    {
      self := self.(electionKey := None, handler := Keyless(s));
      Took(LostBegins(s));
      YieldHandler();

      self := self.(leaderZxid := None, handler := Leaderless(s));
      Took(LostContinues);
      YieldHandler();

      FinishLost(s);
    }

    method FinishLost(s: Session)
      requires Traced() && self.handler == Leaderless(s)
      modifies this
      ensures Traced() && old(history) <= history && self.handler.Idle?
      ensures multiset(history)[Move(me, LostContinues)] == multiset(old(history))[Move(me, LostContinues)] + 2
      ensures s !in self.lost && SaysFollower(self)
    {
      self := self.(leaderInfo := None, handler := Infoless(s));
      Took(LostContinues);
      YieldHandler();

      self := self.(lost := self.lost - {s}, published := self.published + [FOLLOWER], handler := Idle);
      Took(LostContinues);
    }
  }

  /** A move that does not occur in a run does not occur in a part of it. */
  lemma NothingMissed(run: seq<Move>, met: seq<Move>, all: seq<Move>, start: seq<Move>, m: Move)
    requires start <= run <= met <= all
    ensures m !in all[|start|..] ==> m !in met[|run|..]
  {
    if m in met[|run|..] {
      var k :| 0 <= k < |met[|run|..]| && met[|run|..][k] == m;
      assert all[|start|..][|run| + k - |start|] == m;
    }
  }
}
