/**
 Leader election over one ZooKeeper ephemeral node.

 Any number of instances run the election, step-down and set-up threads of `LeaderService`, each under
 the election lock of its instance, while the LOST and SUSPENDED handlers write the same fields without
 that lock.  Every field write, every test of `_election_key` and every ZooKeeper call is a step of its
 own, and steps of all instances interleave freely.
 */
module Leader {
  import opened Wrappers

  /** A ZooKeeper session, named by the instance that opened it and a serial number. */
  datatype Session = Session(inst: nat, serial: nat)

  /** What `_capture_election_key` returns: session id and last seen zxid. */
  datatype Key = Key(session: Session, lastZxid: nat)

  datatype Event = LEADER | FOLLOWER

  /** The ephemeral election node. */
  datatype Node = Node(czxid: nat, owner: Session)

  /** Where the thread that holds `_election_lock` stands; `Free` when nobody holds it. */
  datatype Thread =
    | Free
    | Capturing                                 // participation was tested
    | Captured(key: Key)                        // the key is read but not stored yet
    | Creating(key: Key)                        // before the `create` call
    | Fetching(key: Key)                        // the node exists: before the `get` call
    | Fetched(key: Key, czxid: nat, info: nat)  // before the test of the key
    | Comparing(czxid: nat, info: nat)          // before the test of `_leader_zxid`
    | Demoting(info: nat)                       // before `_leader_zxid` is cleared
    | Demoted(info: nat)                        // before `LeaderInfo` is replaced
    | Created(key: Key, czxid: nat)             // node created: before the first test of the key
    | Writing(key: Key, czxid: nat)             // before `_leader_zxid` is written
    | Wrote(key: Key, czxid: nat)               // before `LeaderInfo` is written
    | Rechecking(key: Key, czxid: nat)          // before the second test of the key
    | Undoing(key: Key, czxid: nat)             // before `_leader_zxid` is retracted
    | Undone                                    // before `LeaderInfo` is retracted
    | Announcing                                // before LEADER! is published
    | Leaving                                   // step-down: `_participating` is cleared
    | Invalidated                               // step-down: `_election_key` is cleared
    | Locating(czxid: nat)                      // step-down: before the `get` call
    | Deleting(czxid: nat, session: Session)    // step-down: before the `delete` call
    | Released(czxid: nat)                      // step-down: before `_leader_zxid` is cleared
    | Cleared                                   // step-down: before `LeaderInfo` is cleared

  /** Where the LOST handler stands on the event loop. */
  datatype Handler = Idle | Keyless(session: Session) | Leaderless(session: Session) | Infoless(session: Session)

  datatype Instance = Instance(
    leaderZxid: Option<nat>,
    leaderInfo: Option<nat>,
    participating: bool,
    electionKey: Option<Key>,
    thread: Thread,
    handler: Handler,
    session: Option<Session>,  // the live ZooKeeper session
    lost: set<Session>,        // ended sessions whose LOST handler has not finished
    serial: nat,               // serial number of the next session
    published: seq<Event>)
  {
    predicate IsLeader() { leaderZxid.Some? }
  }

  /** `creator` remembers which session created the node with a given czxid. */
  datatype Cluster = Cluster(insts: seq<Instance>, node: Option<Node>, nextZxid: nat, creator: map<nat, Session>)

  datatype Action =
    | Elect                       // `_election_thread` takes the lock
    | StepDown                    // `_step_down_thread` takes the lock
    | SetUp                       // `_set_up_thread` takes the lock, sets the flag, drops the lock
    | Capture(key: Option<Key>)   // `_capture_election_key`, whatever the client reports
    | Local                       // next statement of the lock holder that is no ZooKeeper call
    | Call                        // next ZooKeeper call of the lock holder, carried out
    | CallRaises                  // next ZooKeeper call of the lock holder, failed without effect
    | Suspended                   // the SUSPENDED handler
    | LostBegins(session: Session) // the LOST handler starts and clears `_election_key`
    | LostContinues               // its next statement
    | SessionStarts
    | SessionEnds

  /* ---------------------------------------------------------------- steps */

  predicate AtCall(t: Thread)
  {
    t.Creating? || t.Fetching? || t.Locating? || t.Deleting?
  }

  /** A ZooKeeper call succeeds or finds the node missing; anything else is `CallRaises`. */
  predicate CallEnabled(c: Cluster, r: Instance)
  {
    match r.thread
    case Creating(_) => r.session.Some?
    case Fetching(_) => r.session.Some? && c.node.Some?
    case Locating(_) => r.session.Some?
    case Deleting(_, s) => r.session == Some(s)
    case _ => false
  }

  predicate Enabled(c: Cluster, i: nat, a: Action)
  {
    i < |c.insts| &&
    var r := c.insts[i];
    match a
    case Elect => r.thread.Free?
    case StepDown => r.thread.Free?
    case SetUp => r.thread.Free?
    case Capture(_) => r.thread.Capturing?
    case Local => !r.thread.Free? && !r.thread.Capturing? && !AtCall(r.thread)
    case Call => CallEnabled(c, r)
    case CallRaises => AtCall(r.thread)
    case Suspended => r.handler.Idle?
    case LostBegins(s) => r.handler.Idle? && s in r.lost
    case LostContinues => !r.handler.Idle?
    case SessionStarts => r.session.None?
    case SessionEnds => r.session.Some?
  }

  /** One statement of the thread that holds the lock of `r`. */
  function LocalStep(r: Instance, myData: nat): Instance
  {
    match r.thread
    case Captured(key) => r.(electionKey := Some(key), thread := Creating(key))
    case Fetched(key, z, info) =>
      if r.electionKey != Some(key) then r.(thread := Free) else r.(thread := Comparing(z, info))
    case Comparing(z, info) =>
      if r.leaderZxid == Some(z) then r.(thread := Free) else r.(thread := Demoting(info))
    case Demoting(info) => r.(leaderZxid := None, thread := Demoted(info))
    case Demoted(info) => r.(leaderInfo := Some(info), thread := Free, published := r.published + [FOLLOWER])
    case Created(key, z) =>
      if r.electionKey != Some(key) then r.(thread := Free, published := r.published + [FOLLOWER])
      else r.(thread := Writing(key, z))
    case Writing(key, z) => r.(leaderZxid := Some(z), thread := Wrote(key, z))
    case Wrote(key, z) => r.(leaderInfo := Some(myData), thread := Rechecking(key, z))
    case Rechecking(key, z) =>
      if r.electionKey != Some(key) then r.(thread := Undoing(key, z)) else r.(thread := Announcing)
    case Undoing(_, _) => r.(leaderZxid := None, thread := Undone)
    case Undone => r.(leaderInfo := None, thread := Free)
    case Announcing => r.(thread := Free, published := r.published + [LEADER])
    case Leaving => r.(electionKey := None, thread := Invalidated)
    case Invalidated =>
      if r.leaderZxid.None? then r.(leaderInfo := None, thread := Free, published := r.published + [FOLLOWER])
      else r.(thread := Locating(r.leaderZxid.value))
    case Released(_) => r.(leaderZxid := None, thread := Cleared)
    case Cleared => r.(leaderInfo := None, thread := Free, published := r.published + [FOLLOWER])
    case _ => r
  }

  function LostStep(r: Instance): Instance
    requires !r.handler.Idle?
  {
    match r.handler
    case Keyless(s) => r.(leaderZxid := None, handler := Leaderless(s))
    case Leaderless(s) => r.(leaderInfo := None, handler := Infoless(s))
    case Infoless(s) => r.(handler := Idle, lost := r.lost - {s}, published := r.published + [FOLLOWER])
  }

  function Put(c: Cluster, i: nat, r: Instance): (d: Cluster)
    requires i < |c.insts|
  {
    c.(insts := c.insts[i := r])
  }

  /** A ZooKeeper call that is carried out.  `create` draws a fresh czxid. */
  function CallStep(c: Cluster, i: nat): Cluster
    requires i < |c.insts| && CallEnabled(c, c.insts[i])
  {
    var r := c.insts[i];
    match r.thread
    case Creating(key) =>
      if c.node.Some? then Put(c, i, r.(thread := Fetching(key)))
      else
        var z := c.nextZxid;
        Put(c, i, r.(thread := Created(key, z)))
          .(node := Some(Node(z, r.session.value)), nextZxid := z + 1, creator := c.creator[z := r.session.value])
    case Fetching(key) =>
      Put(c, i, r.(thread := Fetched(key, c.node.value.czxid, c.node.value.owner.inst)))
    case Locating(z) =>
      if c.node.Some? && c.node.value.czxid == z then Put(c, i, r.(thread := Deleting(z, r.session.value)))
      else Put(c, i, r.(thread := Released(z)))
    case Deleting(z, _) => Put(c, i, r.(thread := Released(z))).(node := None)
  }

  /** The end of a session takes its ephemeral node away and owes the instance a LOST. */
  function EndStep(c: Cluster, i: nat): Cluster
    requires i < |c.insts| && c.insts[i].session.Some?
  {
    var r := c.insts[i];
    var s := r.session.value;
    Put(c, i, r.(session := None, lost := r.lost + {s}))
      .(node := if c.node.Some? && c.node.value.owner == s then None else c.node)
  }

  function Step(c: Cluster, i: nat, a: Action): Cluster
    requires Enabled(c, i, a)
  {
    var r := c.insts[i];
    match a
    case Elect => if r.participating then Put(c, i, r.(thread := Capturing)) else c
    case StepDown => Put(c, i, r.(participating := false, thread := Leaving))
    case SetUp => Put(c, i, r.(participating := true))
    case Capture(key) => Put(c, i, r.(thread := if key.None? then Free else Captured(key.value)))
    case Local => Put(c, i, LocalStep(r, i))
    case Call => CallStep(c, i)
    case CallRaises => Put(c, i, r.(thread := Free))
    case Suspended => Put(c, i, r.(electionKey := None))
    case LostBegins(s) => Put(c, i, r.(electionKey := None, handler := Keyless(s)))
    case LostContinues => Put(c, i, LostStep(r))
    case SessionStarts => Put(c, i, r.(session := Some(Session(i, r.serial)), serial := r.serial + 1))
    case SessionEnds => EndStep(c, i)
  }

  /* ----------------------------------------------------------------- runs */

  datatype Move = Move(inst: nat, action: Action)

  const FRESH: Instance := Instance(None, None, true, None, Free, Idle, None, {}, 0, [])

  function Init(n: nat): Cluster
  {
    Cluster(seq(n, _ => FRESH), None, 0, map[])
  }

  /** Every move of `run`, taken in order from `c`, is enabled. */
  predicate Legal(c: Cluster, run: seq<Move>)
    decreases |run|
  {
    run == [] ||
    (Enabled(c, run[0].inst, run[0].action) && Legal(Step(c, run[0].inst, run[0].action), run[1..]))
  }

  function Exec(c: Cluster, run: seq<Move>): Cluster
    requires Legal(c, run)
    decreases |run|
  {
    if run == [] then c else Exec(Step(c, run[0].inst, run[0].action), run[1..])
  }

  /** `c` is reached from `n` fresh instances by `run`. */
  ghost predicate Reaches(n: nat, run: seq<Move>, c: Cluster)
  {
    Legal(Init(n), run) && c == Exec(Init(n), run)
  }

  /* ------------------------------------------------------------ invariant */

  /** The node with czxid `z` still stands in the live session of instance `i` that created it. */
  predicate Standing(c: Cluster, i: nat, z: nat)
    requires i < |c.insts|
  {
    c.node.Some? && c.node.value.czxid == z && c.insts[i].session == Some(c.node.value.owner)
  }

  /** The LOST of session `s` is owed to `r` and has not cleared `_leader_zxid` yet. */
  predicate WillClear(r: Instance, s: Session)
  {
    s in r.lost && r.handler != Leaderless(s) && r.handler != Infoless(s)
  }

  /** The LOST of session `s` is owed to `r` and has not even cleared `_election_key` yet. */
  predicate WillInvalidate(r: Instance, s: Session)
  {
    WillClear(r, s) && r.handler != Keyless(s)
  }

  predicate Mine(c: Cluster, i: nat, z: nat)
  {
    z in c.creator && c.creator[z].inst == i
  }

  /** A claim to czxid `z` by `i` is honest, or a LOST that will clear it is on its way. */
  predicate Backed(c: Cluster, i: nat, z: nat)
    requires i < |c.insts|
  {
    Mine(c, i, z) && (Standing(c, i, z) || WillClear(c.insts[i], c.creator[z]))
  }

  /** An election that created `z` and has not passed its last test of the key. */
  predicate InFlight(c: Cluster, i: nat, key: Key, z: nat)
    requires i < |c.insts|
  {
    Mine(c, i, z) &&
    (Standing(c, i, z) || WillInvalidate(c.insts[i], c.creator[z]) || c.insts[i].electionKey != Some(key))
  }

  predicate InElection(t: Thread)
  {
    !t.Free? && !t.Leaving? && !t.Invalidated? && !t.Locating? && !t.Deleting? && !t.Released? && !t.Cleared?
  }

  /** An election has written `_leader_zxid` and has not decided yet whether to retract it. */
  predicate Unsettled(t: Thread)
  {
    t.Wrote? || t.Rechecking? || t.Undoing?
  }

  predicate ThreadInv(c: Cluster, i: nat)
    requires i < |c.insts|
  {
    var r := c.insts[i];
    (InElection(r.thread) ==> r.participating) &&
    (match r.thread
     case Fetched(_, z, info) => Mine(c, info, z)
     case Comparing(z, info) => Mine(c, info, z)
     case Created(key, z) => InFlight(c, i, key, z)
     case Writing(key, z) => InFlight(c, i, key, z)
     case Wrote(key, z) => InFlight(c, i, key, z) && r.leaderZxid in {None, Some(z)}
     case Rechecking(key, z) => InFlight(c, i, key, z) && r.leaderZxid in {None, Some(z)}
     case Undoing(key, z) => Mine(c, i, z) && r.leaderZxid in {None, Some(z)} && r.electionKey != Some(key)
     case Locating(z) => Mine(c, i, z) && r.leaderZxid in {None, Some(z)}
     case Deleting(z, s) =>
       Mine(c, i, z) && r.leaderZxid in {None, Some(z)} &&
       c.creator[z] == s && s.serial < r.serial && (r.session == Some(s) ==> Standing(c, i, z))
     case Released(z) => Mine(c, i, z) && r.leaderZxid in {None, Some(z)}
     case _ => true)
  }

  predicate InstInv(c: Cluster, i: nat)
    requires i < |c.insts|
  {
    var r := c.insts[i];
    ThreadInv(c, i) &&
    (!r.handler.Idle? ==> r.handler.session in r.lost) &&
    (r.session.Some? ==>
      r.session.value.inst == i && r.session.value.serial < r.serial && r.session.value !in r.lost) &&
    (forall s :: s in r.lost ==> s.inst == i && s.serial < r.serial) &&
    (r.leaderZxid.Some? ==> Mine(c, i, r.leaderZxid.value)) &&
    (r.leaderZxid.Some? && !Unsettled(r.thread) && !r.thread.Released? ==> Backed(c, i, r.leaderZxid.value))
  }

  predicate NodeInv(c: Cluster)
  {
    (forall z :: z in c.creator ==> z < c.nextZxid) &&
    (c.node.Some? ==>
       var nd := c.node.value;
       nd.czxid in c.creator && c.creator[nd.czxid] == nd.owner &&
       nd.owner.inst < |c.insts| && c.insts[nd.owner.inst].session == Some(nd.owner))
  }

  predicate Inv(c: Cluster)
  {
    NodeInv(c) && forall i :: 0 <= i < |c.insts| ==> InstInv(c, i)
  }

  /* -------------------------------------------------------- preservation */

  /** What a step of instance `i` does to the rest: other instances, other claims to the node, old births. */
  predicate Frame(c: Cluster, d: Cluster, i: nat)
  {
    i < |c.insts| && |d.insts| == |c.insts| &&
    (forall j :: 0 <= j < |c.insts| && j != i ==> d.insts[j] == c.insts[j]) &&
    (forall z :: z in c.creator ==> z in d.creator && d.creator[z] == c.creator[z]) &&
    (c.node != d.node ==> c.node.Some? ==> c.node.value.owner.inst == i)
  }

  lemma OthersUntouched(c: Cluster, d: Cluster, i: nat, j: nat)
    requires Inv(c) && Frame(c, d, i) && j < |c.insts| && j != i
    ensures InstInv(d, j)
  {
    assert InstInv(c, j);
    forall z | Standing(c, j, z) ensures Standing(d, j, z) {}
  }

  lemma StepFrames(c: Cluster, i: nat, a: Action)
    requires Inv(c) && Enabled(c, i, a)
    ensures Frame(c, Step(c, i, a), i)
  {
    assert InstInv(c, i);
  }

  lemma StepKeepsNode(c: Cluster, i: nat, a: Action)
    requires Inv(c) && Enabled(c, i, a)
    ensures NodeInv(Step(c, i, a))
  {
    assert InstInv(c, i);
  }

  /** The statements of an election that created the node. */
  predicate AfterCreate(t: Thread)
  {
    t.Created? || t.Writing? || t.Wrote? || t.Rechecking? || t.Undoing? || t.Undone? || t.Announcing?
  }

  lemma WinnerKeepsOwn(c: Cluster, i: nat)
    requires Inv(c) && Enabled(c, i, Local) && AfterCreate(c.insts[i].thread)
    ensures InstInv(Step(c, i, Local), i)
  {
    assert InstInv(c, i);
  }

  lemma LocalKeepsOwn(c: Cluster, i: nat)
    requires Inv(c) && Enabled(c, i, Local) && !AfterCreate(c.insts[i].thread)
    ensures InstInv(Step(c, i, Local), i)
  {
    assert InstInv(c, i);
  }

  lemma CallKeepsOwn(c: Cluster, i: nat)
    requires Inv(c) && Enabled(c, i, Call)
    ensures InstInv(Step(c, i, Call), i)
  {
    assert InstInv(c, i);
  }

  lemma SuspensionKeepsOwn(c: Cluster, i: nat)
    requires Inv(c) && Enabled(c, i, Suspended)
    ensures InstInv(Step(c, i, Suspended), i)
  {
    assert InstInv(c, i);
  }

  lemma LostBeginsKeepsOwn(c: Cluster, i: nat, s: Session)
    requires Inv(c) && Enabled(c, i, LostBegins(s))
    ensures InstInv(Step(c, i, LostBegins(s)), i)
  {
    assert InstInv(c, i);
  }

  lemma LostFinishesKeepsOwn(c: Cluster, i: nat)
    requires Inv(c) && Enabled(c, i, LostContinues) && c.insts[i].handler.Infoless?
    ensures InstInv(Step(c, i, LostContinues), i)
  {
    assert InstInv(c, i);
  }

  lemma LostContinuesKeepsOwn(c: Cluster, i: nat)
    requires Inv(c) && Enabled(c, i, LostContinues) && !c.insts[i].handler.Infoless?
    ensures InstInv(Step(c, i, LostContinues), i)
  {
    assert InstInv(c, i);
  }

  lemma SessionKeepsOwn(c: Cluster, i: nat, a: Action)
    requires Inv(c) && Enabled(c, i, a)
    requires a.SessionStarts? || a.SessionEnds?
    ensures InstInv(Step(c, i, a), i)
  {
    assert InstInv(c, i);
  }

  lemma StepKeepsOwn(c: Cluster, i: nat, a: Action)
    requires Inv(c) && Enabled(c, i, a)
    ensures InstInv(Step(c, i, a), i)
  {
    assert InstInv(c, i);
    match a
    case Local => if AfterCreate(c.insts[i].thread) { WinnerKeepsOwn(c, i); } else { LocalKeepsOwn(c, i); }
    case Call => CallKeepsOwn(c, i);
    case Suspended => SuspensionKeepsOwn(c, i);
    case LostBegins(s) => LostBeginsKeepsOwn(c, i, s);
    case LostContinues =>
      if c.insts[i].handler.Infoless? { LostFinishesKeepsOwn(c, i); } else { LostContinuesKeepsOwn(c, i); }
    case SessionStarts => SessionKeepsOwn(c, i, a);
    case SessionEnds => SessionKeepsOwn(c, i, a);
    case _ =>
  }

  lemma StepKeepsInv(c: Cluster, i: nat, a: Action)
    requires Inv(c) && Enabled(c, i, a)
    ensures Inv(Step(c, i, a))
  {
    var d := Step(c, i, a);
    StepFrames(c, i, a);
    StepKeepsNode(c, i, a);
    forall j | 0 <= j < |d.insts| ensures InstInv(d, j) {
      if j == i { StepKeepsOwn(c, i, a); } else { OthersUntouched(c, d, i, j); }
    }
  }

  lemma {:induction false} RunKeepsInv(c: Cluster, run: seq<Move>)
    requires Inv(c) && Legal(c, run)
    ensures Inv(Exec(c, run)) && |Exec(c, run).insts| == |c.insts|
    decreases |run|
  {
    if run != [] {
      StepKeepsInv(c, run[0].inst, run[0].action);
      RunKeepsInv(Step(c, run[0].inst, run[0].action), run[1..]);
    }
  }

  lemma ReachableInv(n: nat, run: seq<Move>, c: Cluster)
    requires Reaches(n, run, c)
    ensures Inv(c) && |c.insts| == n
  {
    RunKeepsInv(Init(n), run);
  }

  /* ------------------------------------------------------------ theorems */

  /**
   In every reachable state an instance whose lock is free and whose `_leader_zxid` is z created the node
   z itself, and either the node stands in its live session or that session is over and a LOST that has
   not finished will clear the claim.
   */
  lemma FreeLeaderIsBacked(n: nat, run: seq<Move>, c: Cluster, i: nat, z: nat)
    requires Reaches(n, run, c) && i < |c.insts|
    requires c.insts[i].thread.Free? && c.insts[i].leaderZxid == Some(z)
    ensures z in c.creator && c.creator[z].inst == i
    ensures || (c.node == Some(Node(z, c.creator[z])) && c.insts[i].session == Some(c.creator[z]))
            || (c.insts[i].session != Some(c.creator[z]) && WillClear(c.insts[i], c.creator[z]))
    ensures c.insts[i].lost == {} ==> c.node == Some(Node(z, c.creator[z]))
  {
    ReachableInv(n, run, c);
    assert InstInv(c, i);
  }

  /** No two instances ever hold the same `_leader_zxid`, so at most one matches the election node. */
  lemma ClaimsAreDistinct(n: nat, run: seq<Move>, c: Cluster, i: nat, j: nat)
    requires Reaches(n, run, c) && i < |c.insts| && j < |c.insts| && i != j
    requires c.insts[i].IsLeader() && c.insts[j].IsLeader()
    ensures c.insts[i].leaderZxid != c.insts[j].leaderZxid
  {
    ReachableInv(n, run, c);
    assert InstInv(c, i) && InstInv(c, j);
  }

  /** The session behind the claim has ended and its LOST handler is still to clear the claim. */
  predicate LostOwed(c: Cluster, i: nat)
    requires i < |c.insts|
  {
    var r := c.insts[i];
    r.leaderZxid.Some? && r.leaderZxid.value in c.creator && WillClear(r, c.creator[r.leaderZxid.value])
  }

  /** A step-down has given the node up and is about to clear the claim. */
  predicate Resigning(c: Cluster, i: nat)
    requires i < |c.insts|
  {
    c.insts[i].thread.Released?
  }

  /**
   An election wrote a claim whose node is gone, no LOST is owed that will clear it, and the recheck of the
   stale key is about to find out.
   */
  predicate LateWrite(c: Cluster, i: nat)
    requires i < |c.insts|
  {
    var r := c.insts[i];
    r.leaderZxid.Some? && Unsettled(r.thread) && r.electionKey != Some(r.thread.key) &&
    !Standing(c, i, r.leaderZxid.value) && !LostOwed(c, i)
  }

  /**
   Two instances answer `IsLeader()` only while one of them has an unhandled LOST, a resignation in
   progress, or a late write that its own recheck is about to retract.
   */
  lemma TwoLeadersExcused(n: nat, run: seq<Move>, c: Cluster, i: nat, j: nat)
    requires Reaches(n, run, c) && i < |c.insts| && j < |c.insts| && i != j
    requires c.insts[i].IsLeader() && c.insts[j].IsLeader()
    ensures exists k :: k in {i, j} && (LostOwed(c, k) || Resigning(c, k) || LateWrite(c, k))
  {
    ReachableInv(n, run, c);
    assert InstInv(c, i) && InstInv(c, j);
    var k := if c.node.Some? && c.node.value.owner.inst == i then j else i;
    assert !Standing(c, k, c.insts[k].leaderZxid.value);
    assert k in {i, j} && (LostOwed(c, k) || Resigning(c, k) || LateWrite(c, k));
  }

  /** With both locks free, an unhandled LOST is the only excuse. */
  lemma TwoIdleLeadersAwaitLost(n: nat, run: seq<Move>, c: Cluster, i: nat, j: nat)
    requires Reaches(n, run, c) && i < |c.insts| && j < |c.insts| && i != j
    requires c.insts[i].IsLeader() && c.insts[j].IsLeader()
    requires c.insts[i].thread.Free? && c.insts[j].thread.Free?
    ensures LostOwed(c, i) || LostOwed(c, j)
  {
    TwoLeadersExcused(n, run, c, i, j);
  }

  predicate NoStepDown(run: seq<Move>)
  {
    forall k :: 0 <= k < |run| ==> !run[k].action.StepDown?
  }

  lemma Extend(n: nat, run: seq<Move>, c: Cluster, i: nat, a: Action) returns (run': seq<Move>, c': Cluster)
    requires Reaches(n, run, c) && Enabled(c, i, a)
    ensures run' == run + [Move(i, a)] && c' == Step(c, i, a) && Reaches(n, run', c')
  {
    run', c' := run + [Move(i, a)], Step(c, i, a);
    ExecAppends(Init(n), run, Move(i, a));
  }

  lemma {:induction false} ExecAppends(c: Cluster, run: seq<Move>, m: Move)
    requires Legal(c, run) && Enabled(Exec(c, run), m.inst, m.action)
    ensures Legal(c, run + [m]) && Exec(c, run + [m]) == Step(Exec(c, run), m.inst, m.action)
    decreases |run|
  {
    if run == [] {
      assert [m][1..] == [];
    } else {
      var d := Step(c, run[0].inst, run[0].action);
      ExecAppends(d, run[1..], m);
      assert (run + [m])[1..] == run[1..] + [m];
    }
  }

  /** Opens a session for `i` and runs its election up to the point where the node is created. */
  lemma RunToCreated(n: nat, run: seq<Move>, c: Cluster, i: nat, key: Key) returns (run': seq<Move>, c': Cluster)
    requires Reaches(n, run, c) && i < |c.insts| && c.node.None?
    requires c.insts[i].session.None? && c.insts[i].thread.Free? && c.insts[i].participating
    ensures Reaches(n, run', c') && (NoStepDown(run) ==> NoStepDown(run'))
    ensures var r, s, z := c.insts[i], Session(i, c.insts[i].serial), c.nextZxid;
            c' == Put(c, i, r.(session := Some(s), serial := r.serial + 1, electionKey := Some(key),
                               thread := Created(key, z)))
                  .(node := Some(Node(z, s)), nextZxid := z + 1, creator := c.creator[z := s])
  {
    run', c' := Extend(n, run, c, i, SessionStarts);
    run', c' := Extend(n, run', c', i, Elect);
    run', c' := Extend(n, run', c', i, Capture(Some(key)));
    run', c' := Extend(n, run', c', i, Local);
    run', c' := Extend(n, run', c', i, Call);
  }

  /** The election of `i` runs from the created node through the first test of the key. */
  lemma RunToWriting(n: nat, run: seq<Move>, c: Cluster, i: nat, key: Key) returns (run': seq<Move>, c': Cluster)
    requires Reaches(n, run, c) && i < |c.insts| && c.node.None?
    requires c.insts[i].session.None? && c.insts[i].thread.Free? && c.insts[i].participating
    ensures Reaches(n, run', c') && (NoStepDown(run) ==> NoStepDown(run'))
    ensures var r, s, z := c.insts[i], Session(i, c.insts[i].serial), c.nextZxid;
            c' == Put(c, i, r.(session := Some(s), serial := r.serial + 1, electionKey := Some(key),
                               thread := Writing(key, z)))
                  .(node := Some(Node(z, s)), nextZxid := z + 1, creator := c.creator[z := s])
  {
    run', c' := RunToCreated(n, run, c, i, key);
    run', c' := Extend(n, run', c', i, Local);
  }

  /** The claim is written and the second test of the key passes. */
  lemma RunToAnnouncing(n: nat, run: seq<Move>, c: Cluster, i: nat) returns (run': seq<Move>, c': Cluster)
    requires Reaches(n, run, c) && i < |c.insts| && c.insts[i].thread.Writing?
    requires c.insts[i].electionKey == Some(c.insts[i].thread.key)
    ensures Reaches(n, run', c') && (NoStepDown(run) ==> NoStepDown(run'))
    ensures var r := c.insts[i];
            c' == Put(c, i, r.(leaderZxid := Some(r.thread.czxid), leaderInfo := Some(i), thread := Announcing))
  {
    run', c' := Extend(n, run, c, i, Local);
    run', c' := Extend(n, run', c', i, Local);
    run', c' := Extend(n, run', c', i, Local);
  }

  /** Ends the session of `i` and runs its LOST handler to the end. */
  lemma RunLost(n: nat, run: seq<Move>, c: Cluster, i: nat) returns (run': seq<Move>, c': Cluster)
    requires Reaches(n, run, c) && i < |c.insts|
    requires c.insts[i].session.Some? && c.insts[i].handler.Idle? && c.insts[i].lost == {}
    ensures Reaches(n, run', c') && (NoStepDown(run) ==> NoStepDown(run'))
    ensures var r := c.insts[i];
            c' == Put(c, i, r.(session := None, electionKey := None, leaderZxid := None, leaderInfo := None,
                               published := r.published + [FOLLOWER]))
                  .(node := if c.node.Some? && c.node.value.owner == r.session.value then None else c.node)
  {
    var s := c.insts[i].session.value;
    run', c' := Extend(n, run, c, i, SessionEnds);
    run', c' := Extend(n, run', c', i, LostBegins(s));
    run', c' := Extend(n, run', c', i, LostContinues);
    run', c' := Extend(n, run', c', i, LostContinues);
    run', c' := Extend(n, run', c', i, LostContinues);
    assert {s} - {s} == {};
  }

  /**
   The late-write excuse is needed: two instances can both answer `IsLeader()` with every LOST handled and
   no step-down anywhere, because an election wrote its claim after its LOST was over.
   */
  lemma LateWriteHappens() returns (run: seq<Move>, c: Cluster)
    ensures Reaches(2, run, c) && NoStepDown(run) && |c.insts| == 2 && c.insts[0].IsLeader() && c.insts[1].IsLeader()
    ensures c.insts[0].lost == c.insts[1].lost == {} && LateWrite(c, 0) && !Resigning(c, 0) && !Resigning(c, 1)
  {
    var key := Key(Session(0, 0), 0);
    run, c := RunToWriting(2, [], Init(2), 0, key);
    run, c := RunLost(2, run, c, 0);
    run, c := RunToWriting(2, run, c, 1, key);
    run, c := RunToAnnouncing(2, run, c, 1);
    run, c := Extend(2, run, c, 0, Local);      // instance 0 writes its claim, too late
  }

  /** LEADER! can be published after the LOST that took the leadership away has been handled completely. */
  lemma StaleAnnouncementHappens()
    ensures exists run, c :: Reaches(1, run, c) && |c.insts| == 1 && c.node.None? &&
              var r := c.insts[0];
              !r.IsLeader() && r.thread.Free? && r.session.None? && r.lost == {} && r.published == [FOLLOWER, LEADER]
  {
    var run, c := RunToWriting(1, [], Init(1), 0, Key(Session(0, 0), 0));
    run, c := RunToAnnouncing(1, run, c, 0);
    run, c := RunLost(1, run, c, 0);
    run, c := Extend(1, run, c, 0, Local);      // LEADER!
  }

  /* ----------------------------------------------------- non-participation */

  predicate NoSetUp(run: seq<Move>, i: nat)
  {
    forall k :: 0 <= k < |run| ==> run[k] != Move(i, SetUp)
  }

  /** One step of anybody leaves an instance that has stepped down as it is, or less of a leader. */
  lemma StepWhileOut(c: Cluster, m: Move, i: nat)
    requires Inv(c) && Enabled(c, m.inst, m.action) && i < |c.insts|
    requires !c.insts[i].participating && m != Move(i, SetUp)
    ensures var r, r' := c.insts[i], Step(c, m.inst, m.action).insts[i];
            !r'.participating && r'.leaderZxid in {None, r.leaderZxid} &&
            multiset(r'.published)[LEADER] == multiset(r.published)[LEADER]
  {
    assert InstInv(c, i);
    assert InstInv(c, m.inst);
    StepFrames(c, m.inst, m.action);
  }

  /**
   While `_participating` is False, `_leader_zxid` never goes from unset to set (nor from one czxid to
   another) and LEADER! is never published, over every run without a set-up.
   */
  lemma {:induction false} OutStaysOut(c: Cluster, run: seq<Move>, i: nat)
    requires Inv(c) && Legal(c, run) && i < |c.insts| && !c.insts[i].participating && NoSetUp(run, i)
    ensures i < |Exec(c, run).insts|
    ensures var r, r' := c.insts[i], Exec(c, run).insts[i];
            !r'.participating && r'.leaderZxid in {None, r.leaderZxid} &&
            multiset(r'.published)[LEADER] == multiset(r.published)[LEADER]
    decreases |run|
  {
    if run != [] {
      var d := Step(c, run[0].inst, run[0].action);
      assert run[0] != Move(i, SetUp);
      StepWhileOut(c, run[0], i);
      StepKeepsInv(c, run[0].inst, run[0].action);
      StepFrames(c, run[0].inst, run[0].action);
      assert NoSetUp(run[1..], i);
      OutStaysOut(d, run[1..], i);
    }
  }

  /** Step-down deletes only a node that this instance created and that stands in its live session. */
  lemma StepDownDeletesOwnNode(n: nat, run: seq<Move>, c: Cluster, i: nat)
    requires Reaches(n, run, c) && i < |c.insts|
    requires c.insts[i].thread.Deleting? && Enabled(c, i, Call)
    ensures c.node.Some? && c.node.value.czxid == c.insts[i].thread.czxid
    ensures c.insts[i].session == Some(c.node.value.owner) && Mine(c, i, c.node.value.czxid)
  {
    ReachableInv(n, run, c);
    assert InstInv(c, i);
  }

  /* ----------------------------------------------------- stranded elections */

  /** The election thread still works on the node it created, or a step-down is about to remove it. */
  predicate Concerns(t: Thread, z: nat)
  {
    match t
    case Created(_, y) => y == z
    case Writing(_, y) => y == z
    case Wrote(_, y) => y == z
    case Rechecking(_, y) => y == z
    case Locating(y) => y == z
    case Deleting(y, _) => y == z
    case _ => false
  }

  /** The node with czxid `z` stands, but nobody claims it and no thread is on its way to. */
  predicate Stranded(c: Cluster, z: nat)
  {
    c.node.Some? && c.node.value.czxid == z &&
    forall i :: 0 <= i < |c.insts| ==> c.insts[i].leaderZxid != Some(z) && !Concerns(c.insts[i].thread, z)
  }

  lemma StepKeepsStranded(c: Cluster, m: Move, z: nat)
    requires Inv(c) && Enabled(c, m.inst, m.action) && Stranded(c, z)
    requires m != Move(c.node.value.owner.inst, SessionEnds)
    ensures Stranded(Step(c, m.inst, m.action), z) && Step(c, m.inst, m.action).node == c.node
  {
    assert InstInv(c, m.inst);
    StepFrames(c, m.inst, m.action);
  }

  /**
   A stranded election stays leaderless until the session that owns the node ends: whatever elections,
   step-downs, set-ups, suspensions and losses happen before, nobody whose lock is free and whose LOST
   handlers are done is a leader.
   */
  lemma {:induction false} StrandedUntilSessionEnds(c: Cluster, run: seq<Move>, z: nat)
    requires Inv(c) && Legal(c, run) && Stranded(c, z)
    requires forall k :: 0 <= k < |run| ==> run[k] != Move(c.node.value.owner.inst, SessionEnds)
    ensures Stranded(Exec(c, run), z) && Exec(c, run).node == c.node
    ensures forall i :: 0 <= i < |Exec(c, run).insts| ==>
              var r := Exec(c, run).insts[i];
              r.thread.Free? && r.lost == {} ==> !r.IsLeader()
    decreases |run|
  {
    RunKeepsInv(c, run);
    if run != [] {
      assert run[0] != Move(c.node.value.owner.inst, SessionEnds);
      StepKeepsStranded(c, run[0], z);
      StepKeepsInv(c, run[0].inst, run[0].action);
      StrandedUntilSessionEnds(Step(c, run[0].inst, run[0].action), run[1..], z);
    } else {
      forall i | 0 <= i < |c.insts| && c.insts[i].thread.Free? && c.insts[i].lost == {}
        ensures !c.insts[i].IsLeader()
      {
        assert InstInv(c, i);
      }
    }
  }

  /** A suspension between `create` and the first test of the key strands the election, for any number of instances. */
  lemma StrandedHappens(n: nat)
    requires n > 0
    ensures exists run, c ::
              Reaches(n, run, c) && |c.insts| == n && Stranded(c, 0) && c.insts[0].session.Some? &&
              c.insts[0].lost == {}
  {
    var run, c := RunToCreated(n, [], Init(n), 0, Key(Session(0, 0), 0));
    run, c := Extend(n, run, c, 0, Suspended);
    run, c := Extend(n, run, c, 0, Local);
    assert Stranded(c, 0);
  }
}
