/**
 When exactly two instances answer `IsLeader()` at the same time without an unhandled LOST or a resignation
 to excuse them.
 */
module LeaderPairs {
  import opened Wrappers
  import opened Leader
  import opened LeaderClaims

  predicate IsPair(c: Cluster, i: nat, j: nat)
  {
    i < |c.insts| && j < |c.insts| && i != j
  }

  /** A leader that neither owes a LOST nor resigns. */
  predicate Bare(c: Cluster, k: nat)
    requires k < |c.insts|
  {
    c.insts[k].IsLeader() && !LostOwed(c, k) && !Resigning(c, k)
  }

  /** Two leaders, and neither has an unhandled LOST or a resignation in progress. */
  predicate Unexcused(c: Cluster, i: nat, j: nat)
    requires IsPair(c, i, j)
  {
    Bare(c, i) && Bare(c, j)
  }

  /** A leader has no such excuse exactly when its node stands, before any resignation, or its claim is a late write. */
  lemma BareExactly(c: Cluster, k: nat)
    requires Inv(c) && k < |c.insts| && c.insts[k].IsLeader()
    ensures Bare(c, k) <==> !Resigning(c, k) && (Standing(c, k, c.insts[k].leaderZxid.value) || LateWrite(c, k))
  {
    assert InstInv(c, k);
  }

  lemma OneStands(c: Cluster, i: nat, j: nat)
    requires Inv(c) && IsPair(c, i, j) && c.insts[i].IsLeader() && c.insts[j].IsLeader()
    requires Standing(c, i, c.insts[i].leaderZxid.value)
    ensures !Standing(c, j, c.insts[j].leaderZxid.value)
  {
    assert InstInv(c, i) && InstInv(c, j);
  }

  /**
   In every reachable state two leaders have no unhandled LOST and no resignation between them exactly when one
   of them made a late write, and the other made one too or owns the election node.
   */
  lemma UnexcusedExactly(n: nat, run: seq<Move>, c: Cluster, i: nat, j: nat)
    requires Reaches(n, run, c) && IsPair(c, i, j) && c.insts[i].IsLeader() && c.insts[j].IsLeader()
    ensures Unexcused(c, i, j) <==>
            && !Resigning(c, i) && !Resigning(c, j)
            && (LateWrite(c, i) || LateWrite(c, j))
            && (LateWrite(c, i) || Standing(c, i, c.insts[i].leaderZxid.value))
            && (LateWrite(c, j) || Standing(c, j, c.insts[j].leaderZxid.value))
  {
    ReachableInv(n, run, c);
    BareExactly(c, i);
    BareExactly(c, j);
    if Standing(c, i, c.insts[i].leaderZxid.value) { OneStands(c, i, j); }
  }

  /** Instance `k` writes a claim that no LOST is going to clear, next to another leader without an excuse. */
  predicate Joins(c: Cluster, m: Move, k: nat, other: nat)
    requires IsPair(c, k, other)
  {
    var r := c.insts[k];
    && m == Move(k, Local) && r.thread.Writing? && Bare(c, other)
    && r.thread.czxid in c.creator && !WillClear(r, c.creator[r.thread.czxid])
  }

  /**
   The leader stops being one, or gets its excuse: its claim is retracted or cleared, the session of its
   standing node ends, or its step-down has removed the node.
   */
  predicate Leaves(c: Cluster, m: Move, k: nat)
    requires k < |c.insts|
  {
    var r := c.insts[k];
    m.inst == k &&
    match m.action
    case Local => r.thread.Undoing?
    case LostContinues => r.handler.Keyless?
    case SessionEnds => r.leaderZxid.Some? && Standing(c, k, r.leaderZxid.value)
    case Call => r.thread.Deleting?
    case _ => false
  }

  /** What the step leaves of the instance: a leader without an excuse, or not. */
  predicate BareAfter(c: Cluster, m: Move, k: nat)
    requires k < |c.insts|
  {
    var r := c.insts[k];
    if m == Move(k, Local) && r.thread.Writing? then
      r.thread.czxid in c.creator && !WillClear(r, c.creator[r.thread.czxid])
    else Bare(c, k) && !Leaves(c, m, k)
  }

  lemma BareAfterStatement(c: Cluster, k: nat)
    requires Inv(c) && Enabled(c, k, Local) && Tidy(c, k)
    ensures Bare(Put(c, k, LocalStep(c.insts[k], k)), k) <==> BareAfter(c, Move(k, Local), k)
  {
    assert InstInv(c, k);
  }

  lemma BareAfterCall(c: Cluster, k: nat)
    requires Inv(c) && Enabled(c, k, Call) && Tidy(c, k)
    ensures k < |Step(c, k, Call).insts| && (Bare(Step(c, k, Call), k) <==> BareAfter(c, Move(k, Call), k))
  {
    assert InstInv(c, k);
  }

  lemma BareAfterConnection(c: Cluster, k: nat, a: Action)
    requires Inv(c) && Enabled(c, k, a) && Tidy(c, k)
    requires a.Suspended? || a.LostBegins? || a.LostContinues? || a.SessionStarts? || a.SessionEnds?
    ensures k < |Step(c, k, a).insts| && (Bare(Step(c, k, a), k) <==> BareAfter(c, Move(k, a), k))
  {
    assert InstInv(c, k);
  }

  lemma BareAfterOwnStep(c: Cluster, k: nat, a: Action)
    requires Inv(c) && Enabled(c, k, a) && Tidy(c, k)
    ensures k < |Step(c, k, a).insts| && (Bare(Step(c, k, a), k) <==> BareAfter(c, Move(k, a), k))
  {
    match a
    case Local => BareAfterStatement(c, k);
    case Call => BareAfterCall(c, k);
    case Suspended => BareAfterConnection(c, k, a);
    case LostBegins(_) => BareAfterConnection(c, k, a);
    case LostContinues => BareAfterConnection(c, k, a);
    case SessionStarts => BareAfterConnection(c, k, a);
    case SessionEnds => BareAfterConnection(c, k, a);
    case _ => assert InstInv(c, k);
  }

  lemma BareAfterOthersStep(c: Cluster, m: Move, k: nat)
    requires Inv(c) && Enabled(c, m.inst, m.action) && k < |c.insts| && m.inst != k
    ensures k < |Step(c, m.inst, m.action).insts| && (Bare(Step(c, m.inst, m.action), k) <==> BareAfter(c, m, k))
  {
    StepFrames(c, m.inst, m.action);
    assert InstInv(c, k);
  }

  lemma BareByStepExactly(c: Cluster, m: Move, k: nat)
    requires Inv(c) && AllTidy(c) && Enabled(c, m.inst, m.action) && k < |c.insts|
    ensures k < |Step(c, m.inst, m.action).insts| && (Bare(Step(c, m.inst, m.action), k) <==> BareAfter(c, m, k))
  {
    assert Tidy(c, k);
    if m.inst != k { BareAfterOthersStep(c, m, k); } else { BareAfterOwnStep(c, k, m.action); }
  }

  /** An unexcused leader is not about to write another claim. */
  lemma BareIsNotWriting(c: Cluster, k: nat)
    requires Inv(c) && AllTidy(c) && k < |c.insts| && Bare(c, k)
    ensures !c.insts[k].thread.Writing?
  {
    assert Tidy(c, k);
    BareExactly(c, k);
  }

  /** Whether the pair is unexcused after the step, by what it was before. */
  predicate UnexcusedNow(c: Cluster, m: Move, i: nat, j: nat, before: bool)
    requires IsPair(c, i, j)
  {
    if before then !Leaves(c, m, i) && !Leaves(c, m, j) else Joins(c, m, i, j) || Joins(c, m, j, i)
  }

  /**
   A step begins an unexcused pair exactly when one of the two writes a claim that no LOST is going to clear
   next to the other, who leads without an excuse; and it ends one exactly when one of the two leaves.
   */
  lemma UnexcusedByStepExactly(c: Cluster, m: Move, i: nat, j: nat)
    requires Inv(c) && AllTidy(c) && Enabled(c, m.inst, m.action) && IsPair(c, i, j)
    ensures IsPair(Step(c, m.inst, m.action), i, j)
    ensures Unexcused(Step(c, m.inst, m.action), i, j) <==> UnexcusedNow(c, m, i, j, Unexcused(c, i, j))
  {
    BareByStepExactly(c, m, i);
    BareByStepExactly(c, m, j);
    if Bare(c, i) { BareIsNotWriting(c, i); }
    if Bare(c, j) { BareIsNotWriting(c, j); }
  }

  predicate UnexcusedSince(c: Cluster, run: seq<Move>, i: nat, j: nat, before: bool)
    requires Legal(c, run) && IsPair(c, i, j)
    decreases |run|
  {
    if run == [] then before
    else
      var d := Step(c, run[0].inst, run[0].action);
      IsPair(d, i, j) && UnexcusedSince(d, run[1..], i, j, UnexcusedNow(c, run[0], i, j, before))
  }

  lemma {:induction false} RunTracksPair(c: Cluster, run: seq<Move>, i: nat, j: nat)
    requires Inv(c) && AllTidy(c) && Legal(c, run) && IsPair(c, i, j)
    ensures IsPair(Exec(c, run), i, j)
    ensures Unexcused(Exec(c, run), i, j) <==> UnexcusedSince(c, run, i, j, Unexcused(c, i, j))
    decreases |run|
  {
    if run != [] {
      var m := run[0];
      UnexcusedByStepExactly(c, m, i, j);
      StepKeepsTidy(c, m);
      StepKeepsInv(c, m.inst, m.action);
      RunTracksPair(Step(c, m.inst, m.action), run[1..], i, j);
    }
  }

  /**
   Over every run: two instances lead with no unhandled LOST and no resignation between them exactly when one
   of them wrote such a claim next to the other and neither has left since.
   */
  lemma UnexcusedSinceExactly(n: nat, run: seq<Move>, c: Cluster, i: nat, j: nat)
    requires Reaches(n, run, c) && i < n && j < n && i != j
    ensures IsPair(c, i, j) && (Unexcused(c, i, j) <==> UnexcusedSince(Init(n), run, i, j, false))
  {
    InitInv(n);
    RunTracksPair(Init(n), run, i, j);
  }
}
