/** No content change is forgotten: whatever fails and wherever a pass dies, each listed workload was
    last restarted for the content of the target, or the persisted status makes the next pass due. */
module RolloutSafety {
  import opened Wrappers
  import opened ClusterModel
  import opened Coherence

  /** The hash `w` was last restarted for, or started from. */
  function Served(v: View, w: WorkloadRef): string {
    if w in v.served then v.served[w] else ""
  }

  function Recorded(v: View): string
    requires v.history != []
  {
    Latest(v).lastRolloutHash
  }

  /** A pass that finds the target's present content upstream restarts the workloads. */
  predicate NextPassIsDue(v: View)
    requires v.history != []
  {
    RolloutDue(Recorded(v), TargetHash(v), TargetHash(v))
  }

  ghost predicate AllServed(cr: Resource, v: View) {
    forall w | w in cr.rollout :: Served(v, w) == TargetHash(v)
  }

  ghost predicate NoLostRollout(cr: Resource, v: View) {
    v.history != [] && forall w | w in cr.rollout :: Served(v, w) == TargetHash(v) || NextPassIsDue(v)
  }

  function Baseline(v: View): string
    requires v.history != []
  {
    if Recorded(v) != "" then Recorded(v) else TargetHash(v)
  }

  /** Markers tell what a workload was restarted for; a workload without one still runs the baseline. */
  ghost predicate Ledger(cr: Resource, v: View) {
    && v.history != []
    && (v.target.Some? ==> TargetHash(v) != "")
    && (v.target.None? ==> Recorded(v) == "" && forall w | w in cr.rollout :: Marker(cr.uid, v.workloads, w).None?)
    && forall w | w in cr.rollout ::
         Served(v, w) == match Marker(cr.uid, v.workloads, w) case Some(hash) => hash case None => Baseline(v)
  }

  /** What holds in every state, reverts or not: the books are right. */
  ghost predicate Booked(op: Operator, cr: Resource, s: Stepped) {
    Coherent(op, cr, s) && cr.rollout != [] && Ledger(cr, s.view)
  }

  ghost predicate Safe(op: Operator, cr: Resource, s: Stepped) {
    Booked(op, cr, s) && NoLostRollout(cr, s.view)
  }

  /** Where a run may start: no pass under way, and a target that is absent, or annotated with the hash
      every listed workload was started from or restarted for. */
  ghost predicate Start(cr: Resource, s: Stepped) {
    && s.pass.Idle? && |s.view.history| == 1 && cr.rollout != []
    && match s.view.target
       case None =>
         && Recorded(s.view) == ""
         && forall w | w in cr.rollout :: Served(s.view, w) == "" && Marker(cr.uid, s.view.workloads, w).None?
       case Some(_) =>
         && TargetHash(s.view) != "" && Recorded(s.view) in {"", TargetHash(s.view)}
         && forall w | w in cr.rollout ::
              && Served(s.view, w) == TargetHash(s.view)
              && Marker(cr.uid, s.view.workloads, w) in {None, Some(TargetHash(s.view))}
  }

  lemma StartIsSafe(op: Operator, cr: Resource, s: Stepped)
    requires Start(cr, s)
    ensures Safe(op, cr, s)
  {
  }

  /** The content returns to the persisted baseline while the target holds something else, and some
      listed workload has been restarted for other content already. */
  ghost predicate Reverts(cr: Resource, v: View, hash: string)
    requires v.history != []
  {
    && TargetHash(v) !in {"", hash} && Recorded(v) == hash
    && exists w | w in cr.rollout ::
         Marker(cr.uid, v.workloads, w).Some? && Marker(cr.uid, v.workloads, w) != Some(hash)
  }

  /** The step the choice makes is a write of the target that takes effect. */
  ghost predicate Writes(s: Stepped, c: Choice) {
    s.pass.WriteTarget? && !c.fault.Lost? && s.view.target == s.pass.seen
  }

  // ---------- the books are kept in every run ----------

  lemma MarkedAt(cr: Resource, v: View, hash: string, w: WorkloadRef)
    requires MarkedBefore(cr, v, hash, |cr.rollout|) && w in cr.rollout
    ensures Marker(cr.uid, v.workloads, w) == Some(hash)
  {
    var j :| 0 <= j < |cr.rollout| && cr.rollout[j] == w;
  }

  /** A new status keeps the books when it repeats the recorded hash, records the target's hash before
      anything was recorded, or records it once every workload carries it. */
  lemma StatusBooked(cr: Resource, v: View, status: Status)
    requires Ledger(cr, v)
    requires || status.lastRolloutHash == Recorded(v)
             || (status.lastRolloutHash == TargetHash(v) != ""
                 && (Recorded(v) == "" || MarkedBefore(cr, v, TargetHash(v), |cr.rollout|)))
    ensures Ledger(cr, v.(history := v.history + [status]))
  {
    var v' := v.(history := v.history + [status]);
    assert Latest(v') == status && TargetHash(v') == TargetHash(v);
    forall w | w in cr.rollout
      ensures Served(v', w) == match Marker(cr.uid, v'.workloads, w) case Some(hash) => hash case None => Baseline(v')
    {
      if MarkedBefore(cr, v, TargetHash(v), |cr.rollout|) {
        MarkedAt(cr, v, TargetHash(v), w);
      }
    }
  }

  lemma StatusStepBooked(op: Operator, cr: Resource, s: Stepped, c: Choice)
    requires ValidOperator(op)
    requires Booked(op, cr, s) && (s.pass.RecordPending? || s.pass.Finish? || s.pass.Fail?)
    ensures Ledger(cr, Step(op, cr, s.view, s.pass, c).view)
  {
    var v, copy := s.view, s.pass.copy;
    if !c.fault.Lost? && copy.version + 1 == |v.history| {
      StatusBooked(cr, v, copy.status);
    }
  }

  lemma PatchStepBooked(op: Operator, cr: Resource, s: Stepped, c: Choice)
    requires ValidOperator(op) && Booked(op, cr, s) && s.pass.PatchWorkload?
    ensures var v' := Step(op, cr, s.view, s.pass, c).view;
            && Ledger(cr, v') && (NoLostRollout(cr, s.view) ==> NoLostRollout(cr, v'))
  {
    var v, w, hash := s.view, cr.rollout[s.pass.i], s.pass.work.hash;
    if !c.fault.Lost? {
      var v' := PutMarker(cr, v, w, hash, c.now);
      assert v.target.Some? && TargetHash(v') == hash;
      MarkerSet(cr, v, w, hash, c.now);
      forall x | x in cr.rollout
        ensures Served(v', x) == if x == w then hash else Served(v, x)
      {
      }
    }
  }

  /** Writing `hash` now restarts nothing although some listed workload carries another marker: it is
      the hash the status, or before any status the target, has as the last one rolled out. */
  ghost predicate LeavesBehind(cr: Resource, v: View, hash: string)
    requires v.history != []
  {
    && v.target.Some? && Baseline(v) == hash
    && exists w | w in cr.rollout ::
         Marker(cr.uid, v.workloads, w).Some? && Marker(cr.uid, v.workloads, w) != Some(hash)
  }

  /** While no rollout is lost, that is the revert and nothing else. */
  lemma LeavesBehindIffReverts(cr: Resource, v: View, hash: string)
    requires cr.rollout != [] && Ledger(cr, v) && NoLostRollout(cr, v) && hash != ""
    ensures LeavesBehind(cr, v, hash) <==> Reverts(cr, v, hash)
  {
    if v.target.Some? && Baseline(v) == hash == TargetHash(v) {
      assert forall w | w in cr.rollout :: Served(v, w) == hash;
    }
  }

  /** A write keeps the books in any state, and a rollout is lost after it exactly when it leaves a
      workload behind. */
  lemma WriteLosesIffLeavesBehind(op: Operator, cr: Resource, s: Stepped, c: Choice)
    requires ValidOperator(op) && Booked(op, cr, s) && Writes(s, c)
    ensures var v' := Step(op, cr, s.view, s.pass, c).view;
            && v'.target.Some? && TargetHash(v') == s.pass.work.hash != "" && Ledger(cr, v')
            && (NoLostRollout(cr, v') <==> !LeavesBehind(cr, s.view, s.pass.work.hash))
  {
    hide Transformed, Desired, StartAll, Marker;
    var v, work := s.view, s.pass.work;
    var v' := PutTarget(cr, v, work, s.pass.desired);
    DesiredCarriesHash(cr, v.target, work.data, work.hash);
    assert TargetHash(v') == work.hash && Recorded(v') == Recorded(v);
    assert cr.rollout[0] in cr.rollout;
    if v.target.None? {
      StartServesAll(cr, v, work.hash);
    } else {
      assert forall w :: Served(v', w) == Served(v, w);
      assert Recorded(v) == "" ==> work.hash == TargetHash(v);
    }
  }

  lemma StartServesAll(cr: Resource, v: View, hash: string)
    ensures forall w | w in cr.rollout :: w in StartAll(cr, v, hash) && StartAll(cr, v, hash)[w] == hash
  {
  }

  /** From a state where none is lost, a write loses a rollout exactly when it is a revert. */
  lemma WriteLosesIffReverts(op: Operator, cr: Resource, s: Stepped, c: Choice)
    requires ValidOperator(op) && Safe(op, cr, s) && Writes(s, c)
    ensures var v' := Step(op, cr, s.view, s.pass, c).view;
            && v'.target.Some? && TargetHash(v') == s.pass.work.hash && Ledger(cr, v')
            && (NoLostRollout(cr, v') <==> !Reverts(cr, s.view, s.pass.work.hash))
  {
    hide Coherent, Ledger, NoLostRollout, Step, LeavesBehind, Reverts;
    WriteLosesIffLeavesBehind(op, cr, s, c);
    LeavesBehindIffReverts(cr, s.view, s.pass.work.hash);
  }

  lemma StepBooked(op: Operator, cr: Resource, s: Stepped, c: Choice)
    requires ValidOperator(op) && Booked(op, cr, s)
    ensures Booked(op, cr, Step(op, cr, s.view, s.pass, c))
  {
    StepCoherent(op, cr, s, c);
    match s.pass {
      case WriteTarget(_, _, _, _) =>
        if Writes(s, c) {
          WriteLosesIffLeavesBehind(op, cr, s, c);
        }
      case PatchWorkload(_, _, _, _) => PatchStepBooked(op, cr, s, c);
      case RecordPending(_, _) => StatusStepBooked(op, cr, s, c);
      case Finish(_, _, _) => StatusStepBooked(op, cr, s, c);
      case Fail(_) => StatusStepBooked(op, cr, s, c);
      case _ =>
        assert Step(op, cr, s.view, s.pass, c).view == s.view;
    }
  }

  lemma MoveBooked(op: Operator, cr: Resource, s: Stepped, m: Move)
    requires ValidOperator(op) && Booked(op, cr, s) && Legal(cr, s, m)
    ensures Booked(op, cr, Moved(op, cr, s, m))
  {
    MoveCoherent(op, cr, s, m);
    if m.Call? {
      StepBooked(op, cr, s, m.choice);
    } else if m.Meddle? {
      var v' := Moved(op, cr, s, m).view;
      assert forall w :: Served(v', w) == Served(s.view, w);
    }
  }

  /** In every run, reverts included, the books stay right. */
  lemma {:induction false} RunBooked(op: Operator, cr: Resource, s: Stepped, moves: seq<Move>)
    requires ValidOperator(op) && Booked(op, cr, s) && LegalRun(op, cr, s, moves)
    ensures Booked(op, cr, Run(op, cr, s, moves))
    decreases |moves|
  {
    hide PassCoherent, StaysRecorded, Ledger, Moved, Legal;
    if moves != [] {
      LegalPrefix(op, cr, s, moves, |moves| - 1);
      RunBooked(op, cr, s, moves[..|moves| - 1]);
      MoveBooked(op, cr, Run(op, cr, s, moves[..|moves| - 1]), moves[|moves| - 1]);
    }
  }

  // ---------- what the cluster shows of the workloads ----------

  /** What the pod templates and the status show of the workloads: each carries the marker of the
      target's content, or carries none while nothing else was recorded. */
  ghost predicate CaughtUp(cr: Resource, v: View)
    requires v.history != []
  {
    forall w | w in cr.rollout ::
      match Marker(cr.uid, v.workloads, w)
      case Some(hash) => hash == TargetHash(v)
      case None => Recorded(v) in {"", TargetHash(v)}
  }

  lemma ServedIffCaughtUp(cr: Resource, v: View)
    requires cr.rollout != [] && Ledger(cr, v)
    ensures AllServed(cr, v) <==> CaughtUp(cr, v)
    ensures NoLostRollout(cr, v) <==> CaughtUp(cr, v) || NextPassIsDue(v)
  {
    assert cr.rollout[0] in cr.rollout;
  }

  /** In every state of every run, reverts or not: the workloads were all served the target's content if
      and only if they have caught up, and no rollout is lost if and only if they have or the next pass
      is due. So RolloutRestarted=True, whoever persisted it, is true exactly when they have caught up. */
  lemma StandingConditionIffCaughtUp(op: Operator, cr: Resource, s: Stepped, moves: seq<Move>)
    requires ValidOperator(op) && Booked(op, cr, s) && LegalRun(op, cr, s, moves)
    ensures var v := Run(op, cr, s, moves).view;
            && v.history != []
            && (AllServed(cr, v) <==> CaughtUp(cr, v))
            && (NoLostRollout(cr, v) <==> CaughtUp(cr, v) || NextPassIsDue(v))
  {
    RunBooked(op, cr, s, moves);
    ServedIffCaughtUp(cr, Run(op, cr, s, moves).view);
  }

  /** Every status a pass persists with RolloutRestarted=True, in whatever state: it is true if and only
      if the workloads had caught up. */
  lemma UpToDateIffCaughtUp(op: Operator, cr: Resource, s: Stepped, c: Choice)
    requires ValidOperator(op) && Booked(op, cr, s) && (s.pass.RecordPending? || s.pass.Finish? || s.pass.Fail?)
    requires var v' := Step(op, cr, s.view, s.pass, c).view;
             |v'.history| > |s.view.history| && ToldRollout(Latest(v'), true)
    ensures var v' := Step(op, cr, s.view, s.pass, c).view;
            AllServed(cr, v') <==> CaughtUp(cr, s.view)
  {
    var v' := Step(op, cr, s.view, s.pass, c).view;
    assert v' == s.view.(history := s.view.history + [s.pass.copy.status]);
    assert TargetHash(v') == TargetHash(s.view) && forall w :: Served(v', w) == Served(s.view, w);
    ServedIffCaughtUp(cr, s.view);
  }

  // ---------- safety while no write is a revert ----------

  lemma MarkedAreServed(cr: Resource, v: View)
    requires Ledger(cr, v) && MarkedBefore(cr, v, TargetHash(v), |cr.rollout|)
    ensures AllServed(cr, v)
  {
    forall w | w in cr.rollout
      ensures Served(v, w) == TargetHash(v)
    {
      MarkedAt(cr, v, TargetHash(v), w);
    }
  }

  lemma StatusStepSafe(op: Operator, cr: Resource, s: Stepped, c: Choice)
    requires ValidOperator(op)
    requires Safe(op, cr, s) && (s.pass.RecordPending? || s.pass.Finish? || s.pass.Fail?)
    ensures NoLostRollout(cr, Step(op, cr, s.view, s.pass, c).view)
  {
    var v, copy := s.view, s.pass.copy;
    if !c.fault.Lost? && copy.version + 1 == |v.history| {
      if s.pass.Finish? && !s.pass.failed && MarkedBefore(cr, v, s.pass.work.hash, |cr.rollout|) {
        MarkedAreServed(cr, v);
      }
      var v' := v.(history := v.history + [copy.status]);
      assert Latest(v') == copy.status && TargetHash(v') == TargetHash(v);
      assert forall w :: Served(v', w) == Served(v, w);
    }
  }

  lemma StepSafe(op: Operator, cr: Resource, s: Stepped, c: Choice)
    requires ValidOperator(op) && Safe(op, cr, s)
    requires Writes(s, c) ==> !Reverts(cr, s.view, s.pass.work.hash)
    ensures Safe(op, cr, Step(op, cr, s.view, s.pass, c))
  {
    StepBooked(op, cr, s, c);
    match s.pass {
      case WriteTarget(_, _, _, _) =>
        if Writes(s, c) {
          WriteLosesIffReverts(op, cr, s, c);
        }
      case PatchWorkload(_, _, _, _) => PatchStepBooked(op, cr, s, c);
      case RecordPending(_, _) => StatusStepSafe(op, cr, s, c);
      case Finish(_, _, _) => StatusStepSafe(op, cr, s, c);
      case Fail(_) => StatusStepSafe(op, cr, s, c);
      case _ =>
        assert Step(op, cr, s.view, s.pass, c).view == s.view;
    }
  }

  /** No write of the run that takes effect is a revert. */
  ghost predicate NeverReverts(op: Operator, cr: Resource, s: Stepped, moves: seq<Move>)
    requires Coherent(op, cr, s) && ValidOperator(op) && LegalRun(op, cr, s, moves)
  {
    forall n | 0 <= n < |moves| && moves[n].Call? ::
      var so := Run(op, cr, s, moves[..n]);
      Writes(so, moves[n].choice) ==> so.view.history != [] && !Reverts(cr, so.view, so.pass.work.hash)
  }

  lemma MoveSafe(op: Operator, cr: Resource, s: Stepped, m: Move)
    requires ValidOperator(op) && Safe(op, cr, s) && Legal(cr, s, m)
    requires m.Call? && Writes(s, m.choice) ==> !Reverts(cr, s.view, s.pass.work.hash)
    ensures Safe(op, cr, Moved(op, cr, s, m))
  {
    MoveCoherent(op, cr, s, m);
    if m.Call? {
      StepSafe(op, cr, s, m.choice);
    } else if m.Meddle? {
      var v' := Moved(op, cr, s, m).view;
      assert forall w :: Served(v', w) == Served(s.view, w);
    }
  }

  /** Safety over every run: arbitrary faults, deaths, stale reads and other actors. */
  lemma {:induction false} NoRolloutIsForgotten(op: Operator, cr: Resource, s: Stepped, moves: seq<Move>)
    requires ValidOperator(op) && Safe(op, cr, s) && LegalRun(op, cr, s, moves)
    requires NeverReverts(op, cr, s, moves)
    ensures Safe(op, cr, Run(op, cr, s, moves))
    decreases |moves|
  {
    hide PassCoherent, StaysRecorded, Ledger, NoLostRollout, Moved, Legal, Reverts;
    if moves != [] {
      var init := moves[..|moves| - 1];
      LegalPrefix(op, cr, s, moves, |moves| - 1);
      forall n | 0 <= n < |init| && init[n].Call?
        ensures var so := Run(op, cr, s, init[..n]);
                Writes(so, init[n].choice) ==> so.view.history != [] && !Reverts(cr, so.view, so.pass.work.hash)
      {
        assert init[..n] == moves[..n];
      }
      NoRolloutIsForgotten(op, cr, s, init);
      MoveSafe(op, cr, Run(op, cr, s, init), moves[|moves| - 1]);
    }
  }

  /** When the last step of a pass persists RolloutRestarted=True, every listed workload was served the
      content the target holds, and the recorded hash is the target's. */
  lemma UpToDateWhenPersisted(op: Operator, cr: Resource, s: Stepped, c: Choice)
    requires ValidOperator(op) && Safe(op, cr, s) && s.pass.Finish?
    requires var v' := Step(op, cr, s.view, s.pass, c).view;
             |v'.history| > |s.view.history| && ToldRollout(Latest(v'), true)
    ensures var v' := Step(op, cr, s.view, s.pass, c).view;
            AllServed(cr, v') && Recorded(v') == TargetHash(v')
  {
    StepSafe(op, cr, s, c);
  }

  /** In any safe state the recorded hash can be trusted: when it is the target's, nothing is stale. */
  lemma RecordedMeansServed(op: Operator, cr: Resource, s: Stepped)
    requires Safe(op, cr, s) && Recorded(s.view) in {"", TargetHash(s.view)}
    ensures AllServed(cr, s.view)
  {
  }

  /** While none is lost, the last step of a pass and the recording of a pending rollout only persist
      RolloutRestarted=True when it is true. */
  lemma UpToDateUnlessFailed(op: Operator, cr: Resource, s: Stepped, c: Choice)
    requires ValidOperator(op) && Safe(op, cr, s) && (s.pass.RecordPending? || s.pass.Finish?)
    requires var v' := Step(op, cr, s.view, s.pass, c).view;
             |v'.history| > |s.view.history| && ToldRollout(Latest(v'), true)
    ensures CaughtUp(cr, s.view) && AllServed(cr, Step(op, cr, s.view, s.pass, c).view)
  {
    UpToDateIffCaughtUp(op, cr, s, c);
    if s.pass.Finish? {
      UpToDateWhenPersisted(op, cr, s, c);
    } else {
      RecordedMeansServed(op, cr, s);
      ServedIffCaughtUp(cr, s.view);
    }
  }
}
