/** What every exit of a pass persists, said in the words a user reads: conditions and their reasons. */
module Statuses {
  import opened Wrappers
  import opened ClusterModel
  import opened Coherence
  import opened Convergence
  import opened TargetSafety
  import Transforms

  // ---------- in every run ----------

  /** The status a pass that went through persists. */
  ghost predicate Concludes(cr: Resource, status: Status, work: Work, failed: bool) {
    && "Ready" in status.conditions
    && status.conditions["Ready"] == (if work.answer.missing == {} then Condition(true, "Synced")
                                      else Condition(false, "MissingKeys"))
    && (cr.rollout == [] ==> "RolloutRestarted" !in status.conditions)
    && (cr.rollout != [] ==>
          && "RolloutRestarted" in status.conditions
          && status.conditions["RolloutRestarted"] == (if failed then Condition(false, "RolloutFailed")
                                                       else Condition(true, "UpToDate")))
    && status.syncedKeys == work.data.Keys && status.missingKeys == work.answer.missing
    && status.observedGeneration == cr.generation
  }

  ghost predicate AsRead(v: View, copy: Copy) {
    copy.version < |v.history| && copy.status == v.history[copy.version]
  }

  /** What the pass is about to persist, or holds before it changes anything. */
  ghost predicate Holds(cr: Resource, v: View, p: Pass) {
    match p
    case Resolve(copy) => AsRead(v, copy)
    case CheckTarget(copy, _) => AsRead(v, copy)
    case ReadHash(copy, _) => AsRead(v, copy)
    case RecordPending(copy, work) =>
      && copy.version < |v.history|
      && copy.status == v.history[copy.version].(lastRolloutHash := work.previous)
    case Fail(copy) => "Ready" in copy.status.conditions && !copy.status.conditions["Ready"].status
    case Finish(copy, work, failed) => Concludes(cr, copy.status, work, failed)
    case _ => true
  }

  lemma EarlyStepHolds(op: Operator, cr: Resource, s: Stepped, c: Choice)
    requires Holds(cr, s.view, s.pass) && (s.pass.Idle? || s.pass.Resolve? || s.pass.CheckTarget? || s.pass.ReadHash?)
    ensures var s' := Step(op, cr, s.view, s.pass, c); Holds(cr, s'.view, s'.pass)
  {
    hide Transformed, HashOf, MustRecord, TargetHash, TokenKey, Concludes;
  }

  lemma LateStepHolds(op: Operator, cr: Resource, s: Stepped, c: Choice)
    requires Fits(cr, s.pass)
    requires !s.pass.Idle? && !s.pass.Resolve? && !s.pass.CheckTarget? && !s.pass.ReadHash?
    ensures var s' := Step(op, cr, s.view, s.pass, c); Holds(cr, s'.view, s'.pass)
  {
    hide Desired, RolloutDue, StartAll, Marker, Concludes, Synced, PutStatus, PutMarker, PutTarget;
    ToFinishConcludes(cr);
  }

  lemma ToFinishConcludes(cr: Resource)
    ensures forall copy, work, failed :: Concludes(cr, Synced(cr, copy, work, failed), work, failed)
  {
  }

  lemma StepHolds(op: Operator, cr: Resource, s: Stepped, c: Choice)
    requires Fits(cr, s.pass) && Holds(cr, s.view, s.pass)
    ensures var s' := Step(op, cr, s.view, s.pass, c); Holds(cr, s'.view, s'.pass)
  {
    if s.pass.Idle? || s.pass.Resolve? || s.pass.CheckTarget? || s.pass.ReadHash? {
      EarlyStepHolds(op, cr, s, c);
    } else {
      LateStepHolds(op, cr, s, c);
    }
  }

  lemma {:induction false} RunHolds(op: Operator, cr: Resource, s: Stepped, moves: seq<Move>)
    requires Fits(cr, s.pass) && Holds(cr, s.view, s.pass)
    ensures var s' := Run(op, cr, s, moves); Holds(cr, s'.view, s'.pass)
    decreases |moves|
  {
    hide Step, Concludes;
    if moves != [] {
      var so, m := Run(op, cr, s, moves[..|moves| - 1]), moves[|moves| - 1];
      RunHolds(op, cr, s, moves[..|moves| - 1]);
      if m.Call? {
        StepHolds(op, cr, so, m.choice);
      }
    }
  }

  /** Every status write of every run that takes effect: a failure exit says Ready=False; a pass that went
      through says what it wrote and whether the rollout failed; recording a pending rollout changes the
      recorded hash and nothing else, to the hash the target is annotated with. */
  lemma EveryStatusWrite(op: Operator, cr: Resource, s: Stepped, moves: seq<Move>, c: Choice)
    requires ValidOperator(op) && Coherent(op, cr, s) && s.pass.Idle? && LegalRun(op, cr, s, moves)
    requires var u := Run(op, cr, s, moves);
             |Step(op, cr, u.view, u.pass, c).view.history| > |u.view.history|
    ensures var u := Run(op, cr, s, moves);
            var v' := Step(op, cr, u.view, u.pass, c).view;
            && u.view.history != [] && v' == u.view.(history := u.view.history + [Latest(v')])
            && (u.pass.Fail? || u.pass.Finish? || u.pass.RecordPending?)
            && (u.pass.Fail? ==> "Ready" in Latest(v').conditions && !Latest(v').conditions["Ready"].status)
            && (u.pass.Finish? ==> Concludes(cr, Latest(v'), u.pass.work, u.pass.failed))
            && (u.pass.RecordPending? ==>
                  && u.view.target.Some? && "ferrvault.com/content-hash" in u.view.target.value.annotations
                  && Latest(v') == Latest(u.view).(
                       lastRolloutHash := u.view.target.value.annotations["ferrvault.com/content-hash"]))
  {
    hide Coherent, Step, LegalRun, Concludes;
    var u := Run(op, cr, s, moves);
    RunHolds(op, cr, s, moves);
    RunCoherent(op, cr, s, moves);
    StatusWriteShape(op, cr, u, c);
  }

  lemma StatusWriteShape(op: Operator, cr: Resource, u: Stepped, c: Choice)
    requires Coherent(op, cr, u) && |Step(op, cr, u.view, u.pass, c).view.history| > |u.view.history|
    ensures u.pass.Fail? || u.pass.Finish? || u.pass.RecordPending?
    ensures u.pass.copy.version + 1 == |u.view.history|
    ensures Step(op, cr, u.view, u.pass, c).view == u.view.(history := u.view.history + [u.pass.copy.status])
    ensures u.pass.RecordPending? ==>
              && u.view.target.Some? && "ferrvault.com/content-hash" in u.view.target.value.annotations
              && u.pass.work.previous == u.view.target.value.annotations["ferrvault.com/content-hash"]
  {
    hide StaysRecorded, GoodWork, MayWrite, Transformed, HashOf, Desired;
  }

  /** A call that fails, or a target that changed under the pass, ends it with Ready=False and the reason
      that names the call. */
  lemma FailedCalls(op: Operator, cr: Resource, s: Stepped, c: Choice)
    requires (s.pass.CheckTarget? || s.pass.ReadHash? || s.pass.ReadTarget? || s.pass.WriteTarget?) && Fits(cr, s.pass)
    requires !c.fault.Success? || (s.pass.WriteTarget? && s.view.target != s.pass.seen)
    ensures var copy := s.pass.copy;
            var reason := if s.pass.CheckTarget? || s.pass.ReadHash? then "SecretReadFailed" else "SecretWriteFailed";
            Step(op, cr, s.view, s.pass, c).pass
            == Fail(copy.(status := copy.status.(
                 conditions := copy.status.conditions["Ready" := Condition(false, reason)])))
  {
    hide AfterHash, AfterCheck, AfterTarget, AfterTargetRead, PutTarget;
  }

  /** A listed workload that is missing, cannot be read, or is of no kind that has a pod template, is not
      restarted and fails the rollout. */
  lemma UnrestartableFails(op: Operator, cr: Resource, s: Stepped, c: Choice)
    requires s.pass.ReadWorkload? && Fits(cr, s.pass)
    requires var w := cr.rollout[s.pass.i];
             w.kind !in {"Deployment", "StatefulSet", "DaemonSet"} || !c.fault.Success? || w !in s.view.workloads
    ensures Step(op, cr, s.view, s.pass, c)
            == Stepped(s.view, AtWorkload(cr, s.pass.copy, s.pass.work, s.pass.i + 1, true))
  {
  }

  /** A pass whose recording of a pending rollout reports a failure is over, and a patch that reports one
      fails the rollout, whether or not they took effect. */
  lemma ReportedFailuresCount(op: Operator, cr: Resource, s: Stepped, c: Choice)
    requires Fits(cr, s.pass) && !c.fault.Success?
    ensures s.pass.RecordPending? || s.pass.Idle? ==> Step(op, cr, s.view, s.pass, c).pass == Idle
    ensures s.pass.PatchWorkload? ==>
              Step(op, cr, s.view, s.pass, c).pass == AtWorkload(cr, s.pass.copy, s.pass.work, s.pass.i + 1, true)
  {
  }

  // ---------- whole passes without faults that end in a failure exit ----------

  ghost predicate Reads(v: View, c: Choice) {
    c.fault.Success? && v.history != [] && c.version == |v.history| - 1
  }

  /** The view after a pass that changed nothing but Ready. */
  ghost function NotReadyView(v: View, reason: string): View
    requires v.history != []
  {
    v.(history := v.history + [Latest(v).(conditions := Latest(v).conditions["Ready" := Condition(false, reason)])])
  }

  lemma FailsAtOnce(op: Operator, cr: Resource, v: View, c: Choice, reason: string)
    requires Reads(v, c)
    requires var copy := Copy(|v.history| - 1, Latest(v));
             AfterUpstream(op, cr, copy, c.upstream) == NotReady(copy, reason)
    ensures WholePass(op, cr, v, Always(c)) == NotReadyView(v, reason)
  {
    hide AfterUpstream, Leads;
    var copy := Copy(|v.history| - 1, Latest(v));
    var s0, s1 := Stepped(v, Resolve(copy)), Stepped(v, NotReady(copy, reason));
    assert Step(op, cr, v, Idle, c) == s0;
    LeadsOn(op, cr, c, s0);
    assert Step(op, cr, v, s0.pass, c) == s1;
    LeadsOn(op, cr, c, s1);
    var end := NotReadyView(v, reason);
    assert Step(op, cr, v, s1.pass, c) == Stepped(end, Idle);
    LeadsFurther(op, cr, c, s0, s1, Stepped(end, Idle));
    LeadsToEnd(op, cr, v, c, end);
  }

  /** A pass that cannot ask FerrVault, or whose reveal fails, changes Ready and nothing else. */
  lemma RefusedPass(op: Operator, cr: Resource, v: View, c: Choice)
    requires Reads(v, c) && (c.upstream.Unresolved? || c.upstream.Refused?)
    ensures var v' := WholePass(op, cr, v, Always(c));
            match c.upstream
            case Unresolved(NoConnection) => v' == NotReadyView(v, "ConnectionNotFound")
            case Unresolved(NoToken) => v' == NotReadyView(v, "TokenUnreadable")
            case Unresolved(NoClient) => v' == NotReadyView(v, "InvalidConnection")
            case Unresolved(NoScope) => v' == NotReadyView(v, "MissingCloudScope")
            case Refused(Unauthorised) => v' == NotReadyView(v, "AuthFailed")
            case Refused(NotFound) => v' == NotReadyView(v, "VaultNotFound")
            case Refused(OtherError) => v' == NotReadyView(v, "Unreachable")
            case _ => true
  {
    hide WholePass, NotReadyView;
    FailsAtOnce(op, cr, v, c, if c.upstream.Unresolved? then ObstacleReason(c.upstream.obstacle)
                              else ErrorReason(c.upstream.error));
  }

  /** So does a pass whose answer a transform rejects, or that would drop the connection's own token. */
  lemma RejectedAnswerPass(op: Operator, cr: Resource, v: View, c: Choice)
    requires Reads(v, c) && c.upstream.Revealed?
    ensures var applied := Transforms.Apply(op.lib, c.upstream.answer.secrets, cr.transforms);
            var v' := WholePass(op, cr, v, Always(c));
            && (applied.error.Some? ==> v' == NotReadyView(v, "TransformError"))
            && (applied.error.None? && cr.tokenRef.Some?
                && cr.tokenRef.value.0 == (if cr.targetName != "" then cr.targetName else cr.name)
                && cr.tokenRef.value.1 !in applied.data ==>
                  v' == NotReadyView(v, "TokenKeyMissing"))
  {
    hide WholePass, NotReadyView, Transforms.Apply;
    var applied := Transforms.Apply(op.lib, c.upstream.answer.secrets, cr.transforms);
    if applied.error.Some? {
      FailsAtOnce(op, cr, v, c, "TransformError");
    } else if TokenKey(cr).Some? && TokenKey(cr).value !in applied.data {
      FailsAtOnce(op, cr, v, c, "TokenKeyMissing");
    }
  }

  // ---------- whole passes without faults that meet an existing target ----------

  lemma RefusedWriteEnds(op: Operator, cr: Resource, v: View, c: Choice, reason: string)
    requires CanAsk(op, cr, v, c)
    requires AfterTargetRead(cr, FreshCopy(op, cr, v, c), NewWork(op, cr, v, c), v.target)
             == NotReady(FreshCopy(op, cr, v, c), reason)
    ensures var v' := WholePass(op, cr, v, Always(c));
            && v'.(history := v.history) == v && v'.history != []
            && Latest(v').conditions == Latest(v).conditions["Ready" := Condition(false, reason)]
  {
    hide Leads, Desired, MustRecord, TargetHash, AfterTargetRead, NewData, NewHash, NewWork;
    var copy, work, v1 := FreshCopy(op, cr, v, c), NewWork(op, cr, v, c), AfterRecording(op, cr, v, c);
    ReachesHashRead(op, cr, v, c);
    RecordsPending(op, cr, v, c);
    var s0 := Step(op, cr, v, Idle, c);
    var s1 := Stepped(v1, ReadTarget(copy, work));
    LeadsFurther(op, cr, c, s0, Stepped(v, ReadHash(Copy(|v.history| - 1, Latest(v)), work.(previous := ""))), s1);
    var s2 := Stepped(v1, NotReady(copy, reason));
    assert Step(op, cr, v1, s1.pass, c) == s2;
    LeadsOn(op, cr, c, s1);
    LeadsFurther(op, cr, c, s0, s1, s2);
    var end := v1.(history := v1.history + [s2.pass.copy.status]);
    assert Step(op, cr, v1, s2.pass, c) == Stepped(end, Idle);
    LeadsOn(op, cr, c, s2);
    LeadsFurther(op, cr, c, s0, s2, Stepped(end, Idle));
    LeadsToEnd(op, cr, v, c, end);
  }

  /** A pass that finds a Secret it must not adopt, or that another object controls, says so and writes
      nothing but status. */
  lemma RefusedTargetPass(op: Operator, cr: Resource, v: View, c: Choice)
    requires CanAsk(op, cr, v, c) && v.target.Some? && !IsTokenSecret(cr)
    ensures var secret, v' := v.target.value, WholePass(op, cr, v, Always(c));
            var mine := "ferrvault.com/managed-by" in secret.annotations
                        || exists ref | ref in secret.owners :: ref.uid == cr.uid;
            && (!mine || OtherControls(cr, secret.owners) ==> v'.(history := v.history) == v && v'.history != [])
            && (!mine ==>
                  Latest(v').conditions == Latest(v).conditions["Ready" := Condition(false, "TargetConflict")])
            && (mine && OtherControls(cr, secret.owners) ==>
                  Latest(v').conditions == Latest(v).conditions["Ready" := Condition(false, "SecretWriteFailed")])
  {
    hide Desired, WholePass, OtherControls, IsTokenSecret, FreshCopy, Transformed, HashOf;
    RefusedExactly(cr, v.target.value, NewData(op, cr, c), NewHash(op, cr, c));
    var desired := Desired(cr, v.target, NewData(op, cr, c), NewHash(op, cr, c));
    if desired.Err? {
      RefusedWriteEnds(op, cr, v, c, if desired.error.TargetConflict? then "TargetConflict" else "SecretWriteFailed");
    }
  }

  /** The converse of both refusals: a Secret that carries the operator's annotation, is owned by this
      resource, or is the connection's token Secret, is written when no other object controls it. */
  lemma OwnTargetIsWritten(op: Operator, cr: Resource, v: View, c: Choice)
    requires CanAsk(op, cr, v, c) && v.target.Some?
    requires forall w | w in cr.rollout :: w.kind in {"Deployment", "StatefulSet", "DaemonSet"} && w in v.workloads
    requires || "ferrvault.com/managed-by" in v.target.value.annotations
             || (exists ref | ref in v.target.value.owners :: ref.uid == cr.uid)
             || IsTokenSecret(cr)
    requires IsTokenSecret(cr) || !OtherControls(cr, v.target.value.owners)
    ensures CanSync(op, cr, v, c)
    ensures var v' := WholePass(op, cr, v, Always(c));
            && v'.target.Some? && v'.target.value.data == NewData(op, cr, c)
            && Annotated(v') == NewHash(op, cr, c)
  {
    hide Desired, WholePass, OtherControls, IsTokenSecret;
    RefusedExactly(cr, v.target.value, NewData(op, cr, c), NewHash(op, cr, c));
    assert v.target == Some(v.target.value);
    OnePassConverges(op, cr, v, c);
  }

  /** An incomplete answer creates a target that does not exist, and says what is missing. */
  lemma IncompleteAnswerCreates(op: Operator, cr: Resource, v: View, c: Choice)
    requires CanSync(op, cr, v, c) && c.upstream.answer.missing != {}
    ensures v.target.None?
    ensures var v' := WholePass(op, cr, v, Always(c));
            && v'.target.Some? && v'.target.value.data == NewData(op, cr, c) && v'.history != []
            && "Ready" in Latest(v').conditions && Latest(v').conditions["Ready"] == Condition(false, "MissingKeys")
            && Latest(v').missingKeys == c.upstream.answer.missing
  {
    OnePassConverges(op, cr, v, c);
  }
}
