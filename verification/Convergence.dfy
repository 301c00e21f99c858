/** One pass without faults brings the target and the workloads up to date; the passes after it change
    nothing. The exception is exactly the revert of a pending rollout. */
module Convergence {
  import opened Wrappers
  import opened ClusterModel
  import opened Coherence
  import opened RolloutSafety
  import TargetSafety

  // ---------- passes under one constant choice ----------

  /** The environment that meets every call of a pass in the same way. */
  function Always(c: Choice): Script {
    (n: nat) => c
  }

  /** At most `k` steps, stopping when the pass is over. */
  ghost function Advance(op: Operator, cr: Resource, s: Stepped, c: Choice, k: nat): (t: Stepped)
    requires Fits(cr, s.pass)
    ensures Fits(cr, t.pass)
    decreases k
  {
    if k == 0 || s.pass.Idle? then s else Advance(op, cr, Step(op, cr, s.view, s.pass, c), c, k - 1)
  }

  ghost predicate Leads(op: Operator, cr: Resource, c: Choice, s: Stepped, t: Stepped) {
    Fits(cr, s.pass) && exists k :: Advance(op, cr, s, c, k) == t
  }

  lemma LeadsOn(op: Operator, cr: Resource, c: Choice, s: Stepped)
    requires Fits(cr, s.pass)
    ensures Leads(op, cr, c, s, s)
    ensures !s.pass.Idle? ==> Leads(op, cr, c, s, Step(op, cr, s.view, s.pass, c))
  {
    assert Advance(op, cr, s, c, 0) == s;
    if !s.pass.Idle? {
      var t := Step(op, cr, s.view, s.pass, c);
      assert Advance(op, cr, s, c, 1) == Advance(op, cr, t, c, 0) == t;
    }
  }

  lemma {:induction false} AdvanceAdds(op: Operator, cr: Resource, c: Choice, s: Stepped, j: nat, k: nat)
    requires Fits(cr, s.pass)
    ensures Advance(op, cr, s, c, j + k) == Advance(op, cr, Advance(op, cr, s, c, j), c, k)
    decreases j
  {
    hide Step, Fits;
    if j > 0 && !s.pass.Idle? {
      AdvanceAdds(op, cr, c, Step(op, cr, s.view, s.pass, c), j - 1, k);
    }
  }

  lemma LeadsFurther(op: Operator, cr: Resource, c: Choice, s: Stepped, t: Stepped, u: Stepped)
    requires Leads(op, cr, c, s, t) && Leads(op, cr, c, t, u)
    ensures Leads(op, cr, c, s, u)
  {
    hide Step, Fits;
    var j :| Advance(op, cr, s, c, j) == t;
    var k :| Advance(op, cr, t, c, k) == u;
    AdvanceAdds(op, cr, c, s, j, k);
  }

  lemma {:induction false} AdvanceDrains(op: Operator, cr: Resource, c: Choice, s: Stepped, k: nat, n: nat)
    requires Fits(cr, s.pass) && Advance(op, cr, s, c, k).pass.Idle?
    ensures Drain(op, cr, s.view, s.pass, Always(c), n) == Advance(op, cr, s, c, k).view
    decreases k
  {
    hide Step, Fits, Remaining;
    if k > 0 && !s.pass.Idle? {
      AdvanceDrains(op, cr, c, Step(op, cr, s.view, s.pass, c), k - 1, n + 1);
    }
  }

  lemma LeadsToEnd(op: Operator, cr: Resource, v: View, c: Choice, end: View)
    requires Leads(op, cr, c, Step(op, cr, v, Idle, c), Stepped(end, Idle))
    ensures WholePass(op, cr, v, Always(c)) == end
  {
    hide Step, Fits;
    var k :| Advance(op, cr, Step(op, cr, v, Idle, c), c, k) == Stepped(end, Idle);
    AdvanceDrains(op, cr, c, Step(op, cr, v, Idle, c), k, 1);
  }

  // ---------- the stages of a pass without faults ----------

  /** The pass gets as far as the target: the calls succeed, the copy read is current, and the answer
      transforms and is complete or creates a target that is not empty. */
  ghost predicate CanAsk(op: Operator, cr: Resource, v: View, c: Choice) {
    && c.fault.Success? && v.history != [] && c.version == |v.history| - 1
    && c.upstream.Revealed? && Transformed(op, cr, c.upstream.answer.secrets).Some?
    && (c.upstream.answer.missing == {} || (v.target.None? && NewData(op, cr, c) != map[]))
    && (TokenKey(cr).Some? ==> TokenKey(cr).value in NewData(op, cr, c))
  }

  /** Nothing stands in the way: the target may be written as well, and every listed workload exists and
      is of a kind that can be restarted. */
  ghost predicate CanSync(op: Operator, cr: Resource, v: View, c: Choice) {
    && CanAsk(op, cr, v, c)
    && Desired(cr, v.target, NewData(op, cr, c), NewHash(op, cr, c)).Ok?
    && forall w | w in cr.rollout :: w.kind in {"Deployment", "StatefulSet", "DaemonSet"} && w in v.workloads
  }

  ghost function NewData(op: Operator, cr: Resource, c: Choice): Data
    requires c.upstream.Revealed? && Transformed(op, cr, c.upstream.answer.secrets).Some?
  {
    Transformed(op, cr, c.upstream.answer.secrets).value
  }

  ghost function NewHash(op: Operator, cr: Resource, c: Choice): string
    requires c.upstream.Revealed? && Transformed(op, cr, c.upstream.answer.secrets).Some?
  {
    HashOf(op, NewData(op, cr, c))
  }

  ghost function NewTarget(op: Operator, cr: Resource, v: View, c: Choice): Secret
    requires CanSync(op, cr, v, c)
  {
    Desired(cr, v.target, NewData(op, cr, c), NewHash(op, cr, c)).value
  }

  ghost function NewWork(op: Operator, cr: Resource, v: View, c: Choice): Work
    requires CanAsk(op, cr, v, c)
  {
    Work(c.upstream.answer, NewData(op, cr, c), NewHash(op, cr, c), TargetHash(v))
  }

  ghost predicate Recording(op: Operator, cr: Resource, v: View, c: Choice)
    requires CanAsk(op, cr, v, c)
  {
    MustRecord(cr, Recorded(v), TargetHash(v), NewHash(op, cr, c))
  }

  /** The copy and the view once a pending rollout, if any, has been recorded. */
  ghost function FreshCopy(op: Operator, cr: Resource, v: View, c: Choice): Copy
    requires CanAsk(op, cr, v, c)
  {
    var copy := Copy(|v.history| - 1, Latest(v));
    if Recording(op, cr, v, c) then WithHash(copy, TargetHash(v)).(version := |v.history|) else copy
  }

  ghost function AfterRecording(op: Operator, cr: Resource, v: View, c: Choice): View
    requires CanAsk(op, cr, v, c)
  {
    if Recording(op, cr, v, c) then v.(history := v.history + [FreshCopy(op, cr, v, c).status]) else v
  }

  ghost function AfterWriting(op: Operator, cr: Resource, v: View, c: Choice): View
    requires CanSync(op, cr, v, c)
  {
    var v' := AfterRecording(op, cr, v, c);
    if v.target == Some(NewTarget(op, cr, v, c)) then v'
    else PutTarget(cr, v', NewWork(op, cr, v, c), NewTarget(op, cr, v, c))
  }

  lemma WritingKeepsTheRest(op: Operator, cr: Resource, v: View, c: Choice)
    requires CanSync(op, cr, v, c)
    ensures var v', so := AfterWriting(op, cr, v, c), AfterRecording(op, cr, v, c);
            && v'.target == Some(NewTarget(op, cr, v, c)) && v'.workloads == v.workloads
            && v'.history == so.history && v'.history != []
  {
    hide NewTarget, Recording, StartAll, NewWork, NewHash, NewData, FreshCopy, Desired;
  }

  lemma ReachesHashRead(op: Operator, cr: Resource, v: View, c: Choice)
    requires CanAsk(op, cr, v, c)
    ensures Leads(op, cr, c, Step(op, cr, v, Idle, c),
                  Stepped(v, ReadHash(Copy(|v.history| - 1, Latest(v)), NewWork(op, cr, v, c).(previous := ""))))
  {
    hide Desired, Leads, HashOf, TargetHash;
    var copy, work := Copy(|v.history| - 1, Latest(v)), NewWork(op, cr, v, c).(previous := "");
    var s := Stepped(v, Resolve(copy));
    assert Step(op, cr, v, Idle, c) == s;
    LeadsOn(op, cr, c, s);
    if c.upstream.answer.missing != {} {
      var t := Stepped(v, CheckTarget(copy, work));
      assert Step(op, cr, v, s.pass, c) == t;
      LeadsOn(op, cr, c, t);
      LeadsFurther(op, cr, c, s, t, Stepped(v, ReadHash(copy, work)));
    }
  }

  lemma RecordsPending(op: Operator, cr: Resource, v: View, c: Choice)
    requires CanAsk(op, cr, v, c)
    ensures Leads(op, cr, c,
                  Stepped(v, ReadHash(Copy(|v.history| - 1, Latest(v)), NewWork(op, cr, v, c).(previous := ""))),
                  Stepped(AfterRecording(op, cr, v, c), ReadTarget(FreshCopy(op, cr, v, c), NewWork(op, cr, v, c))))
  {
    hide Desired, Leads, HashOf, TargetHash, MustRecord;
    var copy, work := Copy(|v.history| - 1, Latest(v)), NewWork(op, cr, v, c);
    var s := Stepped(v, ReadHash(copy, work.(previous := "")));
    LeadsOn(op, cr, c, s);
    if Recording(op, cr, v, c) {
      var t := Stepped(v, RecordPending(WithHash(copy, TargetHash(v)), work));
      assert Step(op, cr, v, s.pass, c) == t;
      LeadsOn(op, cr, c, t);
      LeadsFurther(op, cr, c, s, t, Step(op, cr, v, t.pass, c));
    }
  }

  lemma WritesTarget(op: Operator, cr: Resource, v: View, c: Choice)
    requires CanSync(op, cr, v, c)
    ensures Leads(op, cr, c,
                  Stepped(AfterRecording(op, cr, v, c), ReadTarget(FreshCopy(op, cr, v, c), NewWork(op, cr, v, c))),
                  Stepped(AfterWriting(op, cr, v, c), AfterTarget(cr, FreshCopy(op, cr, v, c), NewWork(op, cr, v, c))))
  {
    hide Desired, Leads, AfterTarget, PutTarget, FreshCopy, Recording, TargetHash, NewHash, NewData;
    var v', copy, work := AfterRecording(op, cr, v, c), FreshCopy(op, cr, v, c), NewWork(op, cr, v, c);
    var s := Stepped(v', ReadTarget(copy, work));
    LeadsOn(op, cr, c, s);
    if v.target != Some(NewTarget(op, cr, v, c)) {
      var t := Stepped(v', WriteTarget(copy, work, v.target, NewTarget(op, cr, v, c)));
      assert Step(op, cr, v', s.pass, c) == t;
      LeadsOn(op, cr, c, t);
      LeadsFurther(op, cr, c, s, t, Step(op, cr, v', t.pass, c));
    }
  }

  lemma ReachesTargetWritten(op: Operator, cr: Resource, v: View, c: Choice)
    requires CanSync(op, cr, v, c)
    ensures Leads(op, cr, c, Step(op, cr, v, Idle, c),
                  Stepped(AfterWriting(op, cr, v, c), AfterTarget(cr, FreshCopy(op, cr, v, c), NewWork(op, cr, v, c))))
  {
    hide Leads, Step, AfterTarget, AfterRecording, AfterWriting, FreshCopy;
    ReachesHashRead(op, cr, v, c);
    RecordsPending(op, cr, v, c);
    WritesTarget(op, cr, v, c);
    var copy, work := FreshCopy(op, cr, v, c), NewWork(op, cr, v, c);
    var s := Step(op, cr, v, Idle, c);
    var t := Stepped(AfterRecording(op, cr, v, c), ReadTarget(copy, work));
    LeadsFurther(op, cr, c, s, Stepped(v, ReadHash(Copy(|v.history| - 1, Latest(v)), work.(previous := ""))), t);
    LeadsFurther(op, cr, c, s, t, Stepped(AfterWriting(op, cr, v, c), AfterTarget(cr, copy, work)));
  }

  /** The listed workloads from the `i`th on, each restarted unless it carries the marker already. */
  ghost function RestartFrom(cr: Resource, v: View, hash: string, now: string, i: nat): View
    requires i <= |cr.rollout| && forall w | w in cr.rollout :: w in v.workloads
    decreases |cr.rollout| - i
  {
    if i == |cr.rollout| then v
    else if Marker(cr.uid, v.workloads, cr.rollout[i]) == Some(hash) then RestartFrom(cr, v, hash, now, i + 1)
    else RestartFrom(cr, PutMarker(cr, v, cr.rollout[i], hash, now), hash, now, i + 1)
  }

  lemma MarkerServes(cr: Resource, v: View, w: WorkloadRef, hash: string, now: string)
    requires w in v.workloads
    ensures var v' := PutMarker(cr, v, w, hash, now);
            && v'.target == v.target && v'.history == v.history && v'.workloads.Keys == v.workloads.Keys
            && (forall x :: Served(v', x) == if x == w then hash else Served(v, x))
            && forall x :: Marker(cr.uid, v'.workloads, x) ==
                           if x == w then Some(hash) else Marker(cr.uid, v.workloads, x)
  {
    MarkerSet(cr, v, w, hash, now);
  }

  lemma {:induction false} RestartsAll(cr: Resource, v: View, hash: string, now: string, i: nat)
    requires i <= |cr.rollout| && forall w | w in cr.rollout :: w in v.workloads
    requires MarkedBefore(cr, v, hash, i)
    ensures var v' := RestartFrom(cr, v, hash, now, i);
            && MarkedBefore(cr, v', hash, |cr.rollout|)
            && v'.target == v.target && v'.history == v.history && v'.workloads.Keys == v.workloads.Keys
            && (forall w :: Served(v', w) in {Served(v, w), hash})
            && (forall w | w !in cr.rollout || Marker(cr.uid, v.workloads, w) == Some(hash) ::
                  Served(v', w) == Served(v, w))
            && forall w | w in cr.rollout && Marker(cr.uid, v.workloads, w) != Some(hash) :: Served(v', w) == hash
    decreases |cr.rollout| - i
  {
    hide PutMarker, Marker, Served;
    if i < |cr.rollout| {
      var w := cr.rollout[i];
      if Marker(cr.uid, v.workloads, w) == Some(hash) {
        RestartsAll(cr, v, hash, now, i + 1);
      } else {
        MarkerServes(cr, v, w, hash, now);
        RestartsAll(cr, PutMarker(cr, v, w, hash, now), hash, now, i + 1);
      }
    } else {
      forall w | w in cr.rollout
        ensures Marker(cr.uid, v.workloads, w) == Some(hash)
      {
        var j :| 0 <= j < |cr.rollout| && cr.rollout[j] == w;
      }
    }
  }

  lemma {:induction false} ReachesRestarted(op: Operator, cr: Resource, v: View, c: Choice,
                                            copy: Copy, work: Work, i: nat)
    requires c.fault.Success? && i <= |cr.rollout|
    requires forall w | w in cr.rollout :: w.kind in {"Deployment", "StatefulSet", "DaemonSet"} && w in v.workloads
    ensures Leads(op, cr, c, Stepped(v, AtWorkload(cr, copy, work, i, false)),
                  Stepped(RestartFrom(cr, v, work.hash, c.now, i),
                          ToFinish(cr, WithHash(copy, work.hash), work, false)))
    decreases |cr.rollout| - i
  {
    var s := Stepped(v, AtWorkload(cr, copy, work, i, false));
    LeadsOn(op, cr, c, s);
    if i < |cr.rollout| {
      var w, end := cr.rollout[i], ToFinish(cr, WithHash(copy, work.hash), work, false);
      var t := Step(op, cr, v, s.pass, c);
      if Marker(cr.uid, v.workloads, w) == Some(work.hash) {
        ReachesRestarted(op, cr, v, c, copy, work, i + 1);
        LeadsFurther(op, cr, c, s, t, Stepped(RestartFrom(cr, v, work.hash, c.now, i + 1), end));
      } else {
        var v' := PutMarker(cr, v, w, work.hash, c.now);
        LeadsOn(op, cr, c, t);
        var u := Step(op, cr, v, t.pass, c);
        assert u == Stepped(v', AtWorkload(cr, copy, work, i + 1, false));
        LeadsFurther(op, cr, c, s, t, u);
        ReachesRestarted(op, cr, v', c, copy, work, i + 1);
        LeadsFurther(op, cr, c, s, u, Stepped(RestartFrom(cr, v', work.hash, c.now, i + 1), end));
      }
    }
  }

  /** Whether the pass restarts workloads. */
  ghost predicate Restarting(op: Operator, cr: Resource, v: View, c: Choice)
    requires CanSync(op, cr, v, c)
  {
    cr.rollout != [] && RolloutDue(FreshCopy(op, cr, v, c).status.lastRolloutHash, TargetHash(v), NewHash(op, cr, c))
  }

  ghost function AfterRestarting(op: Operator, cr: Resource, v: View, c: Choice): View
    requires CanSync(op, cr, v, c)
  {
    var v' := AfterWriting(op, cr, v, c);
    if Restarting(op, cr, v, c) then RestartFrom(cr, v', NewHash(op, cr, c), c.now, 0) else v'
  }

  ghost function FinalStatus(op: Operator, cr: Resource, v: View, c: Choice): Status
    requires CanSync(op, cr, v, c)
  {
    var hash := if cr.rollout == [] then "" else NewHash(op, cr, c);
    Synced(cr, WithHash(FreshCopy(op, cr, v, c), hash).status, NewWork(op, cr, v, c), false)
  }

  lemma RestartKeepsHistory(op: Operator, cr: Resource, v: View, c: Choice)
    requires CanSync(op, cr, v, c)
    ensures AfterRestarting(op, cr, v, c).history == AfterRecording(op, cr, v, c).history
  {
    hide AfterRecording, AfterWriting, NewTarget, RolloutDue, NewData, NewHash;
    WritingKeepsTheRest(op, cr, v, c);
    if Restarting(op, cr, v, c) {
      RestartsAll(cr, AfterWriting(op, cr, v, c), NewHash(op, cr, c), c.now, 0);
    }
  }

  lemma ReachesFinish(op: Operator, cr: Resource, v: View, c: Choice)
    requires CanSync(op, cr, v, c)
    ensures AfterRestarting(op, cr, v, c).history == AfterRecording(op, cr, v, c).history
    ensures Leads(op, cr, c, Step(op, cr, v, Idle, c),
                  Stepped(AfterRestarting(op, cr, v, c),
                          Finish(Copy(|AfterRecording(op, cr, v, c).history| - 1, FinalStatus(op, cr, v, c)),
                                 NewWork(op, cr, v, c), false)))
  {
    hide Step, AfterWriting, RolloutDue, Synced, Leads, RestartFrom, MustRecord, NewTarget, Desired;
    WritingKeepsTheRest(op, cr, v, c);
    RestartKeepsHistory(op, cr, v, c);
    ReachesTargetWritten(op, cr, v, c);
    var s0, v' := Step(op, cr, v, Idle, c), AfterWriting(op, cr, v, c);
    var copy, work := FreshCopy(op, cr, v, c), NewWork(op, cr, v, c);
    if Restarting(op, cr, v, c) {
      ReachesRestarted(op, cr, v', c, copy, work, 0);
      LeadsFurther(op, cr, c, s0, Stepped(v', AfterTarget(cr, copy, work)),
                   Stepped(AfterRestarting(op, cr, v, c), ToFinish(cr, WithHash(copy, work.hash), work, false)));
    }
  }

  lemma FinishPersists(op: Operator, cr: Resource, v: View, c: Choice, status: Status, work: Work)
    requires c.fault.Success? && v.history != []
    ensures var copy := Copy(|v.history| - 1, status);
            Leads(op, cr, c, Stepped(v, Finish(copy, work, false)), Stepped(v.(history := v.history + [status]), Idle))
  {
    LeadsOn(op, cr, c, Stepped(v, Finish(Copy(|v.history| - 1, status), work, false)));
  }

  /** What a pass without faults leaves behind. */
  lemma PassResult(op: Operator, cr: Resource, v: View, c: Choice)
    requires CanSync(op, cr, v, c)
    ensures var v' := AfterRestarting(op, cr, v, c);
            WholePass(op, cr, v, Always(c)) == v'.(history := v'.history + [FinalStatus(op, cr, v, c)])
  {
    hide Step, Leads, AfterRestarting, AfterRecording, FinalStatus, NewWork;
    ReachesFinish(op, cr, v, c);
    WritingKeepsTheRest(op, cr, v, c);
    var v', status, work := AfterRestarting(op, cr, v, c), FinalStatus(op, cr, v, c), NewWork(op, cr, v, c);
    FinishPersists(op, cr, v', c, status, work);
    var end := v'.(history := v'.history + [status]);
    LeadsFurther(op, cr, c, Step(op, cr, v, Idle, c), Stepped(v', Finish(Copy(|v'.history| - 1, status), work, false)),
                 Stepped(end, Idle));
    LeadsToEnd(op, cr, v, c, end);
  }

  // ---------- convergence and idempotence ----------

  lemma ControllerIsStable(owners: seq<OwnerRef>, cr: Resource)
    requires WithController(owners, cr).Some?
    ensures var refs := WithController(owners, cr).value;
            && WithController(refs, cr) == Some(refs)
            && OwnedBy(refs, cr.uid)
            && |refs| >= |owners|
            && forall i | 0 <= i < |owners| && owners[i].identity != cr.identity :: refs[i] == owners[i]
  {
    var refs, ref := WithController(owners, cr).value, OwnerRef(cr.identity, cr.uid, true);
    var mine := FirstOwner(owners, (r: OwnerRef) => r.identity == cr.identity);
    assert refs[mine] == ref && ref in refs;
    assert FirstOwner(refs, (r: OwnerRef) => r.identity == cr.identity) == mine;
    assert FirstOwner(refs, (r: OwnerRef) => r.controller) == mine;
    assert refs[mine := ref] == refs;
  }

  lemma WithoutOwnerIsStable(owners: seq<OwnerRef>, uid: string)
    ensures WithoutOwner(WithoutOwner(owners, uid), uid) == WithoutOwner(owners, uid)
  {
    TargetSafety.OthersSurviveInOrder(owners, uid);
    TargetSafety.NothingLeftToDrop(WithoutOwner(owners, uid), uid);
  }

  /** What the operator wants of a target it has just written is that same target, and no later content
      meets a conflict there. */
  lemma DesiredIsStable(cr: Resource, existing: Option<Secret>, data: Data, hash: string)
    requires Desired(cr, existing, data, hash).Ok?
    ensures var secret := Desired(cr, existing, data, hash).value;
            && Desired(cr, Some(secret), data, hash) == Ok(secret)
            && secret.data == data && secret.annotations[CONTENT_HASH] == hash
            && forall d, h :: Desired(cr, Some(secret), d, h).Ok?
  {
    hide WithController, WithoutOwner, OwnedBy, TokenKey;
    var base := if existing.Some? then existing.value.owners else [];
    var secret := Desired(cr, existing, data, hash).value;
    if TokenKey(cr).Some? {
      WithoutOwnerIsStable(base, cr.uid);
    } else {
      ControllerIsStable(base, cr);
    }
    assert secret.annotations == secret.annotations[MANAGED_BY := "ferrvault-operator"][CONTENT_HASH := hash];
  }

  /** Target, recorded hash and status all say what `data` says. */
  ghost predicate Converged(op: Operator, cr: Resource, v: View, data: Data) {
    && v.history != [] && v.target.Some? && v.target.value.data == data && TargetHash(v) == HashOf(op, data)
    && Desired(cr, v.target, data, HashOf(op, data)) == Ok(v.target.value)
    && Recorded(v) == (if cr.rollout == [] then "" else HashOf(op, data))
    && "Ready" in Latest(v).conditions
    && Latest(v).conditions["Ready"] == (if Latest(v).missingKeys == {} then Condition(true, "Synced")
                                         else Condition(false, "MissingKeys"))
    && (cr.rollout != [] ==> ToldRollout(Latest(v), true))
    && (cr.rollout == [] ==> ROLLOUT_RESTARTED !in Latest(v).conditions)
    && Latest(v).syncedKeys == data.Keys && Latest(v).observedGeneration == cr.generation
  }

  lemma RestartKeepsTarget(op: Operator, cr: Resource, v: View, c: Choice)
    requires CanSync(op, cr, v, c)
    ensures var v' := AfterRestarting(op, cr, v, c); v'.target == Some(NewTarget(op, cr, v, c))
  {
    hide AfterRecording, AfterWriting, NewTarget, RolloutDue, NewData, NewHash;
    WritingKeepsTheRest(op, cr, v, c);
    if Restarting(op, cr, v, c) {
      RestartsAll(cr, AfterWriting(op, cr, v, c), NewHash(op, cr, c), c.now, 0);
    }
  }

  lemma TargetGetsHash(op: Operator, cr: Resource, v: View, c: Choice)
    requires CanSync(op, cr, v, c)
    ensures NewTarget(op, cr, v, c).data == NewData(op, cr, c)
    ensures CONTENT_HASH in NewTarget(op, cr, v, c).annotations
    ensures NewTarget(op, cr, v, c).annotations[CONTENT_HASH] == NewHash(op, cr, c)
  {
    DesiredIsStable(cr, v.target, NewData(op, cr, c), NewHash(op, cr, c));
  }

  /** One pass without faults converges, whatever state it starts from. */
  lemma OnePassConverges(op: Operator, cr: Resource, v: View, c: Choice)
    requires CanSync(op, cr, v, c)
    ensures var v' := WholePass(op, cr, v, Always(c));
            && Converged(op, cr, v', NewData(op, cr, c))
            && Latest(v').missingKeys == c.upstream.answer.missing
  {
    PassResult(op, cr, v, c);
    RestartKeepsTarget(op, cr, v, c);
    DesiredIsStable(cr, v.target, NewData(op, cr, c), NewHash(op, cr, c));
  }

  /** A pass that finds the same content again writes nothing but its status. */
  lemma QuietPass(op: Operator, cr: Resource, v: View, c: Choice)
    requires CanSync(op, cr, v, c) && Converged(op, cr, v, NewData(op, cr, c))
    ensures var v' := WholePass(op, cr, v, Always(c));
            && Converged(op, cr, v', NewData(op, cr, c))
            && v'.(history := v.history) == v && |v'.history| == |v.history| + 1
  {
    PassResult(op, cr, v, c);
    OnePassConverges(op, cr, v, c);
  }

  /** Passes without faults, one after the other, that all find the content `data`. */
  ghost predicate AllSync(op: Operator, cr: Resource, v: View, cs: seq<Choice>, data: Data)
    decreases |cs|
  {
    cs == [] ||
    (CanSync(op, cr, v, cs[0]) && NewData(op, cr, cs[0]) == data
     && AllSync(op, cr, WholePass(op, cr, v, Always(cs[0])), cs[1..], data))
  }

  ghost function Passes(op: Operator, cr: Resource, v: View, cs: seq<Choice>): View
    decreases |cs|
  {
    if cs == [] then v else Passes(op, cr, WholePass(op, cr, v, Always(cs[0])), cs[1..])
  }

  /** However many passes follow, no Secret is written and no workload patched again. */
  lemma {:induction false} PassesStayQuiet(op: Operator, cr: Resource, v: View, cs: seq<Choice>, data: Data)
    requires Converged(op, cr, v, data) && AllSync(op, cr, v, cs, data)
    ensures var v' := Passes(op, cr, v, cs);
            Converged(op, cr, v', data) && v'.(history := v.history) == v
    decreases |cs|
  {
    if cs != [] {
      QuietPass(op, cr, v, cs[0]);
      PassesStayQuiet(op, cr, WholePass(op, cr, v, Always(cs[0])), cs[1..], data);
    }
  }

  // ---------- exactly which pod templates a pass patches ----------

  /** The annotation under which a resource leaves its hash on a pod template. */
  function HashKey(uid: string): string {
    "ferrvault.com/content-hash." + uid
  }

  ghost predicate Carries(annotations: Annotations, uid: string, hash: string) {
    HashKey(uid) in annotations && annotations[HashKey(uid)] == hash
  }

  lemma {:induction false} RestartsExactly(cr: Resource, v: View, hash: string, now: string, i: nat)
    requires i <= |cr.rollout| && forall w | w in cr.rollout :: w in v.workloads
    ensures var v' := RestartFrom(cr, v, hash, now, i);
            && v'.workloads.Keys == v.workloads.Keys
            && forall w | w in v.workloads ::
                 v'.workloads[w] == if w in cr.rollout[i..] && !Carries(v.workloads[w], cr.uid, hash)
                                    then v.workloads[w]["ferrvault.com/restarted-at" := now][HashKey(cr.uid) := hash]
                                    else v.workloads[w]
    decreases |cr.rollout| - i
  {
    if i < |cr.rollout| {
      var w := cr.rollout[i];
      assert cr.rollout[i..] == [w] + cr.rollout[i + 1..];
      assert MarkerKey(cr.uid) == HashKey(cr.uid);
      hide HashKey, MarkerKey;
      if Marker(cr.uid, v.workloads, w) == Some(hash) {
        RestartsExactly(cr, v, hash, now, i + 1);
      } else {
        RestartsExactly(cr, PutMarker(cr, v, w, hash, now), hash, now, i + 1);
      }
    }
  }

  /** The hash the target is annotated with, or nothing. */
  ghost function Annotated(v: View): string {
    if v.target.Some? && "ferrvault.com/content-hash" in v.target.value.annotations
    then v.target.value.annotations["ferrvault.com/content-hash"] else ""
  }

  /** A pass without faults patches a pod template exactly when its workload is listed, does not carry the
      new hash, and the new hash differs from the recorded one, or from the target's while none is recorded
      and it had one. The patch is the time and the hash, and touches no other annotation. */
  lemma PassPatchesExactly(op: Operator, cr: Resource, v: View, c: Choice)
    requires CanSync(op, cr, v, c)
    ensures var v', hash := WholePass(op, cr, v, Always(c)), NewHash(op, cr, c);
            var last := if Latest(v).lastRolloutHash != "" then Latest(v).lastRolloutHash else Annotated(v);
            && v'.workloads.Keys == v.workloads.Keys
            && forall w | w in v.workloads ::
                 v'.workloads[w] ==
                   if w in cr.rollout && last != "" && last != hash && !Carries(v.workloads[w], cr.uid, hash)
                   then v.workloads[w]["ferrvault.com/restarted-at" := c.now][HashKey(cr.uid) := hash]
                   else v.workloads[w]
  {
    hide WholePass, AfterWriting, AfterRecording, Desired, NewHash, FinalStatus, RestartFrom, Carries, HashKey;
    PassResult(op, cr, v, c);
    WritingKeepsTheRest(op, cr, v, c);
    assert Annotated(v) == TargetHash(v);
    if Restarting(op, cr, v, c) {
      RestartsExactly(cr, AfterWriting(op, cr, v, c), NewHash(op, cr, c), c.now, 0);
      assert cr.rollout[0..] == cr.rollout;
    }
  }

  /** It persists its result, and before that the pending rollout exactly when workloads are listed, no
      hash is recorded, and the target has one that differs from the new one. */
  lemma PassRecordsExactly(op: Operator, cr: Resource, v: View, c: Choice)
    requires CanSync(op, cr, v, c)
    ensures var v' := WholePass(op, cr, v, Always(c));
            var pending := cr.rollout != [] && Latest(v).lastRolloutHash == ""
                           && Annotated(v) != "" && Annotated(v) != NewHash(op, cr, c);
            && v'.history != []
            && v'.history == v.history + (if pending then [Latest(v).(lastRolloutHash := Annotated(v))] else [])
                             + [Latest(v')]
  {
    hide WholePass, AfterWriting, AfterRestarting, Desired, NewHash, FinalStatus;
    PassResult(op, cr, v, c);
    RestartKeepsHistory(op, cr, v, c);
    assert Annotated(v) == TargetHash(v);
  }

  /** What it means that the next pass is due. */
  lemma DueWhenRecordedDiffers(v: View)
    requires v.history != []
    ensures NextPassIsDue(v) <==> Latest(v).lastRolloutHash != "" && Latest(v).lastRolloutHash != Annotated(v)
  {
  }

  // ---------- exactly when a pass leaves no workload behind ----------

  lemma WritingServes(op: Operator, cr: Resource, v: View, c: Choice)
    requires CanSync(op, cr, v, c)
    ensures var v' := AfterWriting(op, cr, v, c);
            && (forall w | w in cr.rollout ::
                  Served(v', w) == if v.target.None? then NewHash(op, cr, c) else Served(v, w))
            && forall w :: Marker(cr.uid, v'.workloads, w) == Marker(cr.uid, v.workloads, w)
  {
    hide Desired, Recording, FreshCopy, NewHash, NewData, Marker;
  }

  lemma RestartingServesAll(op: Operator, cr: Resource, v: View, c: Choice)
    requires ValidOperator(op) && CanSync(op, cr, v, c) && Ledger(cr, v) && Restarting(op, cr, v, c)
    ensures AllServed(cr, AfterRestarting(op, cr, v, c))
    ensures MarkedBefore(cr, AfterRestarting(op, cr, v, c), NewHash(op, cr, c), |cr.rollout|)
  {
    hide Desired, AfterWriting, AfterRecording, FreshCopy, NewHash, NewTarget, Served, Marker, RestartFrom;
    var v', hash := AfterWriting(op, cr, v, c), NewHash(op, cr, c);
    WritingKeepsTheRest(op, cr, v, c);
    WritingServes(op, cr, v, c);
    RestartsAll(cr, v', hash, c.now, 0);
    RestartKeepsTarget(op, cr, v, c);
    TargetGetsHash(op, cr, v, c);
    forall w | w in cr.rollout
      ensures Served(AfterRestarting(op, cr, v, c), w) == hash
    {
      if Marker(cr.uid, v'.workloads, w) == Some(hash) {
        assert Marker(cr.uid, v.workloads, w) == Some(hash);
        assert Served(v, w) == hash;
      }
    }
  }

  lemma NewHashIsSet(op: Operator, cr: Resource, v: View, c: Choice)
    requires ValidOperator(op) && CanSync(op, cr, v, c)
    ensures NewHash(op, cr, c) != ""
  {
    hide Desired, NewData;
  }

  lemma NotRestartingServes(op: Operator, cr: Resource, v: View, c: Choice)
    requires ValidOperator(op) && CanSync(op, cr, v, c) && cr.rollout != [] && !Restarting(op, cr, v, c)
    requires Ledger(cr, v)
    ensures var v', hash := AfterWriting(op, cr, v, c), NewHash(op, cr, c);
            (forall w | w in cr.rollout :: Served(v', w) == hash) <==> !LeavesBehind(cr, v, hash)
  {
    hide Desired, AfterWriting, NewData, NewHash, Served, Marker;
    WritingServes(op, cr, v, c);
    NewHashIsSet(op, cr, v, c);
  }

  lemma RestartingLeavesNone(op: Operator, cr: Resource, v: View, c: Choice)
    requires ValidOperator(op) && CanSync(op, cr, v, c) && Restarting(op, cr, v, c)
    ensures !LeavesBehind(cr, v, NewHash(op, cr, c))
  {
    hide Desired, NewHash, TargetHash, Marker;
    NewHashIsSet(op, cr, v, c);
  }

  /** After a pass without faults, from whatever state: every listed workload was served the new content,
      unless the pass leaves one behind. */
  lemma PassServesAllIffNoneLeft(op: Operator, cr: Resource, v: View, c: Choice)
    requires ValidOperator(op) && CanSync(op, cr, v, c) && cr.rollout != [] && Ledger(cr, v)
    ensures var v' := WholePass(op, cr, v, Always(c));
            && (AllServed(cr, v') <==> !LeavesBehind(cr, v, NewHash(op, cr, c)))
            && (NoLostRollout(cr, v') <==> !LeavesBehind(cr, v, NewHash(op, cr, c)))
  {
    hide Desired, WholePass, AfterRecording, AfterWriting, NewTarget, FinalStatus, RestartFrom;
    hide LeavesBehind, Restarting;
    var v', v1, hash := WholePass(op, cr, v, Always(c)), AfterRestarting(op, cr, v, c), NewHash(op, cr, c);
    PassResult(op, cr, v, c);
    OnePassConverges(op, cr, v, c);
    assert forall w :: Served(v', w) == Served(v1, w);
    if Restarting(op, cr, v, c) {
      RestartingServesAll(op, cr, v, c);
      RestartingLeavesNone(op, cr, v, c);
    } else {
      NotRestartingServes(op, cr, v, c);
    }
    assert cr.rollout[0] in cr.rollout;
  }

  /** From a state where no rollout is lost, it leaves one behind exactly when it is a revert. */
  lemma PassServesAllIffNoRevert(op: Operator, cr: Resource, v: View, c: Choice)
    requires ValidOperator(op) && CanSync(op, cr, v, c) && cr.rollout != []
    requires Ledger(cr, v) && NoLostRollout(cr, v)
    ensures var v' := WholePass(op, cr, v, Always(c));
            && (AllServed(cr, v') <==> !Reverts(cr, v, NewHash(op, cr, c)))
            && (NoLostRollout(cr, v') <==> !Reverts(cr, v, NewHash(op, cr, c)))
  {
    hide Desired, WholePass, NewHash, LeavesBehind, Reverts, Ledger, NoLostRollout, AllServed;
    NewHashIsSet(op, cr, v, c);
    PassServesAllIffNoneLeft(op, cr, v, c);
    LeavesBehindIffReverts(cr, v, NewHash(op, cr, c));
  }

  // ---------- an incomplete answer ----------

  /** The answer lacks secrets, and the target exists or there is nothing to write. */
  ghost predicate MustNotWrite(op: Operator, cr: Resource, v: View, c: Choice) {
    && c.fault.Success? && v.history != [] && c.version == |v.history| - 1
    && c.upstream.Revealed? && c.upstream.answer.missing != {}
    && Transformed(op, cr, c.upstream.answer.secrets).Some?
    && (TokenKey(cr).Some? ==> TokenKey(cr).value in NewData(op, cr, c))
    && (v.target.Some? || NewData(op, cr, c) == map[])
  }

  /** The pass writes nothing but its status. That status names the missing keys and claims the current
      generation as observed, while the synced keys and the recorded hash stay those of the last sync. */
  lemma IncompleteAnswerWritesNothing(op: Operator, cr: Resource, v: View, c: Choice)
    requires MustNotWrite(op, cr, v, c)
    ensures var v' := WholePass(op, cr, v, Always(c));
            && v'.(history := v.history) == v && |v'.history| == |v.history| + 1
            && Latest(v') == Latest(v).(conditions := Latest(v).conditions[READY := Condition(false, "MissingKeys")],
                                        missingKeys := c.upstream.answer.missing,
                                        observedGeneration := cr.generation)
  {
    hide Leads, Transformed, HashOf;
    var copy := Copy(|v.history| - 1, Latest(v));
    var work := Work(c.upstream.answer, NewData(op, cr, c), NewHash(op, cr, c), "");
    var s0, s1 := Stepped(v, Resolve(copy)), Stepped(v, CheckTarget(copy, work));
    assert Step(op, cr, v, Idle, c) == s0;
    LeadsOn(op, cr, c, s0);
    assert Step(op, cr, v, s0.pass, c) == s1;
    LeadsOn(op, cr, c, s1);
    var s2 := Stepped(v, AfterCheck(cr, copy, work, v.target.Some?));
    LeadsFurther(op, cr, c, s0, s1, s2);
    LeadsOn(op, cr, c, s2);
    var end := v.(history := v.history + [s2.pass.copy.status]);
    LeadsFurther(op, cr, c, s0, s2, Stepped(end, Idle));
    LeadsToEnd(op, cr, v, c, end);
  }
}
