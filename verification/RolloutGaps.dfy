/** Two things the rollout protocol does not do, each shown by runs it really has. */
module RolloutGaps {
  import opened Wrappers
  import opened ClusterModel
  import opened Coherence
  import opened RolloutSafety
  import opened Convergence
  import ContentHash
  import Strings
  import Transforms

  ghost predicate Reaches(op: Operator, cr: Resource, s: Stepped, t: Stepped) {
    && Fits(cr, s.pass)
    && exists moves {:trigger LegalRun(op, cr, s, moves)} ::
         LegalRun(op, cr, s, moves) && Run(op, cr, s, moves) == t
  }

  lemma ReachesItself(op: Operator, cr: Resource, s: Stepped)
    requires Fits(cr, s.pass)
    ensures Reaches(op, cr, s, s)
  {
    assert LegalRun(op, cr, s, []) && Run(op, cr, s, []) == s;
  }

  lemma ReachesMore(op: Operator, cr: Resource, s: Stepped, t: Stepped, m: Move)
    requires Reaches(op, cr, s, t) && Fits(cr, t.pass) && !m.Meddle?
    ensures Reaches(op, cr, s, Moved(op, cr, t, m))
  {
    var moves :| LegalRun(op, cr, s, moves) && Run(op, cr, s, moves) == t;
    OneMoreMove(op, cr, s, moves, m);
    assert LegalRun(op, cr, s, moves + [m]);
  }

  lemma {:induction false} AdvanceIsRun(op: Operator, cr: Resource, s: Stepped, moves: seq<Move>, c: Choice, k: nat)
    returns (longer: seq<Move>)
    requires Fits(cr, s.pass) && LegalRun(op, cr, s, moves)
    ensures LegalRun(op, cr, s, longer)
    ensures Run(op, cr, s, longer) == Advance(op, cr, Run(op, cr, s, moves), c, k)
    decreases k
  {
    hide Step, LegalRun;
    longer := moves;
    if k > 0 && !Run(op, cr, s, moves).pass.Idle? {
      OneMoreMove(op, cr, s, moves, Call(c));
      longer := AdvanceIsRun(op, cr, s, moves + [Call(c)], c, k - 1);
    }
  }

  lemma ReachesAdvanced(op: Operator, cr: Resource, s: Stepped, t: Stepped, c: Choice, k: nat, u: Stepped)
    requires Reaches(op, cr, s, t) && Fits(cr, t.pass) && Advance(op, cr, t, c, k) == u
    ensures Reaches(op, cr, s, u)
  {
    var moves :| LegalRun(op, cr, s, moves) && Run(op, cr, s, moves) == t;
    var longer := AdvanceIsRun(op, cr, s, moves, c, k);
    assert LegalRun(op, cr, s, longer);
  }

  lemma ReachesLed(op: Operator, cr: Resource, v: View, c: Choice, t: Stepped)
    requires Leads(op, cr, c, Step(op, cr, v, Idle, c), t)
    ensures Reaches(op, cr, Stepped(v, Idle), t)
  {
    var s := Stepped(v, Idle);
    var first := Moved(op, cr, s, Call(c));
    ReachesItself(op, cr, s);
    ReachesMore(op, cr, s, s, Call(c));
    var k :| Advance(op, cr, first, c, k) == t;
    ReachesAdvanced(op, cr, s, first, c, k, t);
  }

  /** A pass that starts now and dies on reaching `t` leaves the view of `t`. */
  lemma ReachesDead(op: Operator, cr: Resource, v: View, c: Choice, t: Stepped)
    requires Leads(op, cr, c, Step(op, cr, v, Idle, c), t)
    ensures Reaches(op, cr, Stepped(v, Idle), Stepped(t.view, Idle))
  {
    ReachesLed(op, cr, v, c, t);
    ReachesMore(op, cr, Stepped(v, Idle), t, Crash);
  }

  /** Nothing is pending: every listed workload was served what the target holds. */
  ghost predicate Settled(cr: Resource, v: View) {
    && cr.rollout != [] && Ledger(cr, v) && AllServed(cr, v)
    && v.target.Some? && Recorded(v) in {"", TargetHash(v)}
  }

  /** The cluster when a pass for the content of `b` dies just before its last call. */
  ghost function DeadBeforeFinish(op: Operator, cr: Resource, v: View, b: Choice): View
    requires CanSync(op, cr, v, b)
  {
    AfterRestarting(op, cr, v, b)
  }

  lemma DeadHasRecorded(op: Operator, cr: Resource, v: View, b: Choice)
    requires CanSync(op, cr, v, b) && Settled(cr, v) && NewHash(op, cr, b) != TargetHash(v)
    ensures Restarting(op, cr, v, b)
    ensures var v1 := AfterRecording(op, cr, v, b); v1.history != [] && Recorded(v1) == TargetHash(v)
  {
    hide CanSync, NewHash, AllServed, Desired;
  }

  lemma DeadIsPending(op: Operator, cr: Resource, v: View, b: Choice)
    requires ValidOperator(op) && CanSync(op, cr, v, b) && Settled(cr, v) && NewHash(op, cr, b) != TargetHash(v)
    ensures var v1 := DeadBeforeFinish(op, cr, v, b);
            && v1.history != [] && Recorded(v1) == TargetHash(v) && TargetHash(v1) == NewHash(op, cr, b)
            && MarkedBefore(cr, v1, NewHash(op, cr, b), |cr.rollout|) && AllServed(cr, v1)
  {
    hide CanSync, AfterRestarting, AfterRecording, Restarting, AllServed, MarkedBefore, Desired, NewHash;
    DeadHasRecorded(op, cr, v, b);
    RestartKeepsTarget(op, cr, v, b);
    RestartingServesAll(op, cr, v, b);
    ReachesFinish(op, cr, v, b);
    TargetGetsHash(op, cr, v, b);
  }

  lemma DeadIsReachable(op: Operator, cr: Resource, v: View, b: Choice)
    requires CanSync(op, cr, v, b)
    ensures Reaches(op, cr, Stepped(v, Idle), Stepped(DeadBeforeFinish(op, cr, v, b), Idle))
  {
    ReachesFinish(op, cr, v, b);
    var copy := Copy(|AfterRecording(op, cr, v, b).history| - 1, FinalStatus(op, cr, v, b));
    ReachesDead(op, cr, v, b, Stepped(AfterRestarting(op, cr, v, b), Finish(copy, NewWork(op, cr, v, b), false)));
  }

  lemma MarkedElsewhereReverts(op: Operator, cr: Resource, v: View, hash: string)
    requires cr.rollout != [] && v.target.Some? && v.history != []
    requires Recorded(v) == hash && TargetHash(v) !in {"", hash} && MarkedBefore(cr, v, TargetHash(v), |cr.rollout|)
    requires AllServed(cr, v)
    ensures Reverts(cr, v, hash) && Ledger(cr, v) && NoLostRollout(cr, v)
  {
    forall w | w in cr.rollout
      ensures Marker(cr.uid, v.workloads, w) == Some(TargetHash(v))
    {
      var j :| 0 <= j < |cr.rollout| && cr.rollout[j] == w;
    }
    assert cr.rollout[0] in cr.rollout;
  }

  /** `a` brings back the content that was there before `b`, after the pass for `b` died. */
  ghost predicate BringsBack(op: Operator, cr: Resource, v: View, b: Choice, a: Choice) {
    && CanSync(op, cr, v, b) && NewHash(op, cr, b) != TargetHash(v)
    && CanSync(op, cr, DeadBeforeFinish(op, cr, v, b), a) && NewHash(op, cr, a) == TargetHash(v)
  }

  /** RolloutRestarted=True stands although no listed workload was served what the target holds. */
  ghost predicate StandsStale(cr: Resource, v: View) {
    && v.history != [] && ToldRollout(Latest(v), true)
    && forall w | w in cr.rollout :: Served(v, w) != TargetHash(v)
  }

  /** The revert is real. A pass restarts the workloads for new content and dies before its last call;
      then the content is again what it was. The pass that follows restarts nothing and reports
      RolloutRestarted=True, with every listed workload left on content that is gone. */
  lemma RevertLosesRollout(op: Operator, cr: Resource, v: View, b: Choice, a: Choice)
    requires ValidOperator(op) && Settled(cr, v)
    ensures BringsBack(op, cr, v, b, a) ==>
              var dead := DeadBeforeFinish(op, cr, v, b);
              var v' := WholePass(op, cr, dead, Always(a));
              && Reaches(op, cr, Stepped(v, Idle), Stepped(dead, Idle))
              && Reverts(cr, dead, NewHash(op, cr, a)) && v'.workloads == dead.workloads
              && !NoLostRollout(cr, v') && StandsStale(cr, v') && TargetHash(v') == TargetHash(v)
              && forall w | w in cr.rollout :: Served(v', w) == NewHash(op, cr, b)
  {
    hide Desired, Settled, Reaches, Reverts, NoLostRollout, StandsStale;
    if BringsBack(op, cr, v, b, a) {
      DeadIsReachable(op, cr, v, b);
      DeadReverts(op, cr, v, b);
      RevertIsStale(op, cr, v, b, a);
    }
  }

  lemma RevertIsStale(op: Operator, cr: Resource, v: View, b: Choice, a: Choice)
    requires ValidOperator(op) && Settled(cr, v) && BringsBack(op, cr, v, b, a)
    ensures var dead := DeadBeforeFinish(op, cr, v, b);
            var v' := WholePass(op, cr, dead, Always(a));
            && v'.workloads == dead.workloads
            && !NoLostRollout(cr, v') && StandsStale(cr, v') && TargetHash(v') == TargetHash(v)
            && forall w | w in cr.rollout :: Served(v', w) == NewHash(op, cr, b)
  {
    hide DeadBeforeFinish, Desired, HashOf, WholePass, NoLostRollout, Served, Converged, Ledger, Reverts, LeavesBehind;
    DeadIsPending(op, cr, v, b);
    DeadReverts(op, cr, v, b);
    var dead := DeadBeforeFinish(op, cr, v, b);
    NewHashIsSet(op, cr, dead, a);
    LeavesBehindIffReverts(cr, dead, NewHash(op, cr, a));
    PassServesAllIffNoneLeft(op, cr, dead, a);
    LeavingBehindRestartsNothing(op, cr, dead, a);
    OnePassConverges(op, cr, dead, a);
    ConvergedSays(op, cr, WholePass(op, cr, dead, Always(a)), NewData(op, cr, a));
  }

  /** And it is not made good: however many passes without faults find that content again, they restart
      nothing and report RolloutRestarted=True, although none of them is a revert. */
  lemma RevertStaysLost(op: Operator, cr: Resource, v: View, b: Choice, a: Choice, again: seq<Choice>)
    requires ValidOperator(op) && Settled(cr, v)
    ensures BringsBack(op, cr, v, b, a) ==>
              var v' := WholePass(op, cr, DeadBeforeFinish(op, cr, v, b), Always(a));
              AllSync(op, cr, v', again, NewData(op, cr, a)) ==>
                var v'' := Passes(op, cr, v', again);
                && v''.(history := v'.history) == v' && StandsStale(cr, v'')
                && LeavesBehind(cr, v'', NewHash(op, cr, a)) && !Reverts(cr, v'', NewHash(op, cr, a))
  {
    hide Desired, Settled, Reaches, NoLostRollout, DeadBeforeFinish, WholePass, AllSync, Passes, Converged;
    if BringsBack(op, cr, v, b, a) {
      var dead := DeadBeforeFinish(op, cr, v, b);
      var v' := WholePass(op, cr, dead, Always(a));
      DeadReverts(op, cr, v, b);
      RevertIsStale(op, cr, v, b, a);
      OnePassConverges(op, cr, dead, a);
      if AllSync(op, cr, v', again, NewData(op, cr, a)) {
        PassesStayQuiet(op, cr, v', again, NewData(op, cr, a));
        ConvergedSays(op, cr, Passes(op, cr, v', again), NewData(op, cr, a));
      }
    }
  }

  lemma DeadReverts(op: Operator, cr: Resource, v: View, b: Choice)
    requires ValidOperator(op) && Settled(cr, v) && CanSync(op, cr, v, b) && NewHash(op, cr, b) != TargetHash(v)
    ensures var v1 := DeadBeforeFinish(op, cr, v, b);
            && v1.target.Some? && v1.history != []
            && Reverts(cr, v1, TargetHash(v)) && Ledger(cr, v1) && NoLostRollout(cr, v1)
  {
    hide NewHash, Desired, AfterRestarting, MarkedBefore, AllServed, NoLostRollout, Reverts;
    DeadIsPending(op, cr, v, b);
    RestartKeepsTarget(op, cr, v, b);
    NewHashIsSet(op, cr, v, b);
    MarkedElsewhereReverts(op, cr, DeadBeforeFinish(op, cr, v, b), TargetHash(v));
  }

  lemma LeavingBehindRestartsNothing(op: Operator, cr: Resource, v: View, a: Choice)
    requires ValidOperator(op) && CanSync(op, cr, v, a) && LeavesBehind(cr, v, NewHash(op, cr, a))
    ensures var v' := WholePass(op, cr, v, Always(a));
            && v'.workloads == v.workloads
            && forall w | w in cr.rollout :: Served(v', w) == Served(v, w)
  {
    hide WholePass, AfterWriting, NewHash, Desired, FinalStatus, Restarting, Baseline;
    PassResult(op, cr, v, a);
    WritingKeepsTheRest(op, cr, v, a);
    WritingServes(op, cr, v, a);
    if Restarting(op, cr, v, a) {
      RestartingLeavesNone(op, cr, v, a);
    }
  }

  lemma ConvergedSays(op: Operator, cr: Resource, v: View, data: Data)
    requires Converged(op, cr, v, data) && cr.rollout != []
    ensures v.history != [] && ToldRollout(Latest(v), true)
    ensures v.target.Some? && TargetHash(v) == Recorded(v) == HashOf(op, data)
    ensures Desired(cr, v.target, data, HashOf(op, data)).Ok?
  {
  }

  /** An operator, a resource with one Deployment and no transforms, and a cluster for it whose target
      holds nothing yet. */
  function SampleOperator(): Operator {
    Operator((bytes: string) => "h" + bytes, Transforms.Library((raw: string) => None, (s: string) => s))
  }

  function SampleResource(): Resource {
    Resource("secret/app", "uid", "app", 1, "", "", [WorkloadRef("Deployment", "api")], [], None)
  }

  function SampleView(): View {
    var api := WorkloadRef("Deployment", "api");
    View(Some(Desired(SampleResource(), None, map[], "h").value),
         map[api := map[]], [Status(map[], "", {}, {}, 0)], map[api := "h"], [])
  }

  function Answering(version: nat, data: Data): Choice {
    Choice(Success, version, Revealed(Reveal(data, {})), "")
  }

  lemma SampleHash(data: Data)
    ensures Transformed(SampleOperator(), SampleResource(), data) == Some(data)
    ensures HashOf(SampleOperator(), data) == "h" <==> data == map[]
  {
    var keys := Strings.SortedKeys(data.Keys);
    Strings.NoElements(keys);
    assert HashOf(SampleOperator(), data) == "h" + ContentHash.Serialise(data);
    assert forall k | k in keys :: k in Strings.Elements(keys);
    if keys != [] {
      assert ContentHash.Serialise(data)
          == ContentHash.Record(keys[0], data[keys[0]]) + ContentHash.Records(keys[1..], data);
      assert ("h" + ContentHash.Serialise(data))[1..] != "";
      assert keys[0] in data;
    } else {
      assert data.Keys == {};
      assert "h" + "" == "h";
    }
  }

  lemma SampleIsSettled()
    ensures var op, cr, v := SampleOperator(), SampleResource(), SampleView();
            && ValidOperator(op) && Settled(cr, v) && TargetHash(v) == "h"
            && forall d, h :: Desired(cr, v.target, d, h).Ok?
  {
    DesiredIsStable(SampleResource(), None, map[], "h");
    assert forall bytes :: SampleOperator().digest(bytes)[0] == 'h';
    assert TargetHash(SampleView()) == "h";
  }

  lemma SampleCanSync(data: Data)
    ensures CanSync(SampleOperator(), SampleResource(), SampleView(), Answering(0, data))
    ensures NewHash(SampleOperator(), SampleResource(), Answering(0, data)) == HashOf(SampleOperator(), data)
  {
    SampleHash(data);
    SampleIsSettled();
  }

  /** The hypotheses of the revert are met, by an empty content, some other content, and the empty
      content again. */
  lemma RevertHappens(data: Data)
    requires data != map[]
    ensures var op, cr, v := SampleOperator(), SampleResource(), SampleView();
            && ValidOperator(op) && Settled(cr, v)
            && exists a :: BringsBack(op, cr, v, Answering(0, data), a)
  {
    SampleIsSettled();
    SampleBringsBack(data);
  }

  lemma SampleBringsBack(data: Data)
    requires data != map[]
    ensures var op, cr, v, b := SampleOperator(), SampleResource(), SampleView(), Answering(0, data);
            && CanSync(op, cr, v, b) && DeadBeforeFinish(op, cr, v, b).history != []
            && BringsBack(op, cr, v, b, Answering(|DeadBeforeFinish(op, cr, v, b).history| - 1, map[]))
            && Desired(cr, DeadBeforeFinish(op, cr, v, b).target, map[], HashOf(op, map[])).Ok?
  {
    hide SampleOperator, SampleResource, SampleView, ValidOperator, Settled, CanSync, DeadBeforeFinish, HashOf, Desired;
    var op, cr, v, b := SampleOperator(), SampleResource(), SampleView(), Answering(0, data);
    SampleIsSettled();
    SampleHash(data);
    SampleHash(map[]);
    SampleCanSync(data);
    var v1 := DeadBeforeFinish(op, cr, v, b);
    DeadKeepsCluster(op, cr, v, b);
    DeadTakesAnything(op, cr, v, b);
    SampleCanSyncAgain(v1);
  }

  /** So are those of its sequel: a further pass can find the empty content once more. */
  lemma RepeatAfterRevertHappens(data: Data)
    requires data != map[]
    ensures var op, cr, v, b := SampleOperator(), SampleResource(), SampleView(), Answering(0, data);
            exists a, c :: BringsBack(op, cr, v, b, a)
                           && AllSync(op, cr, WholePass(op, cr, DeadBeforeFinish(op, cr, v, b), Always(a)), [c],
                                      NewData(op, cr, a))
  {
    hide SampleOperator, SampleResource, SampleView, ValidOperator, Settled, Desired, HashOf;
    hide DeadBeforeFinish, WholePass, StandsStale, NoLostRollout, Reaches, Reverts, Converged;
    var op, cr, v, b := SampleOperator(), SampleResource(), SampleView(), Answering(0, data);
    SampleIsSettled();
    SampleCanSync(data);
    SampleBringsBack(data);
    var dead := DeadBeforeFinish(op, cr, v, b);
    var a := Answering(|dead.history| - 1, map[]);
    RevertLosesRollout(op, cr, v, b, a);
    var v' := WholePass(op, cr, dead, Always(a));
    OnePassConverges(op, cr, dead, a);
    DeadKeepsCluster(op, cr, v, b);
    SampleLists();
    ConvergedSays(op, cr, v', NewData(op, cr, a));
    SampleCanSyncAgain(dead);
    SampleCanSyncAgain(v');
    var c := Answering(|v'.history| - 1, map[]);
    assert AllSync(op, cr, v', [c], NewData(op, cr, a));
  }

  lemma SampleLists()
    ensures SampleResource().rollout != []
  {
  }

  lemma SampleCanSyncAgain(v1: View)
    requires v1.history != [] && v1.workloads.Keys == SampleView().workloads.Keys
    requires Desired(SampleResource(), v1.target, map[], HashOf(SampleOperator(), map[])).Ok?
    ensures var a := Answering(|v1.history| - 1, map[]);
            && CanSync(SampleOperator(), SampleResource(), v1, a)
            && NewData(SampleOperator(), SampleResource(), a) == map[]
            && NewHash(SampleOperator(), SampleResource(), a) == HashOf(SampleOperator(), map[])
  {
    hide Desired, HashOf;
    SampleHash(map[]);
  }

  lemma DeadKeepsCluster(op: Operator, cr: Resource, v: View, b: Choice)
    requires CanSync(op, cr, v, b)
    ensures var v1 := DeadBeforeFinish(op, cr, v, b);
            v1.history != [] && v1.workloads.Keys == v.workloads.Keys
  {
    hide NewTarget, RolloutDue, MustRecord, StartAll;
    ReachesFinish(op, cr, v, b);
    if Restarting(op, cr, v, b) {
      RestartsAll(cr, AfterWriting(op, cr, v, b), NewHash(op, cr, b), b.now, 0);
    }
  }

  /** Whatever comes next, the target a pass left may be written again. */
  lemma DeadTakesAnything(op: Operator, cr: Resource, v: View, b: Choice)
    requires CanSync(op, cr, v, b)
    ensures forall d, h :: Desired(cr, DeadBeforeFinish(op, cr, v, b).target, d, h).Ok?
  {
    hide AfterRestarting;
    RestartKeepsTarget(op, cr, v, b);
    DesiredIsStable(cr, v.target, NewData(op, cr, b), NewHash(op, cr, b));
  }

  // ---------- the condition that outlives what it says ----------

  /** The workloads run what the target holds, a status says so, and `b` brings new content. */
  ghost predicate ToldAndChanging(op: Operator, cr: Resource, v: View, b: Choice) {
    && CanSync(op, cr, v, b) && Settled(cr, v) && ToldRollout(Latest(v), true)
    && Recorded(v) == TargetHash(v) != NewHash(op, cr, b)
  }

  /** Three calls of a pass that cannot reach FerrVault: it persists what it read, with Ready=False. */
  lemma FailedPassKeepsCondition(op: Operator, cr: Resource, v: View) returns (t: Stepped)
    requires v.history != [] && ToldRollout(Latest(v), true)
    ensures Reaches(op, cr, Stepped(v, Idle), t)
    ensures t.pass.Idle? && t.view == v.(history := t.view.history)
    ensures |t.view.history| == |v.history| + 1 && ToldRollout(Latest(t.view), true)
  {
    hide Reaches, AfterReveal;
    var c := Choice(Success, |v.history| - 1, Refused(OtherError), "");
    var s0, copy := Stepped(v, Idle), Copy(|v.history| - 1, Latest(v));
    var s1, s2 := Stepped(v, Resolve(copy)), Stepped(v, NotReady(copy, "Unreachable"));
    t := Stepped(v.(history := v.history + [s2.pass.copy.status]), Idle);
    ReachesItself(op, cr, s0);
    ReachesMore(op, cr, s0, s0, Call(c));
    assert Moved(op, cr, s0, Call(c)) == s1;
    ReachesMore(op, cr, s0, s1, Call(c));
    assert Moved(op, cr, s1, Call(c)) == s2;
    ReachesMore(op, cr, s0, s2, Call(c));
    assert Moved(op, cr, s2, Call(c)) == t;
    assert READY != ROLLOUT_RESTARTED;
  }

  /** Writing the new content changes neither the status nor what the workloads were served. */
  lemma WritingChangesTargetOnly(op: Operator, cr: Resource, v: View, b: Choice)
    requires ToldAndChanging(op, cr, v, b)
    ensures var v1 := AfterWriting(op, cr, v, b);
            && AfterRecording(op, cr, v, b) == v && FreshCopy(op, cr, v, b) == Copy(|v.history| - 1, Latest(v))
            && v.target != Some(NewTarget(op, cr, v, b))
            && v1 == PutTarget(cr, v, NewWork(op, cr, v, b), NewTarget(op, cr, v, b))
            && v1.history == v.history && StandsStale(cr, v1)
  {
    hide Desired, NewHash, NewData;
    TargetGetsHash(op, cr, v, b);
    assert TargetHash(v) != "";
    var v1 := AfterWriting(op, cr, v, b);
    assert forall w :: Served(v1, w) == Served(v, w);
  }

  /** The first way: a pass writes new content and dies; the pass after it cannot reach FerrVault and
      persists the condition as it read it. */
  lemma UpToDateConditionGoesStale(op: Operator, cr: Resource, v: View, b: Choice) returns (dead: View, t: Stepped)
    requires ToldAndChanging(op, cr, v, b)
    ensures Reaches(op, cr, Stepped(v, Idle), Stepped(dead, Idle)) && Reaches(op, cr, Stepped(dead, Idle), t)
    ensures t.pass.Idle? && |t.view.history| == |v.history| + 1 && StandsStale(cr, t.view)
  {
    hide Reaches, AfterWriting, Leads, Desired;
    dead := AfterWriting(op, cr, v, b);
    WritingChangesTargetOnly(op, cr, v, b);
    ReachesTargetWritten(op, cr, v, b);
    ReachesDead(op, cr, v, b, Stepped(dead, AfterTarget(cr, FreshCopy(op, cr, v, b), NewWork(op, cr, v, b))));
    t := FailedPassKeepsCondition(op, cr, dead);
    assert forall w :: Served(t.view, w) == Served(dead, w);
  }

  /** The second way, in one pass that reaches FerrVault and does not die: the write of the target takes
      effect but reports a failure, and the failure exit persists the condition as it was read. */
  lemma AppliedWriteGoesStale(op: Operator, cr: Resource, v: View, b: Choice) returns (t: Stepped)
    requires ToldAndChanging(op, cr, v, b)
    ensures Reaches(op, cr, Stepped(v, Idle), t)
    ensures t.pass.Idle? && |t.view.history| == |v.history| + 1 && StandsStale(cr, t.view)
    ensures READY in Latest(t.view).conditions
    ensures Latest(t.view).conditions[READY] == Condition(false, "SecretWriteFailed")
  {
    hide Reaches, Leads, Desired, PutTarget, NewHash, NewData;
    WritingChangesTargetOnly(op, cr, v, b);
    var s0, copy, work := Stepped(v, Idle), FreshCopy(op, cr, v, b), NewWork(op, cr, v, b);
    var dead := PutTarget(cr, v, work, NewTarget(op, cr, v, b));
    ReachesHashRead(op, cr, v, b);
    RecordsPending(op, cr, v, b);
    var s1 := Stepped(v, ReadTarget(copy, work));
    var s2 := Stepped(v, WriteTarget(copy, work, v.target, NewTarget(op, cr, v, b)));
    var s3 := Stepped(dead, NotReady(copy, "SecretWriteFailed"));
    LeadsFurther(op, cr, b, Step(op, cr, v, Idle, b),
                 Stepped(v, ReadHash(Copy(|v.history| - 1, Latest(v)), work.(previous := ""))), s1);
    ReachesLed(op, cr, v, b, s1);
    assert Moved(op, cr, s1, Call(b)) == s2;
    ReachesMore(op, cr, s0, s1, Call(b));
    var applied := b.(fault := Applied);
    assert Moved(op, cr, s2, Call(applied)) == s3;
    ReachesMore(op, cr, s0, s2, Call(applied));
    t := Stepped(dead.(history := dead.history + [s3.pass.copy.status]), Idle);
    assert Moved(op, cr, s3, Call(b)) == t;
    ReachesMore(op, cr, s0, s3, Call(b));
    assert READY != ROLLOUT_RESTARTED && TargetHash(t.view) == TargetHash(dead);
    assert forall w :: Served(t.view, w) == Served(dead, w);
  }

  /** The sample cluster after one pass without faults. */
  ghost function SampleSynced(): View {
    WholePass(SampleOperator(), SampleResource(), SampleView(), Always(Answering(0, map[])))
  }

  lemma SampleSyncedIs()
    ensures var v, v0 := SampleSynced(), SampleView();
            && v == v0.(history := v.history) && v.history != []
            && Recorded(v) == "h" && ToldRollout(Latest(v), true)
  {
    hide WholePass, AfterRestarting, Desired;
    var op, cr, v0, c := SampleOperator(), SampleResource(), SampleView(), Answering(0, map[]);
    SampleIsSettled();
    SampleHash(map[]);
    SampleCanSync(map[]);
    SampleStays();
    PassResult(op, cr, v0, c);
    OnePassConverges(op, cr, v0, c);
    ConvergedSays(op, cr, SampleSynced(), NewData(op, cr, c));
  }

  lemma SampleStays()
    ensures CanSync(SampleOperator(), SampleResource(), SampleView(), Answering(0, map[]))
    ensures AfterRestarting(SampleOperator(), SampleResource(), SampleView(), Answering(0, map[])) == SampleView()
  {
    var op, cr, v0, c := SampleOperator(), SampleResource(), SampleView(), Answering(0, map[]);
    SampleHash(map[]);
    SampleCanSync(map[]);
    SampleIsSettled();
    DesiredIsStable(cr, None, map[], "h");
  }

  /** The hypotheses of the two ways are met: after one pass without faults of the sample, by any
      content that is not the one it synced. */
  lemma StaleConditionHappens(data: Data)
    requires data != map[]
    ensures exists b :: ToldAndChanging(SampleOperator(), SampleResource(), SampleSynced(), b)
  {
    hide SampleSynced, Desired, SampleView;
    var op, cr, v := SampleOperator(), SampleResource(), SampleSynced();
    SampleSyncedIs();
    var b := Answering(|v.history| - 1, data);
    SampleIsSettled();
    SampleHash(data);
    SampleCanSync(data);
    assert CanSync(op, cr, v, b);
    assert forall w :: Served(v, w) == Served(SampleView(), w);
    assert Settled(cr, v);
    assert ToldAndChanging(op, cr, v, b);
  }
}
