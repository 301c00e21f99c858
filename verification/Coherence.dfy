/** What a pass knows about the cluster between two of its calls, whatever fails and whoever else acts.
    These facts hold in every run, without any hypothesis on the contents that come in. */
module Coherence {
  import opened Wrappers
  import opened ClusterModel

  // ---------- runs of one resource among others ----------

  /** One move as this resource sees it: its pass makes a call, its pass dies, or someone else (another
      resource's pass, a user) changes workloads. */
  datatype Move = Call(choice: Choice) | Crash | Meddle(workloads: map<WorkloadRef, Annotations>)

  /** Others create workloads and edit pod templates, but leave this resource's marker as it is. */
  ghost predicate Meddles(cr: Resource, v: View, workloads: map<WorkloadRef, Annotations>) {
    && v.workloads.Keys <= workloads.Keys
    && forall w :: Marker(cr.uid, workloads, w) == Marker(cr.uid, v.workloads, w)
  }

  ghost predicate Legal(cr: Resource, s: Stepped, m: Move) {
    m.Meddle? ==> Meddles(cr, s.view, m.workloads)
  }

  ghost function Moved(op: Operator, cr: Resource, s: Stepped, m: Move): (s': Stepped)
    requires Fits(cr, s.pass)
    ensures Fits(cr, s'.pass)
  {
    match m
    case Call(choice) => Step(op, cr, s.view, s.pass, choice)
    case Crash => Stepped(s.view, Idle)
    case Meddle(workloads) => Stepped(s.view.(workloads := workloads), s.pass)
  }

  ghost function Run(op: Operator, cr: Resource, s: Stepped, moves: seq<Move>): (s': Stepped)
    requires Fits(cr, s.pass)
    ensures Fits(cr, s'.pass)
    decreases |moves|
  {
    if moves == [] then s else Moved(op, cr, Run(op, cr, s, moves[..|moves| - 1]), moves[|moves| - 1])
  }

  /** Every move of the run is one the others are allowed to make. */
  ghost predicate LegalRun(op: Operator, cr: Resource, s: Stepped, moves: seq<Move>)
    requires Fits(cr, s.pass)
  {
    forall n | 0 <= n < |moves| :: Legal(cr, Run(op, cr, s, moves[..n]), moves[n])
  }

  lemma LegalPrefix(op: Operator, cr: Resource, s: Stepped, moves: seq<Move>, k: nat)
    requires Fits(cr, s.pass) && k <= |moves| && LegalRun(op, cr, s, moves)
    ensures LegalRun(op, cr, s, moves[..k])
  {
    forall n | 0 <= n < k
      ensures Legal(cr, Run(op, cr, s, moves[..k][..n]), moves[..k][n])
    {
      assert moves[..k][..n] == moves[..n];
    }
  }

  // ---------- the facts ----------

  /** The copy in memory still has the rollout hash of the version it was read at. */
  ghost predicate KeepsHash(v: View, copy: Copy) {
    copy.version < |v.history| && copy.status.lastRolloutHash == v.history[copy.version].lastRolloutHash
  }

  /** The data to write is the transform of one single answer, and the hash is its hash. */
  ghost predicate GoodWork(op: Operator, cr: Resource, work: Work) {
    && Transformed(op, cr, work.answer.secrets) == Some(work.data)
    && work.hash == HashOf(op, work.data)
    && (TokenKey(cr).Some? ==> TokenKey(cr).value in work.data)
  }

  /** An incomplete answer goes on only towards a target that does not exist. */
  ghost predicate MayWrite(v: View, work: Work) {
    work.answer.missing != {} ==> v.target.None?
  }

  ghost predicate MarkedBefore(cr: Resource, v: View, hash: string, i: nat)
    requires i <= |cr.rollout|
  {
    forall j | 0 <= j < i :: Marker(cr.uid, v.workloads, cr.rollout[j]) == Some(hash)
  }

  ghost predicate InRollout(cr: Resource, v: View, copy: Copy, work: Work, i: nat, failed: bool)
    requires i <= |cr.rollout|
  {
    && KeepsHash(v, copy) && TargetHash(v) == work.hash
    && RolloutDue(copy.status.lastRolloutHash, work.previous, work.hash)
    && (!failed ==> MarkedBefore(cr, v, work.hash, i))
  }

  ghost predicate ToldRollout(status: Status, told: bool) {
    ROLLOUT_RESTARTED in status.conditions && status.conditions[ROLLOUT_RESTARTED].status == told
  }

  /** The status about to be persisted claims the rollout done only when every listed workload carries
      the marker of the current content, or no rollout was due. */
  ghost predicate Concludes(cr: Resource, v: View, copy: Copy, work: Work, failed: bool) {
    && copy.version < |v.history| && TargetHash(v) == work.hash
    && (cr.rollout != [] ==>
          var read := v.history[copy.version].lastRolloutHash;
          && ToldRollout(copy.status, !failed)
          && copy.status.lastRolloutHash == (if failed then read else work.hash)
          && (!failed ==> MarkedBefore(cr, v, work.hash, |cr.rollout|) || read == "" || read == work.hash))
  }

  ghost predicate PassCoherent(op: Operator, cr: Resource, v: View, p: Pass)
    requires Fits(cr, p)
  {
    match p
    case Idle => true
    case Resolve(copy) => KeepsHash(v, copy)
    case CheckTarget(copy, work) => KeepsHash(v, copy) && GoodWork(op, cr, work)
    case ReadHash(copy, work) => KeepsHash(v, copy) && GoodWork(op, cr, work) && MayWrite(v, work)
    case RecordPending(copy, work) =>
      && GoodWork(op, cr, work) && MayWrite(v, work)
      && copy.version < |v.history| && v.history[copy.version].lastRolloutHash == ""
      && copy.status.lastRolloutHash == work.previous == TargetHash(v)
      && MustRecord(cr, "", work.previous, work.hash)
    case ReadTarget(copy, work) =>
      && KeepsHash(v, copy) && GoodWork(op, cr, work) && MayWrite(v, work)
      && work.previous == TargetHash(v) && !MustRecord(cr, copy.status.lastRolloutHash, work.previous, work.hash)
    case WriteTarget(copy, work, seen, desired) =>
      && KeepsHash(v, copy) && GoodWork(op, cr, work) && MayWrite(v, work)
      && work.previous == TargetHash(v) && !MustRecord(cr, copy.status.lastRolloutHash, work.previous, work.hash)
      && seen == v.target && Desired(cr, seen, work.data, work.hash) == Ok(desired)
    case ReadWorkload(copy, work, i, failed) => GoodWork(op, cr, work) && InRollout(cr, v, copy, work, i, failed)
    case PatchWorkload(copy, work, i, failed) =>
      && GoodWork(op, cr, work) && InRollout(cr, v, copy, work, i, failed)
      && cr.rollout[i] in v.workloads && Marker(cr.uid, v.workloads, cr.rollout[i]) != Some(work.hash)
    case Finish(copy, work, failed) => GoodWork(op, cr, work) && Concludes(cr, v, copy, work, failed)
    case Fail(copy) => KeepsHash(v, copy)
  }

  /** A rollout hash once persisted is never emptied again. */
  ghost predicate StaysRecorded(cr: Resource, v: View) {
    && v.history != []
    && (cr.rollout != [] ==>
          forall i, j | 0 <= i <= j < |v.history| && v.history[i].lastRolloutHash != "" ::
            v.history[j].lastRolloutHash != "")
  }

  ghost predicate Coherent(op: Operator, cr: Resource, s: Stepped) {
    Fits(cr, s.pass) && StaysRecorded(cr, s.view) && PassCoherent(op, cr, s.view, s.pass)
  }

  // ---------- they are kept by every move ----------

  lemma AtWorkloadCoherent(op: Operator, cr: Resource, v: View, copy: Copy, work: Work, i: nat, failed: bool)
    requires i <= |cr.rollout| && cr.rollout != []
    requires GoodWork(op, cr, work) && InRollout(cr, v, copy, work, i, failed)
    ensures PassCoherent(op, cr, v, AtWorkload(cr, copy, work, i, failed))
  {
  }

  lemma AfterTargetCoherent(op: Operator, cr: Resource, v: View, copy: Copy, work: Work)
    requires GoodWork(op, cr, work) && KeepsHash(v, copy) && TargetHash(v) == work.hash
    requires !MustRecord(cr, copy.status.lastRolloutHash, work.previous, work.hash)
    ensures PassCoherent(op, cr, v, AfterTarget(cr, copy, work))
  {
    if cr.rollout != [] && RolloutDue(copy.status.lastRolloutHash, work.previous, work.hash) {
      AtWorkloadCoherent(op, cr, v, copy, work, 0, false);
    }
  }

  lemma MarkerSet(cr: Resource, v: View, w: WorkloadRef, hash: string, now: string)
    requires w in v.workloads
    ensures var v' := PutMarker(cr, v, w, hash, now);
            forall x :: Marker(cr.uid, v'.workloads, x) ==
                        if x == w then Some(hash) else Marker(cr.uid, v.workloads, x)
  {
  }

  lemma WorkloadStepCoherent(op: Operator, cr: Resource, s: Stepped, c: Choice)
    requires Coherent(op, cr, s) && (s.pass.ReadWorkload? || s.pass.PatchWorkload?)
    ensures Coherent(op, cr, Step(op, cr, s.view, s.pass, c))
  {
    hide Transformed, HashOf, RolloutDue, Desired, TokenKey, Synced;
    var v, copy, work, i, failed := s.view, s.pass.copy, s.pass.work, s.pass.i, s.pass.failed;
    var w, ok := cr.rollout[i], c.fault.Success?;
    if s.pass.PatchWorkload? {
      if !c.fault.Lost? {
        MarkerSet(cr, v, w, work.hash, c.now);
        AtWorkloadCoherent(op, cr, PutMarker(cr, v, w, work.hash, c.now), copy, work, i + 1, failed || !ok);
      } else {
        AtWorkloadCoherent(op, cr, v, copy, work, i + 1, true);
      }
    } else if !SupportedKind(w.kind) || !ok || w !in v.workloads {
      AtWorkloadCoherent(op, cr, v, copy, work, i + 1, true);
    } else if Marker(cr.uid, v.workloads, w) == Some(work.hash) {
      AtWorkloadCoherent(op, cr, v, copy, work, i + 1, failed);
    }
  }

  lemma DesiredCarriesHash(cr: Resource, existing: Option<Secret>, data: Data, hash: string)
    requires Desired(cr, existing, data, hash).Ok?
    ensures var secret := Desired(cr, existing, data, hash).value;
            CONTENT_HASH in secret.annotations && secret.annotations[CONTENT_HASH] == hash
  {
    hide TokenKey, Adoptable, WithController, WithoutOwner;
  }

  lemma ReadTargetStepCoherent(op: Operator, cr: Resource, s: Stepped, c: Choice)
    requires Coherent(op, cr, s) && s.pass.ReadTarget?
    ensures Coherent(op, cr, Step(op, cr, s.view, s.pass, c))
  {
    hide Transformed, HashOf, TokenKey, Synced, Desired, MustRecord, AfterTarget;
    var v, copy, work := s.view, s.pass.copy, s.pass.work;
    var desired := Desired(cr, v.target, work.data, work.hash);
    if desired.Ok? && v.target == Some(desired.value) {
      DesiredCarriesHash(cr, v.target, work.data, work.hash);
      AfterTargetCoherent(op, cr, v, copy, work);
    }
  }

  lemma WriteTargetStepCoherent(op: Operator, cr: Resource, s: Stepped, c: Choice)
    requires Coherent(op, cr, s) && s.pass.WriteTarget?
    ensures Coherent(op, cr, Step(op, cr, s.view, s.pass, c))
  {
    hide Transformed, HashOf, TokenKey, Synced, StartAll, Desired, MustRecord, AfterTarget;
    var v, copy, work := s.view, s.pass.copy, s.pass.work;
    if !c.fault.Lost? {
      DesiredCarriesHash(cr, v.target, work.data, work.hash);
      AfterTargetCoherent(op, cr, PutTarget(cr, v, work, s.pass.desired), copy, work);
    }
  }

  lemma StatusStepCoherent(op: Operator, cr: Resource, s: Stepped, c: Choice)
    requires ValidOperator(op)
    requires Coherent(op, cr, s) && (s.pass.RecordPending? || s.pass.Finish? || s.pass.Fail?)
    ensures Coherent(op, cr, Step(op, cr, s.view, s.pass, c))
  {
  }

  lemma ResolveStepCoherent(op: Operator, cr: Resource, s: Stepped, c: Choice)
    requires Coherent(op, cr, s) && s.pass.Resolve?
    ensures Coherent(op, cr, Step(op, cr, s.view, s.pass, c))
  {
    hide Transformed, HashOf, StaysRecorded, RolloutDue, MustRecord;
    var copy := s.pass.copy;
    assert forall reason :: KeepsHash(s.view, NotReady(copy, reason).copy);
    if c.upstream.Revealed? {
      var answer := c.upstream.answer;
      if Transformed(op, cr, answer.secrets).Some? {
        var data := Transformed(op, cr, answer.secrets).value;
        var work := Work(answer, data, HashOf(op, data), "");
        assert (TokenKey(cr).Some? && TokenKey(cr).value !in data) || GoodWork(op, cr, work);
      }
    }
  }

  lemma ReadStepCoherent(op: Operator, cr: Resource, s: Stepped, c: Choice)
    requires Coherent(op, cr, s) && (s.pass.Idle? || s.pass.CheckTarget? || s.pass.ReadHash?)
    ensures Coherent(op, cr, Step(op, cr, s.view, s.pass, c))
  {
  }

  lemma StepCoherent(op: Operator, cr: Resource, s: Stepped, c: Choice)
    requires ValidOperator(op) && Coherent(op, cr, s)
    ensures Coherent(op, cr, Step(op, cr, s.view, s.pass, c))
  {
    match s.pass {
      case ReadTarget(_, _) => ReadTargetStepCoherent(op, cr, s, c);
      case WriteTarget(_, _, _, _) => WriteTargetStepCoherent(op, cr, s, c);
      case ReadWorkload(_, _, _, _) => WorkloadStepCoherent(op, cr, s, c);
      case PatchWorkload(_, _, _, _) => WorkloadStepCoherent(op, cr, s, c);
      case RecordPending(_, _) => StatusStepCoherent(op, cr, s, c);
      case Finish(_, _, _) => StatusStepCoherent(op, cr, s, c);
      case Fail(_) => StatusStepCoherent(op, cr, s, c);
      case Resolve(_) => ResolveStepCoherent(op, cr, s, c);
      case _ => ReadStepCoherent(op, cr, s, c);
    }
  }

  lemma MoveCoherent(op: Operator, cr: Resource, s: Stepped, m: Move)
    requires ValidOperator(op) && Coherent(op, cr, s) && Legal(cr, s, m)
    ensures Coherent(op, cr, Moved(op, cr, s, m))
  {
    if m.Call? {
      StepCoherent(op, cr, s, m.choice);
    }
  }

  lemma {:induction false} RunCoherent(op: Operator, cr: Resource, s: Stepped, moves: seq<Move>)
    requires ValidOperator(op) && Coherent(op, cr, s) && LegalRun(op, cr, s, moves)
    ensures Coherent(op, cr, Run(op, cr, s, moves))
    decreases |moves|
  {
    hide PassCoherent, StaysRecorded, Legal, Moved;
    if moves != [] {
      LegalPrefix(op, cr, s, moves, |moves| - 1);
      RunCoherent(op, cr, s, moves[..|moves| - 1]);
      MoveCoherent(op, cr, Run(op, cr, s, moves[..|moves| - 1]), moves[|moves| - 1]);
    }
  }

  /** The last move of a run, and what is known before it. */
  lemma LastMove(op: Operator, cr: Resource, s: Stepped, moves: seq<Move>) returns (so: Stepped, m: Move)
    requires ValidOperator(op) && Coherent(op, cr, s) && LegalRun(op, cr, s, moves) && moves != []
    ensures so == Run(op, cr, s, moves[..|moves| - 1]) && m == moves[|moves| - 1]
    ensures LegalRun(op, cr, s, moves[..|moves| - 1]) && Coherent(op, cr, so) && Legal(cr, so, m)
    ensures Run(op, cr, s, moves) == Moved(op, cr, so, m)
  {
    LegalPrefix(op, cr, s, moves, |moves| - 1);
    RunCoherent(op, cr, s, moves[..|moves| - 1]);
    so, m := Run(op, cr, s, moves[..|moves| - 1]), moves[|moves| - 1];
  }

  // ---------- what a failure exit persists ----------

  /** The two statuses differ in Ready, the missing keys and the observed generation at most. */
  ghost predicate SameOthers(read: Status, now: Status) {
    && (forall kind | kind != READY ::
          && (kind in now.conditions <==> kind in read.conditions)
          && (kind in read.conditions ==> now.conditions[kind] == read.conditions[kind]))
    && now.syncedKeys == read.syncedKeys
  }

  ghost predicate KeepsRead(v: View, copy: Copy) {
    copy.version < |v.history| && SameOthers(v.history[copy.version], copy.status)
  }

  /** Until it concludes, a pass holds these as it read them. */
  ghost predicate KeepsOthers(v: View, p: Pass) {
    p.Idle? || p.RecordPending? || p.Finish? || KeepsRead(v, p.copy)
  }

  lemma NotReadyKeepsRead(cr: Resource, v: View, copy: Copy)
    requires KeepsRead(v, copy)
    ensures forall reason :: KeepsRead(v, NotReady(copy, reason).copy)
    ensures forall work, present :: KeepsOthers(v, AfterCheck(cr, copy, work, present))
  {
  }

  lemma StatusStepKeepsOthers(op: Operator, cr: Resource, s: Stepped, c: Choice)
    requires s.pass.RecordPending? || s.pass.Finish? || s.pass.Fail?
    ensures var s' := Step(op, cr, s.view, s.pass, c); KeepsOthers(s'.view, s'.pass)
  {
  }

  lemma OtherStepKeepsOthers(op: Operator, cr: Resource, s: Stepped, c: Choice)
    requires Fits(cr, s.pass) && KeepsOthers(s.view, s.pass)
    requires !s.pass.Idle? && !s.pass.RecordPending? && !s.pass.Finish? && !s.pass.Fail?
    ensures var s' := Step(op, cr, s.view, s.pass, c); KeepsOthers(s'.view, s'.pass)
  {
    hide SameOthers, NotReady, AfterCheck, Transformed, HashOf, Desired;
    hide RolloutDue, MustRecord, TargetHash, StartAll, Marker;
    var v, copy := s.view, s.pass.copy;
    NotReadyKeepsRead(cr, v, copy);
    assert Step(op, cr, v, s.pass, c).view.history == v.history;
    assert forall reason :: NotReady(copy, reason).Fail? by { NotReadyFails(copy); }
  }

  lemma NotReadyFails(copy: Copy)
    ensures forall reason :: NotReady(copy, reason).Fail?
  {
  }

  lemma MoveKeepsOthers(op: Operator, cr: Resource, s: Stepped, m: Move)
    requires Fits(cr, s.pass) && KeepsOthers(s.view, s.pass)
    ensures var s' := Moved(op, cr, s, m); KeepsOthers(s'.view, s'.pass)
  {
    match m {
      case Call(c) =>
        if s.pass.RecordPending? || s.pass.Finish? || s.pass.Fail? {
          StatusStepKeepsOthers(op, cr, s, c);
        } else if !s.pass.Idle? {
          hide Step;
          OtherStepKeepsOthers(op, cr, s, c);
        }
      case Crash =>
      case Meddle(_) =>
    }
  }

  lemma {:induction false} RunKeepsOthers(op: Operator, cr: Resource, s: Stepped, moves: seq<Move>)
    requires Fits(cr, s.pass) && KeepsOthers(s.view, s.pass)
    ensures var s' := Run(op, cr, s, moves); KeepsOthers(s'.view, s'.pass)
    decreases |moves|
  {
    hide Moved, KeepsOthers;
    if moves != [] {
      RunKeepsOthers(op, cr, s, moves[..|moves| - 1]);
      MoveKeepsOthers(op, cr, Run(op, cr, s, moves[..|moves| - 1]), moves[|moves| - 1]);
    }
  }

  /** In every run, a failure exit that persists something persists Ready=False, and every other
      condition, the synced keys and the recorded hash exactly as they stood before. */
  lemma FailureExitKeepsOthers(op: Operator, cr: Resource, s: Stepped, moves: seq<Move>, c: Choice)
    requires ValidOperator(op) && Coherent(op, cr, s) && s.pass.Idle? && LegalRun(op, cr, s, moves)
    requires var u := Run(op, cr, s, moves);
             u.pass.Fail? && |Step(op, cr, u.view, u.pass, c).view.history| > |u.view.history|
    ensures var u := Run(op, cr, s, moves);
            var v' := Step(op, cr, u.view, u.pass, c).view;
            && u.view.history != [] && v' == u.view.(history := u.view.history + [Latest(v')])
            && SameOthers(Latest(u.view), Latest(v'))
            && Latest(v').lastRolloutHash == Latest(u.view).lastRolloutHash
  {
    hide SameOthers, Coherent, Step, LegalRun;
    var u := Run(op, cr, s, moves);
    RunKeepsOthers(op, cr, s, moves);
    RunCoherent(op, cr, s, moves);
    FailWrites(op, cr, u, c);
  }

  lemma FailWrites(op: Operator, cr: Resource, s: Stepped, c: Choice)
    requires Coherent(op, cr, s) && s.pass.Fail?
    ensures KeepsHash(s.view, s.pass.copy)
    ensures var v' := Step(op, cr, s.view, s.pass, c).view;
            |v'.history| > |s.view.history| ==>
              && s.pass.copy.version + 1 == |s.view.history|
              && v' == s.view.(history := s.view.history + [s.pass.copy.status])
  {
    hide StaysRecorded;
  }

  lemma OneMoreMove(op: Operator, cr: Resource, s: Stepped, moves: seq<Move>, m: Move)
    requires Fits(cr, s.pass) && LegalRun(op, cr, s, moves) && !m.Meddle?
    ensures LegalRun(op, cr, s, moves + [m])
    ensures Run(op, cr, s, moves + [m]) == Moved(op, cr, Run(op, cr, s, moves), m)
  {
    var longer := moves + [m];
    assert longer[..|longer| - 1] == moves;
    forall n | 0 <= n < |longer|
      ensures Legal(cr, Run(op, cr, s, longer[..n]), longer[n])
    {
      assert longer[..n] == moves[..n];
    }
  }

  lemma {:induction false} DrainIsRun(op: Operator, cr: Resource, s: Stepped, moves: seq<Move>, script: Script, n: nat)
    returns (longer: seq<Move>)
    requires Fits(cr, s.pass) && LegalRun(op, cr, s, moves)
    ensures LegalRun(op, cr, s, longer)
    ensures var t := Run(op, cr, s, moves);
            Run(op, cr, s, longer) == Stepped(Drain(op, cr, t.view, t.pass, script, n), Idle)
    decreases Remaining(cr, Run(op, cr, s, moves).pass)
  {
    longer := moves;
    var t := Run(op, cr, s, moves);
    if !t.pass.Idle? {
      StepsRunOut(op, cr, t.view, t.pass, script(n));
      OneMoreMove(op, cr, s, moves, Call(script(n)));
      longer := DrainIsRun(op, cr, s, moves + [Call(script(n))], script, n + 1);
    }
  }

  /** A whole pass is a legal run, so what holds of every run holds after every pass. */
  lemma PassIsRun(op: Operator, cr: Resource, v: View, script: Script, n: nat) returns (moves: seq<Move>)
    ensures LegalRun(op, cr, Stepped(v, Idle), moves)
    ensures Run(op, cr, Stepped(v, Idle), moves) == Stepped(PassFrom(op, cr, v, script, n), Idle)
  {
    var s := Stepped(v, Idle);
    OneMoreMove(op, cr, s, [], Call(script(n)));
    assert [] + [Call(script(n))] == [Call(script(n))];
    moves := DrainIsRun(op, cr, s, [Call(script(n))], script, n + 1);
  }

  /** Passes one after the other, each under its own decisions of the environment. */
  ghost function PassesUnder(op: Operator, cr: Resource, v: View, scripts: seq<Script>): View
    decreases |scripts|
  {
    if scripts == [] then v else PassesUnder(op, cr, WholePass(op, cr, v, scripts[0]), scripts[1..])
  }

  /** However many passes in a row meet a 429, nothing changes. */
  lemma {:induction false} RateLimitedPassesStutter(op: Operator, cr: Resource, v: View, scripts: seq<Script>)
    requires forall script | script in scripts :: script(1).upstream.RateLimited?
    ensures PassesUnder(op, cr, v, scripts) == v
    decreases |scripts|
  {
    if scripts != [] {
      RateLimitedPassStutters(op, cr, v, scripts[0], 0);
      RateLimitedPassesStutter(op, cr, v, scripts[1..]);
    }
  }

  /** A pass whose reveal is rate limited leaves everything as it was, the conditions included. */
  lemma RateLimitedPassStutters(op: Operator, cr: Resource, v: View, script: Script, n: nat)
    requires script(n + 1).upstream.RateLimited?
    ensures PassFrom(op, cr, v, script, n) == v
  {
    var first := Step(op, cr, v, Idle, script(n));
    if !first.pass.Idle? {
      DrainOne(op, cr, first.view, first.pass, script, n + 1);
    }
  }
}
