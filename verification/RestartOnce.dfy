/** At most one restart per content change, however often a pass is retried. */
module RestartOnce {
  import opened Wrappers
  import opened ClusterModel
  import opened Coherence
  import opened RolloutSafety
  import opened TargetSafety

  /** The target's hash after the events of `log`, starting from `first`. */
  function HashAfter(log: seq<Event>, first: string): string {
    match LastWrite(log)
    case Some(e) => if e.TargetWritten? then e.hash else first
    case None => first
  }

  predicate RestartAt(log: seq<Event>, w: WorkloadRef, i: int) {
    0 <= i < |log| && log[i].Restarted? && log[i].workload == w
  }

  /** `i` and `j` are successive restarts of `w`. */
  ghost predicate Successive(log: seq<Event>, w: WorkloadRef, i: int, j: int) {
    i < j && RestartAt(log, w, i) && RestartAt(log, w, j) && forall k | i < k < j :: !RestartAt(log, w, k)
  }

  ghost predicate LastRestartAt(log: seq<Event>, w: WorkloadRef, i: int) {
    RestartAt(log, w, i) && forall k | i < k < |log| :: !RestartAt(log, w, k)
  }

  ghost predicate Tracked(cr: Resource, first: string, v: View) {
    && TargetHash(v) == HashAfter(v.log, first)
    && (forall w, i | RestartAt(v.log, w, i) :: v.log[i].hash == HashAfter(v.log[..i], first))
    && (forall w, i | LastRestartAt(v.log, w, i) :: Marker(cr.uid, v.workloads, w) == Some(v.log[i].hash))
    && (forall w, i, j | Successive(v.log, w, i, j) :: v.log[i].hash != v.log[j].hash)
  }

  lemma PatchTracked(op: Operator, cr: Resource, first: string, s: Stepped, now: string)
    requires Coherent(op, cr, s) && s.pass.PatchWorkload? && Tracked(cr, first, s.view)
    ensures Tracked(cr, first, PutMarker(cr, s.view, cr.rollout[s.pass.i], s.pass.work.hash, now))
  {
    var v, w, hash := s.view, cr.rollout[s.pass.i], s.pass.work.hash;
    var v' := PutMarker(cr, v, w, hash, now);
    MarkerSet(cr, v, w, hash, now);
    var n := |v.log|;
    assert v'.log[..n] == v.log && RestartAt(v'.log, w, n);
    assert LastWrite(v'.log) == LastWrite(v.log);
    forall x, i | RestartAt(v'.log, x, i)
      ensures v'.log[i].hash == HashAfter(v'.log[..i], first)
    {
      if i < n {
        assert RestartAt(v.log, x, i) && v'.log[..i] == v.log[..i];
      }
    }
    forall x, i | LastRestartAt(v'.log, x, i)
      ensures Marker(cr.uid, v'.workloads, x) == Some(v'.log[i].hash)
    {
      if x != w {
        assert LastRestartAt(v.log, x, i) by {
          assert forall k | i < k < n :: RestartAt(v.log, x, k) ==> RestartAt(v'.log, x, k);
        }
      }
    }
    forall x, i, j | Successive(v'.log, x, i, j)
      ensures v'.log[i].hash != v'.log[j].hash
    {
      assert forall k | i < k < j && k < n :: RestartAt(v.log, x, k) ==> RestartAt(v'.log, x, k);
      if j < n {
        assert Successive(v.log, x, i, j);
      } else {
        assert LastRestartAt(v.log, x, i);
      }
    }
  }

  lemma WriteTracked(op: Operator, cr: Resource, first: string, s: Stepped, c: Choice)
    requires Coherent(op, cr, s) && Tracked(cr, first, s.view) && Writes(s, c)
    ensures Tracked(cr, first, PutTarget(cr, s.view, s.pass.work, s.pass.desired))
  {
    var v := s.view;
    var v' := PutTarget(cr, v, s.pass.work, s.pass.desired);
    var n := |v.log|;
    assert LastWrite(v'.log) == Some(v'.log[n]);
    assert forall x, i :: RestartAt(v'.log, x, i) <==> RestartAt(v.log, x, i);
    forall x, i | RestartAt(v'.log, x, i)
      ensures v'.log[i].hash == HashAfter(v'.log[..i], first)
    {
      assert v'.log[..i] == v.log[..i];
    }
    forall x, i | LastRestartAt(v'.log, x, i)
      ensures Marker(cr.uid, v'.workloads, x) == Some(v'.log[i].hash)
    {
      assert LastRestartAt(v.log, x, i);
    }
    forall x, i, j | Successive(v'.log, x, i, j)
      ensures v'.log[i].hash != v'.log[j].hash
    {
      assert Successive(v.log, x, i, j);
    }
  }

  lemma MoveTracked(op: Operator, cr: Resource, first: string, s: Stepped, m: Move)
    requires Coherent(op, cr, s) && Legal(cr, s, m) && Tracked(cr, first, s.view)
    ensures Tracked(cr, first, Moved(op, cr, s, m).view)
  {
    if m.Call? {
      StepTarget(op, cr, s, m.choice);
      if Writes(s, m.choice) {
        WriteTracked(op, cr, first, s, m.choice);
      } else if s.pass.PatchWorkload? {
        if !m.choice.fault.Lost? {
          PatchTracked(op, cr, first, s, m.choice.now);
        }
      } else {
        var v' := Moved(op, cr, s, m).view;
        assert v'.log == s.view.log && v'.workloads == s.view.workloads;
      }
    }
  }

  lemma {:induction false} RunTracked(op: Operator, cr: Resource, first: string, s: Stepped, moves: seq<Move>)
    requires ValidOperator(op) && Coherent(op, cr, s) && LegalRun(op, cr, s, moves)
    requires Tracked(cr, first, s.view)
    ensures Tracked(cr, first, Run(op, cr, s, moves).view)
    decreases |moves|
  {
    if moves != [] {
      var so, m := LastMove(op, cr, s, moves);
      RunTracked(op, cr, first, s, moves[..|moves| - 1]);
      MoveTracked(op, cr, first, so, m);
    }
  }

  lemma {:induction false} HashChangesByWrite(log: seq<Event>, first: string, i: nat, j: nat)
    requires i <= j <= |log| && HashAfter(log[..i], first) != HashAfter(log[..j], first)
    ensures exists k :: i <= k < j && log[k].TargetWritten? && log[k].hash == HashAfter(log[..j], first)
    decreases j - i
  {
    assert log[..j][..j - 1] == log[..j - 1];
    if !log[j - 1].TargetWritten? {
      HashChangesByWrite(log, first, i, j - 1);
    }
  }

  lemma TrackedSeparates(cr: Resource, first: string, v: View, w: WorkloadRef, i: nat, j: nat)
    requires Tracked(cr, first, v) && Successive(v.log, w, i, j)
    ensures v.log[i].hash != v.log[j].hash
    ensures exists k :: i < k < j && v.log[k].TargetWritten? && v.log[k].hash == v.log[j].hash
  {
    var log := v.log;
    assert RestartAt(log, w, i) && RestartAt(log, w, j);
    assert log[..i + 1][..i] == log[..i] && HashAfter(log[..i + 1], first) == log[i].hash;
    HashChangesByWrite(log, first, i + 1, j);
  }

  /** In every run from an empty log, retries and all: two successive restarts of one workload are for
      different contents, and the target was written with the newer one in between. */
  lemma RestartsAreSeparatedByChanges(op: Operator, cr: Resource, s: Stepped, moves: seq<Move>,
                                      w: WorkloadRef, i: nat, j: nat)
    requires ValidOperator(op) && Coherent(op, cr, s) && LegalRun(op, cr, s, moves) && s.view.log == []
    requires Successive(Run(op, cr, s, moves).view.log, w, i, j)
    ensures var log := Run(op, cr, s, moves).view.log;
            && log[i].hash != log[j].hash
            && exists k :: i < k < j && log[k].TargetWritten? && log[k].hash == log[j].hash
  {
    RunTracked(op, cr, TargetHash(s.view), s, moves);
    TrackedSeparates(cr, TargetHash(s.view), Run(op, cr, s, moves).view, w, i, j);
  }
}
