/** Several custom resources reconciled side by side. Their passes interleave call by call, share
    workloads, die independently, and users edit workloads in between. Seen from any one resource this
    is a run of that resource among others, so the theorems about such runs hold for the whole fleet. */
module Interleaving {
  import opened Wrappers
  import opened ClusterModel
  import opened Coherence
  import opened RolloutSafety
  import opened RestartOnce

  datatype Record = Record(history: seq<Status>, served: map<WorkloadRef, string>, log: seq<Event>)

  datatype World = World(
    secrets: map<string, Secret>,
    workloads: map<WorkloadRef, Annotations>,
    records: map<string, Record>,
    passes: map<string, Pass>)

  type Fleet = map<string, Resource>

  /** Resources are told apart by their UID, and no two of them write the same Secret. */
  ghost predicate ValidFleet(fleet: Fleet) {
    && (forall uid | uid in fleet :: fleet[uid].uid == uid)
    && (forall a, b | a in fleet && b in fleet && TargetName(fleet[a]) == TargetName(fleet[b]) :: a == b)
  }

  ghost predicate Populated(fleet: Fleet, c: World) {
    forall uid | uid in fleet :: uid in c.records && uid in c.passes && Fits(fleet[uid], c.passes[uid])
  }

  /** What the resource `uid` sees of the cluster. */
  ghost function Seen(fleet: Fleet, c: World, uid: string): (s: Stepped)
    requires Populated(fleet, c) && uid in fleet
    ensures Fits(fleet[uid], s.pass)
  {
    var name, r := TargetName(fleet[uid]), c.records[uid];
    Stepped(View(if name in c.secrets then Some(c.secrets[name]) else None, c.workloads, r.history, r.served, r.log),
            c.passes[uid])
  }

  ghost function Updated(fleet: Fleet, c: World, uid: string, s: Stepped): World
    requires uid in fleet
  {
    World(
      if s.view.target.Some? then c.secrets[TargetName(fleet[uid]) := s.view.target.value] else c.secrets,
      s.view.workloads,
      c.records[uid := Record(s.view.history, s.view.served, s.view.log)],
      c.passes[uid := s.pass])
  }

  datatype Act =
    | Calls(uid: string, choice: Choice)
    | Dies(uid: string)
    | UserEdits(workloads: map<WorkloadRef, Annotations>)

  ghost predicate Allowed(fleet: Fleet, c: World, act: Act)
    requires Populated(fleet, c)
  {
    match act
    case Calls(uid, _) => uid in fleet
    case Dies(uid) => uid in fleet
    case UserEdits(workloads) => forall uid | uid in fleet :: Meddles(fleet[uid], Seen(fleet, c, uid).view, workloads)
  }

  ghost function Perform(op: Operator, fleet: Fleet, c: World, act: Act): (c': World)
    requires Populated(fleet, c) && Allowed(fleet, c, act)
    ensures Populated(fleet, c')
  {
    match act
    case Calls(uid, choice) => Updated(fleet, c, uid, Moved(op, fleet[uid], Seen(fleet, c, uid), Call(choice)))
    case Dies(uid) => Updated(fleet, c, uid, Moved(op, fleet[uid], Seen(fleet, c, uid), Crash))
    case UserEdits(workloads) => c.(workloads := workloads)
  }

  /** The act as the resource `uid` sees it. */
  ghost function AsMove(op: Operator, fleet: Fleet, c: World, act: Act, uid: string): Move
    requires Populated(fleet, c) && Allowed(fleet, c, act) && uid in fleet
  {
    match act
    case Calls(other, choice) => if other == uid then Call(choice) else Meddle(Perform(op, fleet, c, act).workloads)
    case Dies(other) => if other == uid then Crash else Meddle(Perform(op, fleet, c, act).workloads)
    case UserEdits(workloads) => Meddle(workloads)
  }

  lemma KeysDiffer(a: string, b: string)
    requires a != b
    ensures MarkerKey(a) != MarkerKey(b) && MarkerKey(a) != RESTARTED_AT
  {
    var n := |CONTENT_HASH|;
    assert MarkerKey(a)[n + 1..] == a && MarkerKey(b)[n + 1..] == b;
    assert MarkerKey(a)[14] == 'c' && RESTARTED_AT[14] == 'r';
  }

  /** A step of one resource leaves the markers of every other resource as they are. */
  lemma OtherMarkersUndisturbed(op: Operator, cr: Resource, s: Stepped, m: Move, other: Resource)
    requires Fits(cr, s.pass) && !m.Meddle? && other.uid != cr.uid
    ensures Meddles(other, s.view, Moved(op, cr, s, m).view.workloads)
  {
    KeysDiffer(other.uid, cr.uid);
    if m.Call? && s.pass.PatchWorkload? {
      assert Moved(op, cr, s, m).view.workloads
             in {s.view.workloads,
                 if cr.rollout[s.pass.i] in s.view.workloads
                 then PutMarker(cr, s.view, cr.rollout[s.pass.i], s.pass.work.hash, m.choice.now).workloads
                 else s.view.workloads};
    } else {
      assert Moved(op, cr, s, m).view.workloads == s.view.workloads;
    }
  }

  lemma TargetStays(op: Operator, cr: Resource, s: Stepped, m: Move)
    requires Fits(cr, s.pass) && s.view.target.Some?
    ensures Moved(op, cr, s, m).view.target.Some?
  {
  }

  lemma ActIsMove(op: Operator, fleet: Fleet, c: World, act: Act, uid: string)
    requires ValidFleet(fleet) && Populated(fleet, c) && Allowed(fleet, c, act) && uid in fleet
    ensures var s, m := Seen(fleet, c, uid), AsMove(op, fleet, c, act, uid);
            && Legal(fleet[uid], s, m)
            && Seen(fleet, Perform(op, fleet, c, act), uid) == Moved(op, fleet[uid], s, m)
  {
    if !act.UserEdits? {
      var m := if act.Calls? then Call(act.choice) else Crash;
      var s := Seen(fleet, c, act.uid);
      if act.uid == uid {
        if s.view.target.Some? {
          TargetStays(op, fleet[uid], s, m);
        }
      } else {
        OtherMarkersUndisturbed(op, fleet[act.uid], s, m, fleet[uid]);
      }
    }
  }

  ghost predicate AllowedAll(op: Operator, fleet: Fleet, c: World, acts: seq<Act>)
    requires Populated(fleet, c)
    decreases |acts|, 0
  {
    acts == [] ||
    (AllowedAll(op, fleet, c, acts[..|acts| - 1])
     && Allowed(fleet, After(op, fleet, c, acts[..|acts| - 1]), acts[|acts| - 1]))
  }

  /** The cluster after a sequence of acts. */
  ghost function After(op: Operator, fleet: Fleet, c: World, acts: seq<Act>): (c': World)
    requires Populated(fleet, c) && AllowedAll(op, fleet, c, acts)
    ensures Populated(fleet, c')
    decreases |acts|, 1
  {
    if acts == [] then c else
      Perform(op, fleet, After(op, fleet, c, acts[..|acts| - 1]), acts[|acts| - 1])
  }

  /** The acts as the resource `uid` sees them. */
  ghost function AsMoves(op: Operator, fleet: Fleet, c: World, acts: seq<Act>, uid: string): (moves: seq<Move>)
    requires Populated(fleet, c) && AllowedAll(op, fleet, c, acts) && uid in fleet
    ensures |moves| == |acts|
    decreases |acts|
  {
    if acts == [] then [] else
      var init := acts[..|acts| - 1];
      AsMoves(op, fleet, c, init, uid) + [AsMove(op, fleet, After(op, fleet, c, init), acts[|acts| - 1], uid)]
  }

  /** Every interleaved history is, for each resource, a legal run of that resource. */
  lemma {:induction false} InterleavingIsRun(op: Operator, fleet: Fleet, c: World, acts: seq<Act>, uid: string)
    requires ValidFleet(fleet) && Populated(fleet, c) && AllowedAll(op, fleet, c, acts) && uid in fleet
    ensures var s, moves := Seen(fleet, c, uid), AsMoves(op, fleet, c, acts, uid);
            && LegalRun(op, fleet[uid], s, moves)
            && Seen(fleet, After(op, fleet, c, acts), uid) == Run(op, fleet[uid], s, moves)
    decreases |acts|
  {
    hide Moved, Legal, Perform, Seen, Allowed;
    if acts != [] {
      var init, act := acts[..|acts| - 1], acts[|acts| - 1];
      var s, moves, before := Seen(fleet, c, uid), AsMoves(op, fleet, c, acts, uid), After(op, fleet, c, init);
      InterleavingIsRun(op, fleet, c, init, uid);
      ActIsMove(op, fleet, before, act, uid);
      var initMoves := AsMoves(op, fleet, c, init, uid);
      assert moves[..|moves| - 1] == initMoves;
      forall n | 0 <= n < |moves|
        ensures Legal(fleet[uid], Run(op, fleet[uid], s, moves[..n]), moves[n])
      {
        if n < |initMoves| {
          assert moves[..n] == initMoves[..n] && moves[n] == initMoves[n];
        }
      }
    }
  }

  /** In the interleaved history, no write of `uid` that takes effect is a revert. */
  ghost predicate FleetNeverReverts(op: Operator, fleet: Fleet, c: World, acts: seq<Act>, uid: string)
    requires Populated(fleet, c) && AllowedAll(op, fleet, c, acts) && uid in fleet
    decreases |acts|
  {
    acts == [] ||
    (FleetNeverReverts(op, fleet, c, acts[..|acts| - 1], uid)
     && var s, act := Seen(fleet, After(op, fleet, c, acts[..|acts| - 1]), uid), acts[|acts| - 1];
        act.Calls? && act.uid == uid && Writes(s, act.choice) ==>
          s.view.history != [] && !Reverts(fleet[uid], s.view, s.pass.work.hash))
  }

  /** No content change of any resource is forgotten, however the passes of the fleet interleave. */
  lemma {:induction false} FleetForgetsNothing(op: Operator, fleet: Fleet, c: World, acts: seq<Act>, uid: string)
    requires ValidOperator(op) && ValidFleet(fleet) && Populated(fleet, c) && AllowedAll(op, fleet, c, acts)
    requires uid in fleet && Safe(op, fleet[uid], Seen(fleet, c, uid)) && FleetNeverReverts(op, fleet, c, acts, uid)
    ensures Safe(op, fleet[uid], Seen(fleet, After(op, fleet, c, acts), uid))
    decreases |acts|
  {
    if acts != [] {
      var init, act := acts[..|acts| - 1], acts[|acts| - 1];
      FleetForgetsNothing(op, fleet, c, init, uid);
      var before := After(op, fleet, c, init);
      ActIsMove(op, fleet, before, act, uid);
      MoveSafe(op, fleet[uid], Seen(fleet, before, uid), AsMove(op, fleet, before, act, uid));
    }
  }

  /** In every interleaved history, reverts or not, each resource's workloads were all served its content
      exactly when they have caught up, and none is lost exactly when they have or the next pass is due. */
  lemma FleetConditionIffCaughtUp(op: Operator, fleet: Fleet, c: World, acts: seq<Act>, uid: string)
    requires ValidOperator(op) && ValidFleet(fleet) && Populated(fleet, c) && AllowedAll(op, fleet, c, acts)
    requires uid in fleet && Booked(op, fleet[uid], Seen(fleet, c, uid))
    ensures var v := Seen(fleet, After(op, fleet, c, acts), uid).view;
            && v.history != []
            && (AllServed(fleet[uid], v) <==> CaughtUp(fleet[uid], v))
            && (NoLostRollout(fleet[uid], v) <==> CaughtUp(fleet[uid], v) || NextPassIsDue(v))
  {
    hide Booked, AllServed, NoLostRollout, CaughtUp, LegalRun;
    InterleavingIsRun(op, fleet, c, acts, uid);
    StandingConditionIffCaughtUp(op, fleet[uid], Seen(fleet, c, uid), AsMoves(op, fleet, c, acts, uid));
  }

  /** No workload is restarted twice by one resource without a change of that resource's content in
      between, however many other resources restart it too. */
  lemma FleetRestartsOnce(op: Operator, fleet: Fleet, c: World, acts: seq<Act>, uid: string,
                          w: WorkloadRef, i: nat, j: nat)
    requires ValidOperator(op) && ValidFleet(fleet) && Populated(fleet, c) && AllowedAll(op, fleet, c, acts)
    requires uid in fleet && Coherent(op, fleet[uid], Seen(fleet, c, uid)) && Seen(fleet, c, uid).view.log == []
    requires Successive(Seen(fleet, After(op, fleet, c, acts), uid).view.log, w, i, j)
    ensures var log := Seen(fleet, After(op, fleet, c, acts), uid).view.log;
            && log[i].hash != log[j].hash
            && exists k :: i < k < j && log[k].TargetWritten? && log[k].hash == log[j].hash
  {
    InterleavingIsRun(op, fleet, c, acts, uid);
    RestartsAreSeparatedByChanges(op, fleet[uid], Seen(fleet, c, uid), AsMoves(op, fleet, c, acts, uid), w, i, j);
  }
}
