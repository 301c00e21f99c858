/** One pass of the FerrVaultSecret reconciler as a machine that makes one API call per step.

    A step reads or writes the state the API server keeps, and every call may succeed, fail without
    effect, or take effect and still report a failure. A pass can be cut short after any step. What a
    pass carries between two calls is the value of type `Pass`. */
module ClusterModel {
  import opened Wrappers
  import ContentHash
  import Transforms

  type Data = map<string, string>

  type Annotations = map<string, string>

  const MANAGED_BY := "ferrvault.com/managed-by"
  const CONTENT_HASH := "ferrvault.com/content-hash"
  const RESTARTED_AT := "ferrvault.com/restarted-at"
  const READY := "Ready"
  const ROLLOUT_RESTARTED := "RolloutRestarted"

  // ---------- what the API server keeps ----------

  datatype OwnerRef = OwnerRef(identity: string, uid: string, controller: bool)

  datatype Secret = Secret(kind: string, annotations: Annotations, owners: seq<OwnerRef>, data: Data)

  datatype WorkloadRef = WorkloadRef(kind: string, name: string)

  datatype Condition = Condition(status: bool, reason: string)

  datatype Status = Status(
    conditions: map<string, Condition>,
    lastRolloutHash: string,
    syncedKeys: set<string>,
    missingKeys: set<string>,
    observedGeneration: nat)

  /** What happened so far, for the statements about whole runs. */
  datatype Event =
    | TargetWritten(answer: Reveal, hash: string, replaced: bool)
    | Restarted(workload: WorkloadRef, hash: string)

  /** The part of the cluster the passes of one custom resource see: its target Secret, the pod
      templates of the workloads, every version of its status so far (the last one is current), the
      hash each workload was last started or restarted for, and the events of this resource. */
  datatype View = View(
    target: Option<Secret>,
    workloads: map<WorkloadRef, Annotations>,
    history: seq<Status>,
    served: map<WorkloadRef, string>,
    log: seq<Event>)

  // ---------- what does not change during a run ----------

  /** The custom resource: identity and spec, with the token reference of its connection. */
  datatype Resource = Resource(
    identity: string,
    uid: string,
    name: string,
    generation: nat,
    targetName: string,
    targetType: string,
    rollout: seq<WorkloadRef>,
    transforms: seq<Transforms.Transform>,
    tokenRef: Option<(string, string)>)

  /** The functions of other libraries: SHA-256 in hexadecimal, JSON parsing, upper-casing. */
  datatype Operator = Operator(digest: string -> string, lib: Transforms.Library)

  ghost predicate ValidOperator(op: Operator) {
    forall bytes :: op.digest(bytes) != ""
  }

  function TargetName(cr: Resource): string {
    if cr.targetName != "" then cr.targetName else cr.name
  }

  /** `connectionTokenKey`: the key of the connection token, when the target is the Secret holding it. */
  function TokenKey(cr: Resource): Option<string> {
    match cr.tokenRef
    case None => None
    case Some((name, key)) => if name == TargetName(cr) then Some(key) else None
  }

  ghost function HashOf(op: Operator, data: Data): string {
    op.digest(ContentHash.Serialise(data))
  }

  ghost function Transformed(op: Operator, cr: Resource, secrets: Data): Option<Data> {
    var r := Transforms.Apply(op.lib, secrets, cr.transforms);
    if r.error.Some? then None else Some(r.data)
  }

  // ---------- what a pass meets ----------

  datatype Fault = Success | Lost | Applied

  datatype Reveal = Reveal(secrets: Data, missing: set<string>)

  /** What keeps a pass from asking FerrVault: no connection, no readable token, no client for it, or a
      cloud connection without organization or project. */
  datatype Obstacle = NoConnection | NoToken | NoClient | NoScope

  /** What a reveal fails with, other than a 429: a 401 or 403, a 404, or anything else. */
  datatype RevealError = Unauthorised | NotFound | OtherError

  /** How far resolving the connection, the token and the client, and the reveal itself, went. */
  datatype Upstream =
    | Unresolved(obstacle: Obstacle)
    | RateLimited
    | Refused(error: RevealError)
    | Revealed(answer: Reveal)

  /** What the environment decides for one step. `version` is the status version a cached read
      returns, `now` the timestamp a restart is stamped with. */
  datatype Choice = Choice(fault: Fault, version: nat, upstream: Upstream, now: string)

  // ---------- what a pass carries ----------

  /** The copy of the custom resource held in memory: the status version it was read at, and the
      status as the pass has changed it since. */
  datatype Copy = Copy(version: nat, status: Status)

  datatype Work = Work(answer: Reveal, data: Data, hash: string, previous: string)

  datatype Pass =
    | Idle
    | Resolve(copy: Copy)
    | CheckTarget(copy: Copy, work: Work)
    | ReadHash(copy: Copy, work: Work)
    | RecordPending(copy: Copy, work: Work)
    | ReadTarget(copy: Copy, work: Work)
    | WriteTarget(copy: Copy, work: Work, seen: Option<Secret>, desired: Secret)
    | ReadWorkload(copy: Copy, work: Work, i: nat, failed: bool)
    | PatchWorkload(copy: Copy, work: Work, i: nat, failed: bool)
    | Finish(copy: Copy, work: Work, failed: bool)
    | Fail(copy: Copy)

  // ---------- the small decisions ----------

  function Latest(v: View): Status
    requires v.history != []
  {
    v.history[|v.history| - 1]
  }

  /** `targetContentHash`: empty when the target or its annotation is absent. */
  function TargetHash(v: View): string {
    if v.target.Some? && CONTENT_HASH in v.target.value.annotations
    then v.target.value.annotations[CONTENT_HASH] else ""
  }

  function MarkerKey(uid: string): string {
    CONTENT_HASH + "." + uid
  }

  /** The hash this resource last stamped on the pod template of `w`. */
  function Marker(uid: string, workloads: map<WorkloadRef, Annotations>, w: WorkloadRef): Option<string> {
    if w in workloads && MarkerKey(uid) in workloads[w] then Some(workloads[w][MarkerKey(uid)]) else None
  }

  predicate SupportedKind(kind: string) {
    kind == "Deployment" || kind == "StatefulSet" || kind == "DaemonSet"
  }

  predicate RolloutDue(lastRolledOut: string, previous: string, current: string) {
    var baseline := if lastRolledOut == "" then previous else lastRolledOut;
    baseline != "" && baseline != current
  }

  /** Whether `recordPendingRollout` has something to record. */
  predicate MustRecord(cr: Resource, lastRolledOut: string, previous: string, current: string) {
    cr.rollout != [] && lastRolledOut == "" && RolloutDue("", previous, current)
  }

  predicate OwnedBy(owners: seq<OwnerRef>, uid: string) {
    exists ref | ref in owners :: ref.uid == uid
  }

  predicate Adoptable(secret: Secret, cr: Resource) {
    TokenKey(cr).Some? || MANAGED_BY in secret.annotations || OwnedBy(secret.owners, cr.uid)
  }

  function WithoutOwner(owners: seq<OwnerRef>, uid: string): seq<OwnerRef> {
    if owners == [] then []
    else if owners[0].uid == uid then WithoutOwner(owners[1..], uid)
    else [owners[0]] + WithoutOwner(owners[1..], uid)
  }

  /** The position of the first owner that satisfies the test, or the length of the list. */
  function FirstOwner(owners: seq<OwnerRef>, test: OwnerRef -> bool): (i: nat)
    ensures i <= |owners|
    ensures forall j | 0 <= j < i :: !test(owners[j])
    ensures i < |owners| ==> test(owners[i])
  {
    if owners == [] || test(owners[0]) then 0 else 1 + FirstOwner(owners[1..], test)
  }

  /** `SetControllerReference`: refused when another object controls the Secret already. */
  function WithController(owners: seq<OwnerRef>, cr: Resource): Option<seq<OwnerRef>> {
    var controller := FirstOwner(owners, (ref: OwnerRef) => ref.controller);
    if controller < |owners| && owners[controller].identity != cr.identity then None else
      var mine := FirstOwner(owners, (ref: OwnerRef) => ref.identity == cr.identity);
      var ref := OwnerRef(cr.identity, cr.uid, true);
      Some(if mine < |owners| then owners[mine := ref] else owners + [ref])
  }

  datatype Refusal = TargetConflict | AlreadyOwned

  /** What `CreateOrUpdate` turns the target into. */
  function Desired(cr: Resource, existing: Option<Secret>, data: Data, hash: string): Result<Secret, Refusal> {
    var base := if existing.Some? then existing.value else Secret("", map[], [], map[]);
    if existing.Some? && !Adoptable(base, cr) then Err(TargetConflict) else
      var owners := if TokenKey(cr).Some? then Some(WithoutOwner(base.owners, cr.uid))
                    else WithController(base.owners, cr);
      match owners
      case None => Err(AlreadyOwned)
      case Some(refs) =>
        Ok(Secret(
             if cr.targetType == "" then "Opaque" else cr.targetType,
             base.annotations[MANAGED_BY := "ferrvault-operator"][CONTENT_HASH := hash],
             refs,
             data))
  }

  function NotReady(copy: Copy, reason: string): Pass {
    Fail(copy.(status := copy.status.(conditions := copy.status.conditions[READY := Condition(false, reason)])))
  }

  function ObstacleReason(obstacle: Obstacle): string {
    match obstacle
    case NoConnection => "ConnectionNotFound"
    case NoToken => "TokenUnreadable"
    case NoClient => "InvalidConnection"
    case NoScope => "MissingCloudScope"
  }

  function ErrorReason(error: RevealError): string {
    match error
    case Unauthorised => "AuthFailed"
    case NotFound => "VaultNotFound"
    case OtherError => "Unreachable"
  }

  function WithHash(copy: Copy, hash: string): Copy {
    copy.(status := copy.status.(lastRolloutHash := hash))
  }

  /** The status the last step of a pass persists. */
  function Synced(cr: Resource, status: Status, work: Work, failed: bool): Status {
    var ready := if work.answer.missing == {} then Condition(true, "Synced") else Condition(false, "MissingKeys");
    var conditions := status.conditions[READY := ready];
    Status(
      if cr.rollout == [] then conditions - {ROLLOUT_RESTARTED}
      else conditions[ROLLOUT_RESTARTED :=
             if failed then Condition(false, "RolloutFailed") else Condition(true, "UpToDate")],
      status.lastRolloutHash,
      work.data.Keys,
      work.answer.missing,
      cr.generation)
  }

  // ---------- the steps ----------

  datatype Stepped = Stepped(view: View, pass: Pass)

  /** `Status().Update`: refused when the copy is not the newest version. */
  function PutStatus(v: View, copy: Copy, fault: Fault): (View, bool) {
    if fault.Lost? || copy.version + 1 != |v.history| then (v, false)
    else (v.(history := v.history + [copy.status]), fault.Success?)
  }

  ghost function AfterReveal(op: Operator, cr: Resource, copy: Copy, answer: Reveal): Pass {
    match Transformed(op, cr, answer.secrets)
    case None => NotReady(copy, "TransformError")
    case Some(data) =>
      var work := Work(answer, data, HashOf(op, data), "");
      if TokenKey(cr).Some? && TokenKey(cr).value !in data then NotReady(copy, "TokenKeyMissing")
      else if answer.missing != {} then CheckTarget(copy, work)
      else ReadHash(copy, work)
  }

  ghost function AfterUpstream(op: Operator, cr: Resource, copy: Copy, upstream: Upstream): Pass {
    match upstream
    case RateLimited => Idle
    case Unresolved(obstacle) => NotReady(copy, ObstacleReason(obstacle))
    case Refused(error) => NotReady(copy, ErrorReason(error))
    case Revealed(answer) => AfterReveal(op, cr, copy, answer)
  }

  function AfterCheck(cr: Resource, copy: Copy, work: Work, present: bool): Pass {
    if present || work.data == map[] then
      NotReady(copy.(status := copy.status.(missingKeys := work.answer.missing, observedGeneration := cr.generation)),
               "MissingKeys")
    else ReadHash(copy, work)
  }

  function AfterHash(cr: Resource, copy: Copy, work: Work, previous: string): Pass {
    var work' := work.(previous := previous);
    if MustRecord(cr, copy.status.lastRolloutHash, previous, work.hash)
    then RecordPending(WithHash(copy, previous), work')
    else ReadTarget(copy, work')
  }

  function AfterTargetRead(cr: Resource, copy: Copy, work: Work, seen: Option<Secret>): Pass {
    match Desired(cr, seen, work.data, work.hash)
    case Err(TargetConflict) => NotReady(copy, "TargetConflict")
    case Err(AlreadyOwned) => NotReady(copy, "SecretWriteFailed")
    case Ok(desired) =>
      if seen == Some(desired) then AfterTarget(cr, copy, work) else WriteTarget(copy, work, seen, desired)
  }

  function AfterTarget(cr: Resource, copy: Copy, work: Work): Pass {
    if cr.rollout == [] then ToFinish(cr, WithHash(copy, ""), work, false)
    else if RolloutDue(copy.status.lastRolloutHash, work.previous, work.hash) then AtWorkload(cr, copy, work, 0, false)
    else ToFinish(cr, WithHash(copy, work.hash), work, false)
  }

  function AtWorkload(cr: Resource, copy: Copy, work: Work, i: nat, failed: bool): Pass {
    if i < |cr.rollout| then ReadWorkload(copy, work, i, failed)
    else ToFinish(cr, if failed then copy else WithHash(copy, work.hash), work, failed)
  }

  function ToFinish(cr: Resource, copy: Copy, work: Work, failed: bool): Pass {
    Finish(copy.(status := Synced(cr, copy.status, work, failed)), work, failed)
  }

  function StartAll(cr: Resource, v: View, hash: string): map<WorkloadRef, string> {
    var listed := set w | w in cr.rollout;
    map w | w in v.served.Keys + listed :: hash
  }

  /** The write of `CreateOrUpdate`. Creating the target is also what the listed workloads start from. */
  function PutTarget(cr: Resource, v: View, work: Work, desired: Secret): View {
    v.(target := Some(desired),
       served := if v.target.None? then StartAll(cr, v, work.hash) else v.served,
       log := v.log + [TargetWritten(work.answer, work.hash, v.target.Some?)])
  }

  /** The merge patch of a pod template: it carries the two annotations it changes and no others. */
  function PutMarker(cr: Resource, v: View, w: WorkloadRef, hash: string, now: string): View
    requires w in v.workloads
  {
    v.(workloads := v.workloads[w := v.workloads[w][RESTARTED_AT := now][MarkerKey(cr.uid) := hash]],
       served := v.served[w := hash],
       log := v.log + [Restarted(w, hash)])
  }

  ghost predicate Fits(cr: Resource, p: Pass) {
    (p.ReadWorkload? || p.PatchWorkload?) ==> p.i < |cr.rollout|
  }

  ghost function Step(op: Operator, cr: Resource, v: View, p: Pass, c: Choice): Stepped
    requires Fits(cr, p)
    ensures Fits(cr, Step(op, cr, v, p, c).pass)
  {
    var ok := c.fault.Success?;
    match p
    case Idle =>
      Stepped(v, if ok && c.version < |v.history| then Resolve(Copy(c.version, v.history[c.version])) else Idle)
    case Resolve(copy) =>
      Stepped(v, AfterUpstream(op, cr, copy, c.upstream))
    case CheckTarget(copy, work) =>
      Stepped(v, if ok then AfterCheck(cr, copy, work, v.target.Some?) else NotReady(copy, "SecretReadFailed"))
    case ReadHash(copy, work) =>
      Stepped(v, if ok then AfterHash(cr, copy, work, TargetHash(v)) else NotReady(copy, "SecretReadFailed"))
    case RecordPending(copy, work) =>
      var (v', done) := PutStatus(v, copy, c.fault);
      Stepped(v', if done then ReadTarget(copy.(version := copy.version + 1), work) else Idle)
    case ReadTarget(copy, work) =>
      Stepped(v, if ok then AfterTargetRead(cr, copy, work, v.target) else NotReady(copy, "SecretWriteFailed"))
    case WriteTarget(copy, work, seen, desired) =>
      if c.fault.Lost? || v.target != seen then Stepped(v, NotReady(copy, "SecretWriteFailed")) else
        Stepped(PutTarget(cr, v, work, desired),
                if ok then AfterTarget(cr, copy, work) else NotReady(copy, "SecretWriteFailed"))
    case ReadWorkload(copy, work, i, failed) =>
      var w := cr.rollout[i];
      Stepped(v,
              if !SupportedKind(w.kind) || !ok || w !in v.workloads then AtWorkload(cr, copy, work, i + 1, true)
              else if Marker(cr.uid, v.workloads, w) == Some(work.hash) then AtWorkload(cr, copy, work, i + 1, failed)
              else PatchWorkload(copy, work, i, failed))
    case PatchWorkload(copy, work, i, failed) =>
      var w := cr.rollout[i];
      Stepped(if c.fault.Lost? || w !in v.workloads then v else PutMarker(cr, v, w, work.hash, c.now),
              AtWorkload(cr, copy, work, i + 1, failed || !ok || w !in v.workloads))
    case Finish(copy, work, failed) =>
      Stepped(PutStatus(v, copy, c.fault).0, Idle)
    case Fail(copy) =>
      Stepped(PutStatus(v, copy, c.fault).0, Idle)
  }

  // ---------- one whole pass without interruption ----------

  /** How many more steps a pass can take. */
  ghost function Remaining(cr: Resource, p: Pass): nat
    requires Fits(cr, p)
  {
    match p
    case Idle => 0
    case Fail(_) => 1
    case Finish(_, _, _) => 1
    case PatchWorkload(_, _, i, _) => 2 * (|cr.rollout| - i) + 1
    case ReadWorkload(_, _, i, _) => 2 * (|cr.rollout| - i) + 2
    case WriteTarget(_, _, _, _) => 2 * |cr.rollout| + 3
    case ReadTarget(_, _) => 2 * |cr.rollout| + 4
    case RecordPending(_, _) => 2 * |cr.rollout| + 5
    case ReadHash(_, _) => 2 * |cr.rollout| + 6
    case CheckTarget(_, _) => 2 * |cr.rollout| + 7
    case Resolve(_) => 2 * |cr.rollout| + 8
  }

  lemma StepsRunOut(op: Operator, cr: Resource, v: View, p: Pass, c: Choice)
    requires Fits(cr, p) && !p.Idle?
    ensures Remaining(cr, Step(op, cr, v, p, c).pass) < Remaining(cr, p)
  {
  }

  type Script = nat -> Choice

  /** The environment's decisions from the `n`th on, until the pass is over. */
  ghost function Drain(op: Operator, cr: Resource, v: View, p: Pass, script: Script, n: nat): View
    requires Fits(cr, p)
    decreases Remaining(cr, p)
  {
    if p.Idle? then v else
      StepsRunOut(op, cr, v, p, script(n));
      var next := Step(op, cr, v, p, script(n));
      Drain(op, cr, next.view, next.pass, script, n + 1)
  }

  lemma DrainOne(op: Operator, cr: Resource, v: View, p: Pass, script: Script, n: nat)
    requires Fits(cr, p) && !p.Idle?
    ensures var next := Step(op, cr, v, p, script(n));
            Drain(op, cr, v, p, script, n)
            == if next.pass.Idle? then next.view else Drain(op, cr, next.view, next.pass, script, n + 1)
  {
  }

  /** A pass from its first call to its last, which the `n`th decision meets. */
  ghost function PassFrom(op: Operator, cr: Resource, v: View, script: Script, n: nat): View {
    var first := Step(op, cr, v, Idle, script(n));
    Drain(op, cr, first.view, first.pass, script, n + 1)
  }

  ghost function WholePass(op: Operator, cr: Resource, v: View, script: Script): View {
    PassFrom(op, cr, v, script, 0)
  }
}
