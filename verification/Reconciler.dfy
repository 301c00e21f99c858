/** The reconcile pass as the source writes it: one method per function, updating the cluster in place,
    with early exits and a loop over the workloads. Each method is proved to do what the step machine
    does, so that everything shown of the machine holds of these methods. */
module Reconciler {
  import opened Wrappers
  import opened ClusterModel
  import Coherence
  import ContentHash
  import RateLimit
  import TargetSafety
  import Transforms

  lemma DrainReadHash(op: Operator, cr: Resource, v: View, copy: Copy, content: Work, script: Script, n: nat)
    ensures Drain(op, cr, v, ReadHash(copy, content), script, n)
            == if script(n).fault.Success?
               then Drain(op, cr, v, AfterHash(cr, copy, content, TargetHash(v)), script, n + 1)
               else Drain(op, cr, v, NotReady(copy, "SecretReadFailed"), script, n + 1)
  {
    hide MustRecord, TargetHash;
    DrainOne(op, cr, v, ReadHash(copy, content), script, n);
  }

  lemma DrainFinish(op: Operator, cr: Resource, v: View, copy: Copy, work: Work, failed: bool, script: Script, n: nat)
    ensures Drain(op, cr, v, ToFinish(cr, copy, work, failed), script, n)
            == PutStatus(v, copy.(status := Synced(cr, copy.status, work, failed)), script(n).fault).0
  {
    hide Synced, PutStatus;
    DrainOne(op, cr, v, ToFinish(cr, copy, work, failed), script, n);
  }

  lemma DrainResolve(op: Operator, cr: Resource, v: View, copy: Copy, script: Script, n: nat)
    ensures var p := AfterUpstream(op, cr, copy, script(n).upstream);
            Drain(op, cr, v, Resolve(copy), script, n) == if p.Idle? then v else Drain(op, cr, v, p, script, n + 1)
  {
    hide AfterUpstream;
    DrainOne(op, cr, v, Resolve(copy), script, n);
  }

  class Cluster {
    const op: Operator
    const cr: Resource
    /** How the environment meets each call, in the order the calls are made. */
    const script: Script
    /** The counters shared by the passes of all resources, and the key of this one. */
    const backoff: RateLimit.RateLimitBackoff
    const key: RateLimit.Key

    var target: Option<Secret>
    var workloads: map<WorkloadRef, Annotations>
    var history: seq<Status>
    var calls: nat
    ghost var served: map<WorkloadRef, string>
    ghost var log: seq<Event>

    constructor (op: Operator, cr: Resource, script: Script, v: View,
                 backoff: RateLimit.RateLimitBackoff, key: RateLimit.Key)
      ensures this.op == op && this.cr == cr && this.script == script && calls == 0 && Now() == v
      ensures this.backoff == backoff && this.key == key
    {
      this.op, this.cr, this.script, this.backoff, this.key := op, cr, script, backoff, key;
      target, workloads, history, calls, served, log := v.target, v.workloads, v.history, 0, v.served, v.log;
    }

    ghost function Now(): View
      reads this
    {
      View(target, workloads, history, served, log)
    }

    /** Where the machine ends up when it goes on from here. */
    ghost function Rest(p: Pass): View
      reads this
      requires Fits(cr, p)
    {
      Drain(op, cr, Now(), p, script, calls)
    }

    method NextCall() returns (c: Choice)
      modifies this`calls
      ensures c == script(old(calls)) && calls == old(calls) + 1
    {
      c := script(calls);
      calls := calls + 1;
    }

    /** `Status().Update`, with the conflict a stale copy runs into. */
    method UpdateStatus(copy: Copy) returns (ok: bool)
      modifies this
      ensures (Now(), ok) == PutStatus(old(Now()), copy, script(old(calls)).fault)
      ensures calls == old(calls) + 1
    {
      var c := NextCall();
      if copy.version + 1 != |history| {
        return false;
      }
      if !c.fault.Lost? {
        history := history + [copy.status];
      }
      return c.fault.Success?;
    }

    /** `failReady`: every failure exit reports Ready=False and persists the status as it stands. */
    method FailReady(copy: Copy, reason: string)
      modifies this
      ensures old(Rest(NotReady(copy, reason))) == Now()
      ensures target == old(target) && workloads == old(workloads) && served == old(served) && log == old(log)
    {
      DrainOne(op, cr, Now(), NotReady(copy, reason), script, calls);
      var conditions := copy.status.conditions[READY := Condition(false, reason)];
      var _ := UpdateStatus(copy.(status := copy.status.(conditions := conditions)));
    }

    /** `targetContentHash`, or `None` when the read fails. */
    method TargetContentHash() returns (hash: Option<string>)
      modifies this`calls
      ensures calls == old(calls) + 1
      ensures hash == if script(old(calls)).fault.Success? then Some(TargetHash(Now())) else None
    {
      var c := NextCall();
      if !c.fault.Success? {
        return None;
      }
      if target.None? || CONTENT_HASH !in target.value.annotations {
        return Some("");
      }
      return Some(target.value.annotations[CONTENT_HASH]);
    }

    /** `recordPendingRollout`: before the target changes for the first time, persist what the workloads
        run now. `None` when the status could not be written. */
    method RecordPendingRollout(copy: Copy, work: Work) returns (recorded: Option<Copy>)
      modifies this
      ensures old(Rest(AfterHash(cr, copy, work, work.previous)))
              == if recorded.Some? then Rest(ReadTarget(recorded.value, work)) else Now()
      ensures target == old(target) && workloads == old(workloads) && served == old(served) && log == old(log)
    {
      if |cr.rollout| == 0 || copy.status.lastRolloutHash != "" {
        return Some(copy);
      }
      if !RolloutDue("", work.previous, work.hash) {
        return Some(copy);
      }
      var pending := WithHash(copy, work.previous);
      DrainOne(op, cr, Now(), RecordPending(pending, work), script, calls);
      var ok := UpdateStatus(pending);
      if !ok {
        return None;
      }
      return Some(pending.(version := pending.version + 1));
    }

    /** The mutation inside `CreateOrUpdate`. */
    method Mutate(existing: Option<Secret>, work: Work) returns (r: Result<Secret, Refusal>)
      ensures r == Desired(cr, existing, work.data, work.hash)
    {
      var secret := if existing.Some? then existing.value else Secret("", map[], [], map[]);
      if existing.Some? && !Adoptable(secret, cr) {
        return Err(TargetConflict);
      }
      if TokenKey(cr).None? {
        var owners := WithController(secret.owners, cr);
        if owners.None? {
          return Err(AlreadyOwned);
        }
        secret := secret.(owners := owners.value);
      } else {
        var owners := TargetSafety.FilterOwners(secret.owners, cr.uid);
        secret := secret.(owners := owners);
      }
      secret := secret.(kind := if cr.targetType == "" then "Opaque" else cr.targetType);
      secret := secret.(annotations := secret.annotations[MANAGED_BY := "ferrvault-operator"]);
      secret := secret.(annotations := secret.annotations[CONTENT_HASH := work.hash]);
      secret := secret.(data := work.data);
      return Ok(secret);
    }

    /** The write of `CreateOrUpdate`. */
    method WriteSecret(copy: Copy, work: Work, secret: Secret) returns (ok: bool)
      requires Desired(cr, target, work.data, work.hash) == Ok(secret)
      modifies this
      ensures old(Rest(WriteTarget(copy, work, target, secret)))
              == if ok then Rest(AfterTarget(cr, copy, work)) else Rest(NotReady(copy, "SecretWriteFailed"))
      ensures target == Some(secret) || (!ok && target == old(target))
      ensures workloads == old(workloads) && history == old(history)
    {
      hide AfterTarget, StartAll, Desired;
      ghost var before := Now();
      DrainOne(op, cr, before, WriteTarget(copy, work, target, secret), script, calls);
      var c := NextCall();
      if c.fault.Lost? {
        return false;
      }
      served := PutTarget(cr, before, work, secret).served;
      log := PutTarget(cr, before, work, secret).log;
      target := Some(secret);
      assert Now() == PutTarget(cr, before, work, secret);
      return c.fault.Success?;
    }

    /** `ensureTargetSecret`: read, mutate, and write unless nothing changed. `Some` is the reason of a
        failure. */
    method EnsureTargetSecret(copy: Copy, work: Work) returns (failure: Option<string>)
      modifies this
      ensures old(Rest(ReadTarget(copy, work)))
              == if failure.Some? then Rest(NotReady(copy, failure.value)) else Rest(AfterTarget(cr, copy, work))
      ensures workloads == old(workloads) && history == old(history)
    {
      DrainOne(op, cr, Now(), ReadTarget(copy, work), script, calls);
      var c := NextCall();
      if !c.fault.Success? {
        return Some("SecretWriteFailed");
      }
      var desired := Mutate(target, work);
      match desired {
        case Err(TargetConflict) => return Some("TargetConflict");
        case Err(AlreadyOwned) => return Some("SecretWriteFailed");
        case Ok(secret) =>
          if target == Some(secret) {
            return None;
          }
          var ok := WriteSecret(copy, work, secret);
          return if ok then None else Some("SecretWriteFailed");
      }
    }

    /** The closure of `triggerRollouts` that patches one pod template, unless it carries the marker
        already. */
    method PatchPodTemplate(copy: Copy, work: Work, i: nat, failed: bool) returns (ok: bool)
      requires i < |cr.rollout| && cr.rollout[i] in workloads
      modifies this
      ensures old(if Marker(cr.uid, workloads, cr.rollout[i]) == Some(work.hash)
                  then Rest(AtWorkload(cr, copy, work, i + 1, failed)) else Rest(PatchWorkload(copy, work, i, failed)))
              == Rest(AtWorkload(cr, copy, work, i + 1, failed || !ok))
      ensures old(Marker(cr.uid, workloads, cr.rollout[i])) == Some(work.hash) ==>
                ok && Now() == old(Now()) && calls == old(calls)
      ensures target == old(target) && history == old(history)
    {
      var w := cr.rollout[i];
      if Marker(cr.uid, workloads, w) == Some(work.hash) {
        return true;
      }
      var c := NextCall();
      if !c.fault.Lost? {
        ghost var before := Now();
        served := PutMarker(cr, before, w, work.hash, c.now).served;
        log := PutMarker(cr, before, w, work.hash, c.now).log;
        workloads := workloads[w := workloads[w][RESTARTED_AT := c.now][MarkerKey(cr.uid) := work.hash]];
      }
      return c.fault.Success?;
    }

    /** `triggerRollouts`: try every listed workload, remember that one failed, go on with the others. */
    method TriggerRollouts(copy: Copy, work: Work) returns (failed: bool)
      modifies this
      ensures old(Rest(AtWorkload(cr, copy, work, 0, false))) == Rest(AtWorkload(cr, copy, work, |cr.rollout|, failed))
      ensures target == old(target) && history == old(history)
    {
      failed := false;
      for i := 0 to |cr.rollout|
        invariant Rest(AtWorkload(cr, copy, work, i, failed)) == old(Rest(AtWorkload(cr, copy, work, 0, false)))
        invariant target == old(target) && history == old(history)
      {
        var w := cr.rollout[i];
        var c := NextCall();
        var ok := SupportedKind(w.kind) && c.fault.Success? && w in workloads;
        if ok {
          ok := PatchPodTemplate(copy, work, i, failed);
        }
        if !ok {
          failed := true;
        }
      }
    }

    /** `rolloutIfDue`. */
    method RolloutIfDue(copy: Copy, work: Work) returns (copy': Copy, failed: bool)
      modifies this
      ensures old(Rest(AfterTarget(cr, copy, work))) == Rest(ToFinish(cr, copy', work, failed))
      ensures target == old(target) && history == old(history)
    {
      if |cr.rollout| == 0 {
        return WithHash(copy, ""), false;
      }
      if RolloutDue(copy.status.lastRolloutHash, work.previous, work.hash) {
        failed := TriggerRollouts(copy, work);
        if failed {
          return copy, true;
        }
      }
      return WithHash(copy, work.hash), false;
    }

    /** A 429 of the reveal lengthens the streak of this resource, any other outcome of it ends the
        streak, and a pass that fails before the reveal leaves it alone. */
    method CountAnswer(upstream: Upstream, draw: int) returns (wait: int)
      requires backoff.Valid() && DrawFits(draw)
      modifies backoff
      ensures backoff.Valid()
      ensures upstream.RateLimited? ==> backoff.events == old(backoff.events) + [RateLimit.Limited(key)]
      ensures upstream.Unresolved? ==> backoff.events == old(backoff.events)
      ensures upstream.Refused? || upstream.Revealed? ==>
                backoff.events == old(backoff.events) + [RateLimit.Answered(key)]
      ensures upstream.RateLimited? ==> RateLimit.InSlot(RateLimit.Consecutive(backoff.events, key), wait)
    {
      wait := 0;
      match upstream {
        case RateLimited => wait := backoff.Next(key, draw);
        case Unresolved(_) =>
        case _ => backoff.Forget(key);
      }
    }

    /** The draw is one of the generator: below half the delay. */
    ghost predicate DrawFits(draw: int)
      reads backoff
    {
      0 <= draw < RateLimit.BackoffFor(RateLimit.Consecutive(backoff.events, key)) / 2
    }

    /** The read-only calls up to the answer and its transforms. `None` when the pass is over. */
    method FetchContent(copy: Copy, draw: int) returns (content: Option<Work>, wait: int)
      requires backoff.Valid() && DrawFits(draw)
      modifies this, backoff
      ensures backoff.Valid()
      ensures script(old(calls)).upstream.Unresolved? ==> backoff.events == old(backoff.events)
      ensures script(old(calls)).upstream.Refused? || script(old(calls)).upstream.Revealed? ==>
                backoff.events == old(backoff.events) + [RateLimit.Answered(key)]
      ensures script(old(calls)).upstream.RateLimited? ==>
                && content.None? && calls == old(calls) + 1
                && backoff.events == old(backoff.events) + [RateLimit.Limited(key)]
                && RateLimit.InSlot(RateLimit.Consecutive(backoff.events, key), wait)
      ensures old(Rest(Resolve(copy)))
              == match content
                 case None => Now()
                 case Some(work) =>
                   if work.answer.missing != {} then Rest(CheckTarget(copy, work)) else Rest(ReadHash(copy, work))
      ensures target == old(target) && workloads == old(workloads)
    {
      hide Step, Drain, Transforms.Apply, ContentHash.Serialise, TokenKey;
      DrainResolve(op, cr, Now(), copy, script, calls);
      var c := NextCall();
      wait := CountAnswer(c.upstream, draw);
      match c.upstream {
        case RateLimited =>
          return None, wait;
        case Unresolved(NoConnection) =>
          FailReady(copy, "ConnectionNotFound");
          return None, wait;
        case Unresolved(NoToken) =>
          FailReady(copy, "TokenUnreadable");
          return None, wait;
        case Unresolved(NoClient) =>
          FailReady(copy, "InvalidConnection");
          return None, wait;
        case Unresolved(NoScope) =>
          FailReady(copy, "MissingCloudScope");
          return None, wait;
        case Refused(error) =>
          if error.Unauthorised? {
            FailReady(copy, "AuthFailed");
            return None, wait;
          }
          if error.NotFound? {
            FailReady(copy, "VaultNotFound");
            return None, wait;
          }
          FailReady(copy, "Unreachable");
          return None, wait;
        case Revealed(answer) =>
          var transformed := Transforms.ApplyTransforms(op.lib, answer.secrets, cr.transforms);
          if transformed.error.Some? {
            FailReady(copy, "TransformError");
            return None, wait;
          }
          var data := transformed.data;
          if TokenKey(cr).Some? && TokenKey(cr).value !in data {
            FailReady(copy, "TokenKeyMissing");
            return None, wait;
          }
          var hash := ContentHash.HashSecretData(data, op.digest);
          return Some(Work(answer, data, hash, "")), wait;
      }
    }

    /** An incomplete answer must not replace a target that exists, nor create an empty one. */
    method GuardMissing(copy: Copy, work: Work) returns (goOn: bool)
      requires work.answer.missing != {}
      modifies this
      ensures old(Rest(CheckTarget(copy, work))) == if goOn then Rest(ReadHash(copy, work)) else Now()
      ensures target == old(target) && workloads == old(workloads)
    {
      var c := NextCall();
      if !c.fault.Success? {
        FailReady(copy, "SecretReadFailed");
        return false;
      }
      if target.Some? || work.data == map[] {
        var status := copy.status.(missingKeys := work.answer.missing, observedGeneration := cr.generation);
        FailReady(copy.(status := status), "MissingKeys");
        return false;
      }
      return true;
    }

    /** From the hash of the target to the end of the pass. */
    method SyncTarget(copy: Copy, content: Work)
      modifies this
      ensures old(Rest(ReadHash(copy, content))) == Now()
    {
      hide Step, Drain, AfterTarget, MustRecord, Synced, PutStatus, ToFinish;
      DrainReadHash(op, cr, Now(), copy, content, script, calls);
      var previous := TargetContentHash();
      if previous.None? {
        FailReady(copy, "SecretReadFailed");
        return;
      }
      var work := content.(previous := previous.value);
      var recorded := RecordPendingRollout(copy, work);
      if recorded.None? {
        return;
      }
      var failure := EnsureTargetSecret(recorded.value, work);
      if failure.Some? {
        FailReady(recorded.value, failure.value);
        return;
      }
      var copy', failed := RolloutIfDue(recorded.value, work);
      DrainFinish(op, cr, Now(), copy', work, failed, script, calls);
      var _ := UpdateStatus(copy'.(status := Synced(cr, copy'.status, work, failed)));
    }

    /** `Reconcile`: one whole pass, and when a 429 asks to be called back. */
    method Reconcile(draw: int) returns (wait: int)
      requires backoff.Valid() && DrawFits(draw)
      modifies this, backoff
      ensures Now() == PassFrom(op, cr, old(Now()), script, old(calls))
      ensures var c := script(old(calls));
              var begun := c.fault.Success? && c.version < |old(history)|;
              var upstream := script(old(calls) + 1).upstream;
              && backoff.Valid()
              && (!begun || upstream.Unresolved? ==> backoff.events == old(backoff.events))
              && (begun && (upstream.Refused? || upstream.Revealed?) ==>
                    backoff.events == old(backoff.events) + [RateLimit.Answered(key)])
              && (begun && upstream.RateLimited? ==>
                    && backoff.events == old(backoff.events) + [RateLimit.Limited(key)]
                    && Now() == old(Now()) && calls == old(calls) + 2
                    && RateLimit.InSlot(RateLimit.Consecutive(backoff.events, key), wait))
    {
      if script(calls + 1).upstream.RateLimited? {
        Coherence.RateLimitedPassStutters(op, cr, Now(), script, calls);
      }
      var c := NextCall();
      if !c.fault.Success? || c.version >= |history| {
        return 0;
      }
      var copy := Copy(c.version, history[c.version]);
      var content;
      content, wait := FetchContent(copy, draw);
      if content.None? {
        return;
      }
      if content.value.answer.missing != {} {
        var goOn := GuardMissing(copy, content.value);
        if !goOn {
          return;
        }
      }
      SyncTarget(copy, content.value);
    }

    /** The work queue calling back a reconciler whose reveal keeps meeting a 429, with one draw for each
        pass. Nothing changes, and the `k`th pass asks for a wait of its own slot, counted on from the
        streak there was before. */
    method ReconcileWhileLimited(draws: seq<int>) returns (waits: seq<int>)
      requires backoff.Valid()
      requires forall k | 0 <= k < |draws| :: LimitedAt(calls + 2 * k)
      requires forall k | 0 <= k < |draws| ::
                 0 <= draws[k] < RateLimit.BackoffFor(RateLimit.Consecutive(backoff.events, key) + k) / 2
      modifies this, backoff
      ensures Now() == old(Now()) && |waits| == |draws|
      ensures backoff.Valid() && backoff.events == old(backoff.events) + RateLimit.Limits(key, |draws|)
      ensures forall k | 0 <= k < |waits| ::
                RateLimit.InSlot(old(RateLimit.Consecutive(backoff.events, key)) + k + 1, waits[k])
    {
      hide RateLimit.Consecutive, RateLimit.BackoffFor, RateLimit.InSlot, PassFrom;
      waits := [];
      ghost var before := backoff.events;
      assert before + RateLimit.Limits(key, 0) == before;
      for n := 0 to |draws|
        invariant Now() == old(Now()) && calls == old(calls) + 2 * n && |waits| == n
        invariant backoff.Valid() && backoff.events == before + RateLimit.Limits(key, n)
        invariant forall k | 0 <= k < n :: RateLimit.InSlot(RateLimit.Consecutive(before, key) + k + 1, waits[k])
      {
        assert LimitedAt(old(calls) + 2 * n);
        RateLimit.LimitsCount(before, key, n);
        var wait := Reconcile(draws[n]);
        RateLimit.LimitsCount(before, key, n + 1);
        waits := waits + [wait];
      }
    }

    /** The pass whose first call is the `n`th reads the resource and meets a 429. */
    ghost predicate LimitedAt(n: nat)
      reads this
    {
      script(n).fault.Success? && script(n).version < |history| && script(n + 1).upstream.RateLimited?
    }
  }
}
