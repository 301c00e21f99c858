/** What a run may do to the target Secret: it holds the transform of one single answer, foreign
    Secrets stay untouched, and the connection token is neither dropped nor owned. */
module TargetSafety {
  import opened Wrappers
  import opened ClusterModel
  import opened Coherence
  import opened RolloutSafety
  import ContentHash
  import Transforms

  // ---------- last known good, never torn ----------

  /** The last write of the target in a log. */
  function LastWrite(log: seq<Event>): Option<Event>
    decreases |log|
  {
    if log == [] then None
    else if log[|log| - 1].TargetWritten? then Some(log[|log| - 1])
    else LastWrite(log[..|log| - 1])
  }

  /** `e` wrote the transform of a single answer, and a complete one if it replaced a target. */
  ghost predicate WroteWhole(op: Operator, cr: Resource, e: Event)
    requires e.TargetWritten?
  {
    && Transformed(op, cr, e.answer.secrets).Some?
    && e.hash == HashOf(op, Transformed(op, cr, e.answer.secrets).value)
    && (e.replaced ==> e.answer.missing == {})
  }

  /** The target is the one the run started with, or exactly what the last write left. */
  ghost predicate LastKnownGood(op: Operator, cr: Resource, first: Option<Secret>, v: View) {
    && (forall n | 0 <= n < |v.log| && v.log[n].TargetWritten? :: WroteWhole(op, cr, v.log[n]))
    && match LastWrite(v.log)
       case None => v.target == first
       case Some(e) =>
         && v.target.Some? && e.TargetWritten? && TargetHash(v) == e.hash
         && Transformed(op, cr, e.answer.secrets) == Some(v.target.value.data)
         && MANAGED_BY in v.target.value.annotations
  }

  lemma StepTarget(op: Operator, cr: Resource, s: Stepped, c: Choice)
    requires Fits(cr, s.pass)
    ensures var v' := Step(op, cr, s.view, s.pass, c).view;
            if Writes(s, c) then v' == PutTarget(cr, s.view, s.pass.work, s.pass.desired)
            else && v'.target == s.view.target
                 && (v'.log == s.view.log
                     || (s.pass.PatchWorkload?
                         && v'.log == s.view.log + [Restarted(cr.rollout[s.pass.i], s.pass.work.hash)]))
  {
  }

  lemma WriteLeavesGood(op: Operator, cr: Resource, first: Option<Secret>, s: Stepped, c: Choice)
    requires Coherent(op, cr, s) && LastKnownGood(op, cr, first, s.view) && Writes(s, c)
    ensures LastKnownGood(op, cr, first, PutTarget(cr, s.view, s.pass.work, s.pass.desired))
  {
    var v' := PutTarget(cr, s.view, s.pass.work, s.pass.desired);
    var e := v'.log[|s.view.log|];
    assert WroteWhole(op, cr, e);
    assert LastWrite(v'.log) == Some(e);
  }

  /** Only a complete write changes the target; every other step of a pass leaves it as it was. */
  lemma MoveLeavesGood(op: Operator, cr: Resource, first: Option<Secret>, s: Stepped, m: Move)
    requires Coherent(op, cr, s) && LastKnownGood(op, cr, first, s.view)
    ensures LastKnownGood(op, cr, first, Moved(op, cr, s, m).view)
  {
    if m.Call? {
      StepTarget(op, cr, s, m.choice);
      if Writes(s, m.choice) {
        WriteLeavesGood(op, cr, first, s, m.choice);
      } else {
        var v' := Moved(op, cr, s, m).view;
        assert v'.log != s.view.log ==> v'.log[..|v'.log| - 1] == s.view.log;
      }
    }
  }

  lemma {:induction false} TargetIsNeverTorn(op: Operator, cr: Resource, first: Option<Secret>,
                                             s: Stepped, moves: seq<Move>)
    requires ValidOperator(op) && Coherent(op, cr, s) && LegalRun(op, cr, s, moves)
    requires LastKnownGood(op, cr, first, s.view)
    ensures LastKnownGood(op, cr, first, Run(op, cr, s, moves).view)
    decreases |moves|
  {
    if moves != [] {
      var so, m := LastMove(op, cr, s, moves);
      TargetIsNeverTorn(op, cr, first, s, moves[..|moves| - 1]);
      MoveLeavesGood(op, cr, first, so, m);
    }
  }

  lemma {:induction false} NoWriteNoChange(op: Operator, cr: Resource, s: Stepped, moves: seq<Move>)
    requires ValidOperator(op) && Coherent(op, cr, s) && LegalRun(op, cr, s, moves) && s.view.log == []
    ensures var v := Run(op, cr, s, moves).view; v.target == s.view.target || LastWrite(v.log).Some?
  {
    TargetIsNeverTorn(op, cr, s.view.target, s, moves);
  }

  /** In plain words: in every run, a target that is not what it was holds what the transforms make of the
      secrets of one answer, annotated with the digest of the canonical bytes of just that data. */
  lemma ChangedTargetIsOneTransform(op: Operator, cr: Resource, s: Stepped, moves: seq<Move>)
    requires ValidOperator(op) && Coherent(op, cr, s) && LegalRun(op, cr, s, moves) && s.view.log == []
    requires Run(op, cr, s, moves).view.target != s.view.target
    ensures var v := Run(op, cr, s, moves).view;
            && v.target.Some? && "ferrvault.com/content-hash" in v.target.value.annotations
            && v.target.value.annotations["ferrvault.com/content-hash"]
               == op.digest(ContentHash.Serialise(v.target.value.data))
            && exists answer: Reveal ::
                 Transforms.Apply(op.lib, answer.secrets, cr.transforms)
                 == Transforms.Applied(v.target.value.data, None)
  {
    hide PassCoherent, StaysRecorded, LegalRun;
    NoWriteNoChange(op, cr, s, moves);
    TargetIsNeverTorn(op, cr, s.view.target, s, moves);
    var v := Run(op, cr, s, moves).view;
    var e := LastWrite(v.log).value;
    WrittenAmong(v.log);
    assert WroteWhole(op, cr, e);
  }

  lemma {:induction false} WrittenAmong(log: seq<Event>)
    requires LastWrite(log).Some?
    ensures exists n | 0 <= n < |log| :: log[n].TargetWritten? && log[n] == LastWrite(log).value
    decreases |log|
  {
    if !log[|log| - 1].TargetWritten? {
      WrittenAmong(log[..|log| - 1]);
    }
  }

  /** Adoption is stable: after the first write the target passes the check for ever. */
  lemma WrittenTargetStaysAdoptable(op: Operator, cr: Resource, s: Stepped, moves: seq<Move>)
    requires ValidOperator(op) && Coherent(op, cr, s) && LegalRun(op, cr, s, moves) && s.view.log == []
    requires LastWrite(Run(op, cr, s, moves).view.log).Some?
    ensures var v := Run(op, cr, s, moves).view; v.target.Some? && Adoptable(v.target.value, cr)
  {
    TargetIsNeverTorn(op, cr, s.view.target, s, moves);
  }

  // ---------- foreign Secrets ----------

  function Owners(target: Option<Secret>): seq<OwnerRef> {
    if target.Some? then target.value.owners else []
  }

  /** A Secret under the target's name that neither the operator nor this resource manages. */
  predicate Foreign(cr: Resource, target: Option<Secret>) {
    target.Some? && !Adoptable(target.value, cr)
  }

  lemma MoveSparesForeign(op: Operator, cr: Resource, s: Stepped, m: Move)
    requires Coherent(op, cr, s) && Foreign(cr, s.view.target)
    ensures Moved(op, cr, s, m).view.target == s.view.target
  {
    if m.Call? {
      StepTarget(op, cr, s, m.choice);
    }
  }

  lemma {:induction false} ForeignStays(op: Operator, cr: Resource, s: Stepped, moves: seq<Move>)
    requires ValidOperator(op) && Coherent(op, cr, s) && LegalRun(op, cr, s, moves)
    requires Foreign(cr, s.view.target)
    ensures Run(op, cr, s, moves).view.target == s.view.target
    decreases |moves|
  {
    if moves != [] {
      var so, m := LastMove(op, cr, s, moves);
      ForeignStays(op, cr, s, moves[..|moves| - 1]);
      MoveSparesForeign(op, cr, so, m);
    }
  }

  /** A Secret that lacks the operator's annotation, is not owned by this resource, and is not the Secret
      the connection keeps its token in, is left alone by every run. */
  lemma ForeignSecretIsNeverTouched(op: Operator, cr: Resource, s: Stepped, moves: seq<Move>)
    requires ValidOperator(op) && Coherent(op, cr, s) && LegalRun(op, cr, s, moves)
    requires s.view.target.Some? && "ferrvault.com/managed-by" !in s.view.target.value.annotations
    requires forall ref | ref in s.view.target.value.owners :: ref.uid != cr.uid
    requires cr.tokenRef.None? || cr.tokenRef.value.0 != (if cr.targetName != "" then cr.targetName else cr.name)
    ensures Run(op, cr, s, moves).view.target == s.view.target
  {
    ForeignStays(op, cr, s, moves);
  }

  /** The Secret is the one the connection keeps its token in. */
  ghost predicate IsTokenSecret(cr: Resource) {
    cr.tokenRef.Some? && cr.tokenRef.value.0 == (if cr.targetName != "" then cr.targetName else cr.name)
  }

  /** The first controller among the owners is another object. */
  ghost predicate OtherControls(cr: Resource, owners: seq<OwnerRef>) {
    exists i | 0 <= i < |owners| ::
      owners[i].controller && owners[i].identity != cr.identity && forall j | 0 <= j < i :: !owners[j].controller
  }

  /** Exactly when a write of an existing Secret is refused, and why. */
  lemma RefusedExactly(cr: Resource, secret: Secret, data: Data, hash: string)
    ensures var mine := "ferrvault.com/managed-by" in secret.annotations
                        || exists ref | ref in secret.owners :: ref.uid == cr.uid;
            && (Desired(cr, Some(secret), data, hash) == Err(TargetConflict) <==> !IsTokenSecret(cr) && !mine)
            && (Desired(cr, Some(secret), data, hash) == Err(AlreadyOwned) <==>
                  !IsTokenSecret(cr) && mine && OtherControls(cr, secret.owners))
            && (Desired(cr, Some(secret), data, hash).Ok? <==>
                  IsTokenSecret(cr) || (mine && !OtherControls(cr, secret.owners)))
  {
    var first := FirstOwner(secret.owners, (ref: OwnerRef) => ref.controller);
    assert OtherControls(cr, secret.owners)
      <==> first < |secret.owners| && secret.owners[first].identity != cr.identity;
  }

  /** A target that does not exist is never refused. */
  lemma NewTargetIsNotRefused(cr: Resource, data: Data, hash: string)
    ensures Desired(cr, None, data, hash).Ok?
  {
  }

  /** What a write that is not refused makes of the target: type, data, the two annotations and, unless it
      is the token Secret, one controller reference of this resource; all other annotations and owners stay. */
  lemma WrittenExactly(cr: Resource, existing: Option<Secret>, data: Data, hash: string)
    requires Desired(cr, existing, data, hash).Ok?
    ensures var secret := Desired(cr, existing, data, hash).value;
            var before := if existing.Some? then existing.value.annotations else map[];
            && secret.kind == (if cr.targetType == "" then "Opaque" else cr.targetType) && secret.data == data
            && secret.annotations == before["ferrvault.com/managed-by" := "ferrvault-operator"]
                                           ["ferrvault.com/content-hash" := hash]
            && (IsTokenSecret(cr) ==> secret.owners == WithoutOwner(Owners(existing), cr.uid))
            && (!IsTokenSecret(cr) ==>
                  exists i | 0 <= i < |secret.owners| ::
                    && secret.owners[i] == OwnerRef(cr.identity, cr.uid, true)
                    && (if i < |Owners(existing)| then
                          Owners(existing)[i].identity == cr.identity && |secret.owners| == |Owners(existing)|
                        else secret.owners == Owners(existing) + [secret.owners[i]]
                             && forall j | 0 <= j < i :: Owners(existing)[j].identity != cr.identity)
                    && forall j | 0 <= j < |Owners(existing)| && j != i :: secret.owners[j] == Owners(existing)[j])
  {
    var owners, secret := Owners(existing), Desired(cr, existing, data, hash).value;
    if !IsTokenSecret(cr) {
      var i := FirstOwner(owners, (ref: OwnerRef) => ref.identity == cr.identity);
      assert secret.owners[i] == OwnerRef(cr.identity, cr.uid, true);
    }
  }

  // ---------- owners ----------

  /** The loop of `withoutOwner`. */
  method FilterOwners(refs: seq<OwnerRef>, uid: string) returns (kept: seq<OwnerRef>)
    ensures kept == WithoutOwner(refs, uid)
  {
    kept := [];
    for i := 0 to |refs|
      invariant kept + WithoutOwner(refs[i..], uid) == WithoutOwner(refs, uid)
    {
      assert refs[i..][1..] == refs[i + 1..];
      if refs[i].uid != uid {
        kept := kept + [refs[i]];
      }
    }
  }

  /** The positions `withoutOwner` keeps. */
  function KeptAt(refs: seq<OwnerRef>, uid: string): seq<nat>
    decreases |refs|
  {
    if refs == [] then [] else
      KeptAt(refs[..|refs| - 1], uid) + if refs[|refs| - 1].uid == uid then [] else [|refs| - 1]
  }

  lemma {:induction false} WithoutOwnerAppend(refs: seq<OwnerRef>, ref: OwnerRef, uid: string)
    ensures WithoutOwner(refs + [ref], uid) == WithoutOwner(refs, uid) + if ref.uid == uid then [] else [ref]
  {
    if refs == [] {
      assert refs + [ref] == [ref];
    } else {
      assert (refs + [ref])[1..] == refs[1..] + [ref];
      WithoutOwnerAppend(refs[1..], ref, uid);
    }
  }

  lemma WithoutOwnerOfNone(uid: string)
    ensures WithoutOwner([], uid) == []
  {
  }

  /** What is kept are the references of the others, all of them, in their order. */
  lemma {:induction false} OthersSurviveInOrder(refs: seq<OwnerRef>, uid: string)
    ensures var kept, at := WithoutOwner(refs, uid), KeptAt(refs, uid);
            && !OwnedBy(kept, uid)
            && |at| == |kept|
            && (forall n | 0 <= n < |at| :: at[n] < |refs| && refs[at[n]].uid != uid && kept[n] == refs[at[n]])
            && (forall n, k | 0 <= n < k < |at| :: at[n] < at[k])
            && (forall i | 0 <= i < |refs| && refs[i].uid != uid :: i in at)
    decreases |refs|
  {
    hide WithoutOwner;
    WithoutOwnerOfNone(uid);
    if refs != [] {
      var init := refs[..|refs| - 1];
      OthersSurviveInOrder(init, uid);
      WithoutOwnerAppend(init, refs[|refs| - 1], uid);
      assert refs == init + [refs[|refs| - 1]];
    }
  }

  lemma {:induction false} NothingLeftToDrop(refs: seq<OwnerRef>, uid: string)
    requires !OwnedBy(refs, uid)
    ensures WithoutOwner(refs, uid) == refs
  {
    if refs != [] {
      assert forall ref | ref in refs[1..] :: ref in refs;
      NothingLeftToDrop(refs[1..], uid);
    }
  }

  /** The Secret holds the connection token. */
  predicate HoldsToken(cr: Resource, target: Option<Secret>) {
    TokenKey(cr).Some? && target.Some? && TokenKey(cr).value in target.value.data
  }

  /** The other owners are those of `first`, and this resource is no owner once it has written. */
  ghost predicate TokenKept(cr: Resource, first: Option<Secret>, v: View) {
    && (HoldsToken(cr, first) || LastWrite(v.log).Some? ==> HoldsToken(cr, v.target))
    && WithoutOwner(Owners(v.target), cr.uid) == WithoutOwner(Owners(first), cr.uid)
    && (LastWrite(v.log).Some? ==> !OwnedBy(Owners(v.target), cr.uid))
  }

  lemma WriteIsDesired(op: Operator, cr: Resource, s: Stepped, c: Choice)
    requires Coherent(op, cr, s) && Writes(s, c)
    ensures Desired(cr, s.view.target, s.pass.work.data, s.pass.work.hash) == Ok(s.pass.desired)
    ensures TokenKey(cr).Some? ==> TokenKey(cr).value in s.pass.work.data
  {
    hide Desired, StaysRecorded, MustRecord, Transformed, HashOf;
  }

  lemma TokenWriteKept(op: Operator, cr: Resource, first: Option<Secret>, s: Stepped, c: Choice)
    requires Coherent(op, cr, s) && TokenKey(cr).Some? && TokenKept(cr, first, s.view) && Writes(s, c)
    ensures TokenKept(cr, first, PutTarget(cr, s.view, s.pass.work, s.pass.desired))
  {
    hide Coherent, WithoutOwner, KeptAt, OwnedBy, StartAll;
    WriteIsDesired(op, cr, s, c);
    var before := Owners(s.view.target);
    OthersSurviveInOrder(before, cr.uid);
    NothingLeftToDrop(WithoutOwner(before, cr.uid), cr.uid);
    assert s.pass.desired.owners == WithoutOwner(before, cr.uid);
  }

  lemma MoveKeepsToken(op: Operator, cr: Resource, first: Option<Secret>, s: Stepped, m: Move)
    requires Coherent(op, cr, s) && TokenKey(cr).Some? && TokenKept(cr, first, s.view)
    ensures TokenKept(cr, first, Moved(op, cr, s, m).view)
  {
    hide PassCoherent, StaysRecorded, Step, WithoutOwner, OwnedBy, HoldsToken;
    if m.Call? {
      StepTarget(op, cr, s, m.choice);
      if Writes(s, m.choice) {
        TokenWriteKept(op, cr, first, s, m.choice);
      } else {
        var v' := Moved(op, cr, s, m).view;
        assert v'.log != s.view.log ==> v'.log[..|v'.log| - 1] == s.view.log;
      }
    }
  }

  /** The target that is the connection's own token Secret: its token key stays, the other owners stay
      in order, and from the first write on this resource is not among the owners. */
  lemma {:induction false} ConnectionTokenIsPreserved(op: Operator, cr: Resource, first: Option<Secret>,
                                                      s: Stepped, moves: seq<Move>)
    requires ValidOperator(op) && Coherent(op, cr, s) && LegalRun(op, cr, s, moves) && TokenKey(cr).Some?
    requires TokenKept(cr, first, s.view)
    ensures TokenKept(cr, first, Run(op, cr, s, moves).view)
    decreases |moves|
  {
    if moves != [] {
      var so, m := LastMove(op, cr, s, moves);
      ConnectionTokenIsPreserved(op, cr, first, s, moves[..|moves| - 1]);
      MoveKeepsToken(op, cr, first, so, m);
    }
  }

  /** In plain words, for a run that starts before the first write: a token key that is there stays, and
      after the first change it is there and this resource owns the Secret no more. */
  lemma TokenSecretStays(op: Operator, cr: Resource, s: Stepped, moves: seq<Move>)
    requires ValidOperator(op) && Coherent(op, cr, s) && LegalRun(op, cr, s, moves) && s.view.log == []
    requires cr.tokenRef.Some? && cr.tokenRef.value.0 == (if cr.targetName != "" then cr.targetName else cr.name)
    ensures var first, now, key := s.view.target, Run(op, cr, s, moves).view.target, cr.tokenRef.value.1;
            && (first.Some? && key in first.value.data ==> now.Some? && key in now.value.data)
            && (now != first ==>
                  && now.Some? && key in now.value.data
                  && forall ref | ref in now.value.owners :: ref.uid != cr.uid)
  {
    hide PassCoherent, StaysRecorded, LegalRun, WithoutOwner;
    ConnectionTokenIsPreserved(op, cr, s.view.target, s, moves);
    NoWriteNoChange(op, cr, s, moves);
  }
}
