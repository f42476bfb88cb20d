/** The status conditions of a request and how one pass computes them. */
module Conditions {
  import opened Wrappers
  import opened Cluster

  /** meta.SetStatusCondition: the transition time moves only when the status does. */
  function SetCondition(c: Option<Condition>, isTrue: bool, reason: Reason, now: int): Option<Condition> {
    Some(Condition(isTrue, reason, if c.Some? && c.value.isTrue == isTrue then c.value.since else now))
  }

  /** The transition time of a condition is kept if its status is, and is the present otherwise. */
  lemma TransitionTimes(c: Option<Condition>, isTrue: bool, reason: Reason, now: int)
    ensures var r := SetCondition(c, isTrue, reason, now);
            && r.Some? && r.value.isTrue == isTrue && r.value.reason == reason
            && (c.Some? && c.value.isTrue == isTrue ==> r.value.since == c.value.since)
            && (c.None? || c.value.isTrue != isTrue ==> r.value.since == now)
  {
  }

  function SetReady(w: Status, isTrue: bool, reason: Reason, now: int): Status {
    w.(ready := SetCondition(w.ready, isTrue, reason, now))
  }

  function SetProgressing(w: Status, isTrue: bool, reason: Reason, now: int): Status {
    w.(progressing := SetCondition(w.progressing, isTrue, reason, now))
  }

  predicate IsReady(w: Status) { w.ready.Some? && w.ready.value.isTrue }

  predicate ShouldReconcile(w: Status) { w.progressing.None? || w.progressing.value.isTrue }

  /** The deferred setStatusConditions. */
  function Settle(w: Status, failed: bool, now: int): Status {
    if failed then
      var w1 := SetReady(w, false, Failed, now);
      if w1.progressing.None? then SetProgressing(w1, true, Reconciling, now) else w1
    else
      var w1 := if w.ready.None? then SetReady(w, false, Reconciling, now) else w;
      if w1.progressing.Some? then w1
      else if IsReady(w1) then SetProgressing(w1, false, Reconciled, now)
      else SetProgressing(w1, true, Reconciling, now)
  }

  /** A permanent failure: Progressing goes to False, and with it the request becomes terminal. */
  function GiveUp(w: Status, now: int): Status { SetProgressing(w, false, Failed, now) }

  function RejectSpec(w: Status, now: int): Status {
    SetProgressing(SetReady(w, false, InvalidConfiguration, now), false, InvalidConfiguration, now)
  }

  predicate SnapshotProgressing(s: Snapshot) {
    if s.status.None? || s.status.value.progressing.None? then true
    else s.status.value.progressing.value || (s.status.value.phaseInProgress && !s.status.value.errorReason)
  }

  predicate SnapshotReady(s: Snapshot) { s.status.Some? && s.status.value.ready == Some(true) }

  function SyncSnapshot(w: Status, s: Snapshot, now: int): Status {
    var failed := s.status.Some? && s.status.value.failure == Some(true);
    if !failed && SnapshotProgressing(s) then SetReady(w, false, Waiting, now)
    else GiveUp(SetReady(w, false, Failed, now), now)
  }

  function SyncVolume(w: Status, dv: Volume, now: int): Status {
    var present := dv.running.Some?;
    var progressing := present && (dv.running.value || !dv.phaseFailed);
    if progressing || !present then SetProgressing(SetReady(w, false, Waiting, now), true, Waiting, now)
    else GiveUp(SetReady(w, false, Failed, now), now)
  }

  function SyncTemplate(w: Status, t: Template, now: int): Status {
    if t.ready == Some(true) then SetReady(w, true, Reconciled, now) else SetReady(w, false, Waiting, now)
  }

  /** What the availability poll writes while required CRDs are missing. */
  function Poll(w: Status, now: int): Status {
    SetProgressing(SetReady(w, false, Waiting, now), true, Waiting, now)
  }

  datatype ContentState = MissingName | NotReadyYet | Usable

  function StateOf(c: Content): ContentState {
    if c.readyToUse != Some(true) then NotReadyYet
    else if exists v :: v in c.volumes && (v.snapshotName.None? || v.snapshotName.value == "") then MissingName
    else Usable
  }

  // ---------------------------------------------------------------- time to live

  const SECOND := 1_000_000_000

  datatype TtlDecision = Keep | RequeueAfter(remaining: int) | Delete

  /** handleTTL, for a request that is no longer progressing. */
  function Ttl(ttl: Option<nat>, w: Status, now: int): TtlDecision {
    if ttl.None? || !IsReady(w) then Keep
    else
      var remaining := w.ready.value.since + ttl.value * SECOND - now;
      if remaining > 0 then RequeueAfter(remaining) else Delete
  }

  /** An int32 number of seconds is an int64 number of nanoseconds. */
  lemma TtlFits(seconds: int)
    requires -0x8000_0000 <= seconds < 0x8000_0000
    ensures -0x8000_0000_0000_0000 <= seconds * SECOND < 0x8000_0000_0000_0000
  {
  }

  /** An early check asks to be woken exactly when the TTL runs out: any sooner it would wait again, then it deletes. */
  lemma RequeueIsExact(ttl: Option<nat>, w: Status, now: int, later: int)
    requires Ttl(ttl, w, now).RequeueAfter? && now <= later
    ensures Ttl(ttl, w, later).Delete? <==> later >= now + Ttl(ttl, w, now).remaining
    ensures !Ttl(ttl, w, later).Keep?
  {
  }

  // ---------------------------------------------------------------- the invariant of the conditions

  /** Ready is True exactly when Progressing is False because of success; any other stop means Ready is False. */
  predicate Consistent(w: Status) {
    && (IsReady(w) <==> w.progressing.Some? && !w.progressing.value.isTrue && w.progressing.value.reason == Reconciled)
    && (w.progressing.Some? && !w.progressing.value.isTrue && w.progressing.value.reason != Reconciled ==>
        w.ready.Some? && !w.ready.value.isTrue)
  }

  /** The working copy of a pass: Progressing is reset and Ready cannot be True yet. */
  predicate Working(w: Status) { !IsReady(w) && w.progressing.None? }

  function Restart(w: Status): Status { w.(progressing := None) }

  lemma RestartIsWorking(w: Status)
    requires Consistent(w) && ShouldReconcile(w)
    ensures Working(Restart(w))
  {
  }

  /** Every way a pass can end writes consistent conditions, and Ready only ever together with success. */
  lemma EveryEndingIsConsistent(w: Status, s: Snapshot, dv: Volume, t: Template, now: int)
    requires Working(w)
    ensures Consistent(Settle(w, true, now)) && Consistent(Settle(w, false, now))
            && Consistent(Settle(GiveUp(w, now), true, now))
    ensures Consistent(Settle(RejectSpec(w, now), false, now))
            && Consistent(Settle(GiveUp(SetReady(w, false, Failed, now), now), true, now))
    ensures Consistent(Settle(SetProgressing(SetReady(w, false, Waiting, now), true, Waiting, now), false, now))
    ensures Consistent(Settle(SyncSnapshot(w, s, now), false, now))
            && Consistent(Settle(SyncVolume(w, dv, now), false, now))
    ensures Consistent(Settle(SyncTemplate(w, t, now), false, now))
    ensures IsReady(Settle(SyncTemplate(w, t, now), false, now)) <==> t.ready == Some(true)
    ensures !IsReady(Settle(w, true, now)) && !IsReady(Settle(w, false, now))
    ensures !IsReady(Settle(SyncSnapshot(w, s, now), false, now))
            && !IsReady(Settle(SyncVolume(w, dv, now), false, now))
  {
  }
}
