/** When a request becomes terminal: only for a cause that no retry would mend, or because it is Ready. */
module Causes {
  import opened Wrappers
  import opened Cluster
  import opened Conditions
  import opened Reconciler
  import opened Safety
  import opened History

  // ---------------------------------------------------------------- the causes

  /** A snapshot that failed, or stopped making progress without getting ready. */
  predicate SnapshotFailed(s: Snapshot) {
    && s.status.Some? && s.status.value.ready != Some(true)
    && (s.status.value.failure == Some(true)
        || (s.status.value.progressing == Some(false)
            && (!s.status.value.phaseInProgress || s.status.value.errorReason)))
  }

  predicate LacksContentName(s: Snapshot) {
    && s.status.Some? && s.status.value.ready == Some(true)
    && (s.status.value.contentName.None? || s.status.value.contentName.value == "")
  }

  /** A volume that is neither ready nor running and whose phase says that it failed. */
  predicate VolumeFailed(dv: Volume) { dv.ready != Some(true) && dv.running == Some(false) && dv.phaseFailed }

  /** A pass of a pending request is about to look at an invalid spec. */
  predicate RejectsSpec(cfg: Config, store: Store) {
    && store.req.Some? && !store.req.value.deleting && ShouldReconcile(store.req.value.status)
    && (cfg.vmNamespace == "" || cfg.vmName == "")
  }

  /** The cause for which the next call, if it succeeds, ends the request's passes for good. */
  predicate Cause(cfg: Config, s: State) {
    var store := s.store;
    match s.pc
    case Idle => RejectsSpec(cfg, store) && store.req.value.finalizer
    case AddFinalizer => RejectsSpec(cfg, store)
    case GetTemplate(_) => store.tpl.Some? && store.tpl.value.uid != cfg.uid
    case GetSnapshot(_) =>
      store.snap.Some? && (store.snap.value.uid != cfg.uid || SnapshotFailed(store.snap.value)
          || LacksContentName(store.snap.value))
    case GetContent(_, name) => name in store.contents && ContentFails(store.contents[name])
    case GetVolume(_, c, i) =>
      i < |Clonable(c)| && var n := cfg.cloneName(Clonable(c)[i].name); n in store.dvs && store.dvs[n].uid != cfg.uid
    case CheckVolume(_, c, i) => i < |Clonable(c)| && CheckFails(cfg, store, c, i)
    case ExpandSpec(_, c) => !c.hasTemplateSpec
    case CreateTemplate(_, _) => store.tpl.Some?
    case DeleteSnapshot(_, t) => t.ready == Some(true)
    case _ => false
  }

  /** A content that lacks the name of a volume's snapshot, or one without volumes that lacks its VM. */
  predicate ContentFails(c: Content) {
    && c.readyToUse == Some(true)
    && ((exists v :: v in c.volumes && (v.snapshotName.None? || v.snapshotName.value == ""))
        || (Clonable(c) == [] && !c.hasVm))
  }

  predicate CheckFails(cfg: Config, store: Store, c: Content, i: nat)
    requires i < |Clonable(c)|
  {
    var n := cfg.cloneName(Clonable(c)[i].name);
    n in store.dvs && (VolumeFailed(store.dvs[n])
        || (store.dvs[n].ready == Some(true) && i + 1 == |Clonable(c)| && !c.hasVm))
  }

  // ---------------------------------------------------------------- one step

  /** The pass is about to write a status that ends it all. */
  predicate EndsForGood(pc: Pc) { pc.PatchStatus? && !ShouldReconcile(pc.w) }

  predicate Looks(pc: Pc) { pc.GetTemplate? || pc.GetSnapshot? || pc.CreateSnapshot? || pc.GetContent? }

  predicate Clones(pc: Pc) { pc.GetVolume? || pc.CreateVolume? || pc.CheckVolume? }

  lemma LooksEndIff(cfg: Config, s: State, pick: string)
    requires Inv(cfg, s) && Looks(s.pc)
    ensures EndsForGood(Succeed(cfg, s, pick).pc) <==> Cause(cfg, s)
  {
    hide StoreInv, Clonable, ClonesExist, ClonesReady, AllByTemplate;
  }

  lemma ClonesEndIff(cfg: Config, s: State, pick: string)
    requires Inv(cfg, s) && Clones(s.pc)
    ensures EndsForGood(Succeed(cfg, s, pick).pc) <==> Cause(cfg, s)
  {
    if s.pc.CreateVolume? {
      UsableIsNamed(s.pc.c, s.pc.i);
    }
    hide StoreInv, Clonable, StateOf, ClonesExist, ClonesReady, AllByTemplate;
  }

  lemma OthersEndIff(cfg: Config, s: State, pick: string)
    requires Inv(cfg, s) && !Looks(s.pc) && !Clones(s.pc) && !s.pc.PatchStatus?
    ensures EndsForGood(Succeed(cfg, s, pick).pc) <==> Cause(cfg, s)
  {
    hide Clonable, StateOf, HandedOver, IsControlledBy, ClonesExist, ClonesReady, AllByTemplate, Ttl;
  }

  /** Exactly when a pass decides to end it all: its next call succeeds and finds a cause. */
  lemma EndsForGoodIff(cfg: Config, s: State, pick: string)
    requires Inv(cfg, s) && !s.pc.PatchStatus?
    ensures EndsForGood(Succeed(cfg, s, pick).pc) <==> Cause(cfg, s)
  {
    hide *;
    if Looks(s.pc) {
      LooksEndIff(cfg, s, pick);
    } else if Clones(s.pc) {
      ClonesEndIff(cfg, s, pick);
    } else {
      OthersEndIff(cfg, s, pick);
    }
  }

  /** The conditions of a status: Ready and Progressing with their reasons. */
  predicate Reports(w: Status, ready: bool, readyReason: Reason, progressing: bool, progressingReason: Reason) {
    && w.ready.Some? && w.ready.value.isTrue == ready && w.ready.value.reason == readyReason
    && w.progressing.Some? && w.progressing.value.isTrue == progressing
        && w.progressing.value.reason == progressingReason
  }

  /** What a request is told when its passes end for good. */
  lemma CausesAreReported(cfg: Config, s: State, pick: string)
    requires Inv(cfg, s) && Cause(cfg, s)
    ensures var pc := Succeed(cfg, s, pick).pc;
            && pc.PatchStatus?
            && if s.pc.DeleteSnapshot? then Reports(pc.w, true, Reconciled, false, Reconciled)
               else if s.pc.Idle? || s.pc.AddFinalizer? then
                 Reports(pc.w, false, InvalidConfiguration, false, InvalidConfiguration)
               else Reports(pc.w, false, Failed, false, Failed)
  {
    hide Clonable, HandedOver, IsControlledBy, ClonesExist, ClonesReady, AllByTemplate, Ttl;
  }

  /** What a request is told while its pass waits: for the snapshot, its content, a volume or the template. */
  lemma WaitingIsReported(cfg: Config, s: State, pick: string)
    requires Inv(cfg, s) && !Cause(cfg, s) && Succeed(cfg, s, pick).pc.PatchStatus?
    ensures var pc := Succeed(cfg, s, pick).pc;
            && (s.pc.GetSnapshot? || s.pc.DeleteSnapshot? ==> Reports(pc.w, false, Waiting, true, Reconciling))
            && (s.pc.CreateSnapshot? && s.store.snap.None? ==> Reports(pc.w, false, Waiting, true, Reconciling))
            && (s.pc.GetContent? && s.pc.name in s.store.contents ==> Reports(pc.w, false, Waiting, true, Waiting))
            && (s.pc.CheckVolume? && cfg.cloneName(Clonable(s.pc.c)[s.pc.i].name) in s.store.dvs ==>
                  Reports(pc.w, false, Waiting, true, Waiting))
            && pc.w.ready.Some? && !pc.w.ready.value.isTrue && pc.w.progressing.Some? && pc.w.progressing.value.isTrue
  {
    hide HandedOver, IsControlledBy, ClonesExist, ClonesReady, AllByTemplate, Ttl, StoreInv, Clonable;
  }

  /** What a request is told when somebody was faster, or something is gone: an object to be created is there, the
      content or a listed volume is not, or a volume cannot be handed over. A missing clone is not an error and changes
      nothing. */
  lemma ConflictsAreReported(cfg: Config, s: State, pick: string)
    requires Inv(cfg, s) && !Cause(cfg, s) && Succeed(cfg, s, pick).pc.PatchStatus?
    ensures var pc := Succeed(cfg, s, pick).pc;
            && (s.pc.CreateSnapshot? && s.store.snap.Some? ==> Reports(pc.w, false, Failed, true, Reconciling))
            && (s.pc.GetContent? && s.pc.name !in s.store.contents ==> Reports(pc.w, false, Failed, true, Reconciling))
            && (s.pc.CreateVolume? || s.pc.PatchVolumes? ==> Reports(pc.w, false, Failed, true, Reconciling))
            && (s.pc.CheckVolume? && cfg.cloneName(Clonable(s.pc.c)[s.pc.i].name) !in s.store.dvs ==>
                  && pc.w.progressing == Some(Condition(true, Reconciling, s.store.now))
                  && pc.w.ready == if s.pc.w.ready.Some? then s.pc.w.ready
                                   else Some(Condition(false, Reconciling, s.store.now)))
  {
    hide HandedOver, IsControlledBy, ClonesExist, ClonesReady, AllByTemplate, Ttl, StoreInv, Clonable;
  }

  /** An object that turns up where one is to be created ends the pass with an error, and is not touched. */
  lemma ConflictsEndThePass(cfg: Config, s: State, pick: string)
    requires Inv(cfg, s)
    requires (s.pc.CreateSnapshot? && s.store.snap.Some?)
             || (s.pc.CreateVolume? && cfg.cloneName(Clonable(s.pc.c)[s.pc.i].name) in s.store.dvs)
    ensures Succeed(cfg, s, pick).pc.PatchStatus? && Succeed(cfg, s, pick).store == s.store
  {
    if s.pc.CreateVolume? {
      UsableIsNamed(s.pc.c, s.pc.i);
    }
    hide ClonesExist, ClonesReady, AllByTemplate, StoreInv, Clonable, Settle;
  }

  /** A failed call, a crash and the poll never do: whatever fails is tried again. */
  lemma FailureIsRetried(cfg: Config, s: State)
    requires Inv(cfg, s) && !s.pc.PatchStatus?
    ensures !EndsForGood(Fail(s).pc) && (Proper(s.pc) ==> Fail(s).pc.PatchStatus? && ShouldReconcile(Fail(s).pc.w))
    ensures Proper(s.pc) ==> Reports(Fail(s).pc.w, false, Failed, true, Reconciling)
    ensures StartPoll(s).pc.PollStatus? && !s.pc.PollStatus? ==> ShouldReconcile(StartPoll(s).pc.w)
  {
    hide StoreInv, Clonable, StateOf, ClonesExist, ClonesReady, AllByTemplate;
  }

  /** The poll writes to a request if and only if it is there, not being deleted and not terminal. */
  lemma PollWritesIff(s: State)
    requires s.pc.Idle?
    ensures StartPoll(s).pc.PollStatus? <==>
            s.store.req.Some? && !s.store.req.value.deleting && ShouldReconcile(s.store.req.value.status)
    ensures StartPoll(s).pc.PollStatus? ==> Reports(StartPoll(s).pc.w, false, Waiting, true, Waiting)
    ensures StartPoll(s).store == s.store
  {
  }

  // ---------------------------------------------------------------- whole runs

  /** At an earlier instant a call succeeded and found a cause. */
  ghost predicate Caused(cfg: Config, run: seq<State>, k: nat) {
    exists j :: 0 <= j < k && j + 1 < |run| && CausedAt(cfg, run, j)
  }

  ghost predicate CausedAt(cfg: Config, run: seq<State>, j: nat)
    requires j + 1 < |run|
  {
    Cause(cfg, run[j]) && exists pick :: run[j + 1] == Succeed(cfg, run[j], pick)
  }

  predicate Stopped(s: State) { s.store.req.Some? && !ShouldReconcile(s.store.req.value.status) }

  lemma StoppedStep(cfg: Config, s: State, s': State)
    requires Inv(cfg, s) && Next(cfg, s, s') && Stopped(s')
    ensures Stopped(s) || EndsForGood(s.pc)
  {
    StatusStep(cfg, s, s');
    hide StoreInv, Next, ClonesExist, ClonesReady, AllByTemplate, Consistent;
  }

  /** Only the two patches write a status. */
  lemma StatusStep(cfg: Config, s: State, s': State)
    requires Next(cfg, s, s') && s'.store.req.Some?
    ensures s.store.req.Some?
    ensures var w := s'.store.req.value.status;
            s.store.req.value.status == w || s.pc == PatchStatus(w) || s.pc == PollStatus(w)
  {
    hide Clonable, Settle, StateOf, HandedOver, IsControlledBy, Examine, UseContent, CloneFrom, CheckFrom, Begin,
         AfterFinalizer;
  }

  lemma EndStep(cfg: Config, s: State, s': State)
    requires Inv(cfg, s) && Next(cfg, s, s') && EndsForGood(s'.pc)
    ensures s'.pc == s.pc || (Cause(cfg, s) && exists pick :: s' == Succeed(cfg, s, pick))
  {
    if s'.pc != s.pc {
      if pick :| s' == Succeed(cfg, s, pick) {
        WritingEnds(cfg, s, pick);
        hide Cause, Succeed, Inv;
        EndsForGoodIff(cfg, s, pick);
      } else {
        hide Succeed, Cause, PcInv, StoreInv;
        WritingFails(cfg, s);
        FailureIsRetried(cfg, s);
      }
    }
  }

  lemma WritingEnds(cfg: Config, s: State, pick: string)
    ensures s.pc.PatchStatus? ==> Succeed(cfg, s, pick).pc.Idle?
  {
  }

  lemma WritingFails(cfg: Config, s: State)
    ensures s.pc.PatchStatus? ==> Fail(s).pc.Idle?
    ensures s.pc.Idle? ==> !StartPoll(s).pc.PatchStatus?
  {
  }

  /** Over whole runs: a request is terminal only if, at some earlier instant, a call succeeded and found a cause. */
  lemma {:induction false} TerminalHasCause(cfg: Config, run: seq<State>, k: nat)
    requires IsRun(cfg, run) && k < |run| && (Stopped(run[k]) || EndsForGood(run[k].pc))
    ensures Caused(cfg, run, k)
  {
    StartGoesOn(cfg, run);
    hide *;
    if k > 0 {
      var s, s' := run[k - 1], run[k];
      RunStep(cfg, run, k - 1);
      RunHolds(cfg, run, k - 1);
      if Stopped(s') {
        StoppedStep(cfg, s, s');
      }
      if EndsForGood(s'.pc) {
        EndStep(cfg, s, s');
      }
      if Stopped(s) || EndsForGood(s.pc) {
        TerminalHasCause(cfg, run, k - 1);
        CausedLater(cfg, run, k - 1);
      } else {
        CausedNow(cfg, run, k - 1);
      }
    }
  }

  lemma StartGoesOn(cfg: Config, run: seq<State>)
    requires IsRun(cfg, run)
    ensures !Stopped(run[0]) && !EndsForGood(run[0].pc)
  {
  }

  lemma CausedLater(cfg: Config, run: seq<State>, k: nat)
    requires Caused(cfg, run, k)
    ensures Caused(cfg, run, k + 1)
  {
    hide CausedAt;
  }

  lemma CausedNow(cfg: Config, run: seq<State>, k: nat)
    requires k + 1 < |run| && Cause(cfg, run[k]) && exists pick :: run[k + 1] == Succeed(cfg, run[k], pick)
    ensures Caused(cfg, run, k + 1)
  {
    hide Cause, Succeed;
    assert CausedAt(cfg, run, k);
  }
}
