/** What every step of the controller keeps, whatever fails and whenever the user deletes the request. */
module Safety {
  import opened Wrappers
  import opened Cluster
  import SpecRewrite
  import opened Conditions
  import opened Reconciler

  predicate OwnSnapshot(cfg: Config, store: Store) { store.snap.Some? && store.snap.value.uid == cfg.uid }

  predicate OwnTemplate(cfg: Config, store: Store) { store.tpl.Some? && store.tpl.value.uid == cfg.uid }

  predicate ByRequest(dv: Volume) { dv.owners == [Owner(TheRequest, true)] }

  predicate ByTemplate(dv: Volume) { dv.owners == [Owner(TheTemplate, true)] }

  predicate AllByTemplate(cfg: Config, store: Store) {
    forall n :: n in store.dvs && store.dvs[n].uid == cfg.uid ==> ByTemplate(store.dvs[n])
  }

  /** The request exists and carries the cleanup finalizer. */
  predicate Held(store: Store) { store.req.Some? && store.req.value.finalizer }

  /** Everything a request promises by Ready=True. */
  predicate Delivered(cfg: Config, store: Store, w: Status) {
    OwnTemplate(cfg, store) && AllByTemplate(cfg, store) && !OwnSnapshot(cfg, store)
        && w.templateRef == Some(cfg.templateName)
  }

  /** What can be told from the store before a pass: the request cleans up, or it has its template and is not done. */
  predicate WillDeleteByName(cfg: Config, store: Store) {
    && store.req.Some? && cfg.IsValid()
    && if store.req.value.deleting then store.req.value.finalizer
       else ShouldReconcile(store.req.value.status) && OwnTemplate(cfg, store)
  }

  // ---------------------------------------------------------------- the invariant

  ghost predicate StoreInv(cfg: Config, store: Store) {
    && (OwnSnapshot(cfg, store) ==> Held(store) && cfg.IsValid())
    && (store.req.Some? ==> Consistent(store.req.value.status))
    && (forall n :: n in store.dvs && store.dvs[n].uid == cfg.uid ==>
          ByRequest(store.dvs[n]) || (ByTemplate(store.dvs[n]) && OwnTemplate(cfg, store)))
    && (store.req.Some? && IsReady(store.req.value.status) ==> Delivered(cfg, store, store.req.value.status))
  }

  predicate CloneExists(cfg: Config, store: Store, v: VolumeBackup) {
    cfg.cloneName(v.name) in store.dvs && store.dvs[cfg.cloneName(v.name)].uid == cfg.uid
  }

  predicate CloneReady(cfg: Config, store: Store, v: VolumeBackup) {
    CloneExists(cfg, store, v) && store.dvs[cfg.cloneName(v.name)].ready == Some(true)
  }

  predicate ClonesExist(cfg: Config, store: Store, c: Content, i: nat)
    requires i <= |Clonable(c)|
  {
    forall k :: 0 <= k < i ==> CloneExists(cfg, store, Clonable(c)[k])
  }

  predicate ClonesReady(cfg: Config, store: Store, c: Content, i: nat)
    requires i <= |Clonable(c)|
  {
    forall k :: 0 <= k < i ==> CloneReady(cfg, store, Clonable(c)[k])
  }

  /** The pass proper: the request is held, its spec valid, its status not terminal, the working copy fresh. */
  predicate InPass(cfg: Config, store: Store, w: Status) {
    Held(store) && cfg.IsValid() && ShouldReconcile(store.req.value.status) && Working(w)
  }

  /** The template is known, and named by the working copy. */
  predicate WithTemplate(cfg: Config, store: Store, w: Status) {
    InPass(cfg, store, w) && OwnTemplate(cfg, store) && w.templateRef == Some(cfg.templateName)
  }

  ghost predicate PcInv(cfg: Config, store: Store, pc: Pc) {
    match pc
    case Idle => true
    case AddFinalizer => true
    case DeleteRequest =>
      && Held(store) && !ShouldReconcile(store.req.value.status) && IsReady(store.req.value.status)
      && Ttl(cfg.ttl, store.req.value.status, store.now).Delete?
    case CleanSnapshot => Held(store) && store.req.value.deleting && cfg.IsValid()
    case RemoveFinalizer => Held(store) && store.req.value.deleting && !OwnSnapshot(cfg, store)
    case GetTemplate(w) => InPass(cfg, store, w)
    case GetSnapshot(w) => InPass(cfg, store, w)
    case CreateSnapshot(w) => InPass(cfg, store, w)
    case GetContent(w, _) => InPass(cfg, store, w)
    case GetVolume(w, c, i) => InPass(cfg, store, w) && StateOf(c).Usable? && i < |Clonable(c)|
         && ClonesExist(cfg, store, c, i)
    case CreateVolume(w, c, i) => InPass(cfg, store, w) && StateOf(c).Usable? && i < |Clonable(c)|
         && ClonesExist(cfg, store, c, i)
    case CheckVolume(w, c, i) =>
      InPass(cfg, store, w) && i < |Clonable(c)| && ClonesExist(cfg, store, c, |Clonable(c)|)
          && ClonesReady(cfg, store, c, i)
    case ExpandSpec(w, c) => InPass(cfg, store, w) && c.hasVm && ClonesReady(cfg, store, c, |Clonable(c)|)
    case CreateTemplate(w, c) => InPass(cfg, store, w) && c.hasVm && c.hasTemplateSpec
         && ClonesReady(cfg, store, c, |Clonable(c)|)
    case ListVolumes(w, t) => WithTemplate(cfg, store, w)
    case PatchVolumes(w, t, todo) =>
      && WithTemplate(cfg, store, w)
      && (forall n :: n in store.dvs && store.dvs[n].uid == cfg.uid && n !in todo ==> ByTemplate(store.dvs[n]))
    case DeleteSnapshot(w, t) => WithTemplate(cfg, store, w) && AllByTemplate(cfg, store)
    case PatchStatus(w) =>
      Held(store) && ShouldReconcile(store.req.value.status) && Consistent(w)
          && (IsReady(w) ==> Delivered(cfg, store, w))
    case PollStatus(w) =>
      (store.req.Some? ==> ShouldReconcile(store.req.value.status)) && Consistent(w) && !IsReady(w)
          && ShouldReconcile(w)
    case Panicked => false
  }

  ghost predicate Inv(cfg: Config, s: State) { StoreInv(cfg, s.store) && PcInv(cfg, s.store, s.pc) }

  // ---------------------------------------------------------------- it holds from the start and is kept

  lemma InitHolds(cfg: Config, s: State)
    requires Init(cfg, s)
    ensures Inv(cfg, s)
  {
  }

  /** Failing, giving up and waiting all end a pass properly. */
  lemma EndingsHold(cfg: Config, store: Store, w: Status)
    requires InPass(cfg, store, w)
    ensures PcInv(cfg, store, Finish(store, w, true)) && PcInv(cfg, store, Finish(store, w, false))
    ensures PcInv(cfg, store, Finish(store, GiveUp(w, store.now), true))
    ensures PcInv(cfg, store, Finish(store, GiveUp(SetReady(w, false, Failed, store.now), store.now), true))
    ensures PcInv(cfg, store,
                  Finish(store, SetProgressing(SetReady(w, false, Waiting, store.now), true, Waiting, store.now),
                         false))
  {
  }

  /** The calls of the pass proper, whose failure is recorded in the status. */
  predicate Proper(pc: Pc) {
    !pc.Idle? && !pc.AddFinalizer? && !pc.DeleteRequest? && !pc.CleanSnapshot? && !pc.RemoveFinalizer?
        && !pc.PatchStatus? && !pc.PollStatus?
    && !pc.Panicked?
  }

  lemma EveryCallMayEndThePass(cfg: Config, s: State)
    requires Inv(cfg, s) && Proper(s.pc)
    ensures var store, w := s.store, s.pc.w;
            && PcInv(cfg, store, Finish(store, w, true)) && PcInv(cfg, store, Finish(store, w, false))
            && PcInv(cfg, store, Finish(store, GiveUp(w, store.now), true))
            && PcInv(cfg, store, Finish(store, GiveUp(SetReady(w, false, Failed, store.now), store.now), true))
  {
    hide StoreInv;
    EndingsHold(cfg, s.store, s.pc.w);
    hide PcInv;
  }

  lemma AfterFinalizerHolds(cfg: Config, store: Store)
    requires StoreInv(cfg, store) && Held(store)
    ensures PcInv(cfg, store, AfterFinalizer(cfg, store, store.req.value.status))
  {
  }

  lemma ExamineHolds(cfg: Config, store: Store, w: Status, s: Snapshot)
    requires InPass(cfg, store, w)
    ensures PcInv(cfg, store, Examine(cfg, store, w, s))
  {
    EndingsHold(cfg, store, w);
  }

  lemma CheckFromHolds(cfg: Config, store: Store, w: Status, c: Content, i: nat)
    requires InPass(cfg, store, w) && i <= |Clonable(c)|
    requires ClonesExist(cfg, store, c, |Clonable(c)|) && ClonesReady(cfg, store, c, i)
    ensures PcInv(cfg, store, CheckFrom(store, w, c, i))
  {
    hide Clonable, CloneExists, CloneReady;
    EndingsHold(cfg, store, w);
  }

  lemma CloneFromHolds(cfg: Config, store: Store, w: Status, c: Content, i: nat)
    requires InPass(cfg, store, w) && StateOf(c).Usable? && i <= |Clonable(c)| && ClonesExist(cfg, store, c, i)
    ensures PcInv(cfg, store, CloneFrom(store, w, c, i))
  {
    if i == |Clonable(c)| {
      CheckFromHolds(cfg, store, w, c, 0);
    }
  }

  lemma UseContentHolds(cfg: Config, store: Store, w: Status, c: Content)
    requires InPass(cfg, store, w)
    ensures PcInv(cfg, store, UseContent(cfg, store, w, c))
  {
    EndingsHold(cfg, store, w);
    if StateOf(c).Usable? {
      CloneFromHolds(cfg, store, w, c, 0);
    }
  }

  lemma NotReadyInPass(cfg: Config, store: Store)
    requires StoreInv(cfg, store) && store.req.Some? && ShouldReconcile(store.req.value.status)
    ensures !IsReady(store.req.value.status)
  {
  }

  /** Whatever is cloned from a usable content has a snapshot to be cloned from. */
  lemma UsableIsNamed(c: Content, i: nat)
    requires StateOf(c).Usable? && i < |Clonable(c)|
    ensures Clonable(c)[i] in c.volumes && Clonable(c)[i].snapshotName.Some? && Clonable(c)[i].snapshotName.value != ""
  {
    BackupsButAreBackups(c.volumes, SpecRewrite.Backend(VolumeNames(c.volumes)));
  }

  lemma CreateVolumeHolds(cfg: Config, s: State)
    requires Inv(cfg, s) && s.pc.CreateVolume?
    ensures Inv(cfg, Succeed(cfg, s, ""))
  {
    var store, w, c, i := s.store, s.pc.w, s.pc.c, s.pc.i;
    EveryCallMayEndThePass(cfg, s);
    UsableIsNamed(c, i);
    var n := cfg.cloneName(Clonable(c)[i].name);
    hide Settle, Consistent, SetReady, GiveUp;
    if n !in store.dvs {
      var store' := store.(dvs := store.dvs[n := NewVolume(cfg, Clonable(c)[i])]);
      hide Clonable, StateOf;
      assert ClonesExist(cfg, store', c, i + 1);
      CloneFromHolds(cfg, store', w, c, i + 1);
      assert CloneFrom(store, w, c, i + 1) == CloneFrom(store', w, c, i + 1);
      NotReadyInPass(cfg, store);
    }
  }

  /** A patch step of the ownership handover, for a volume that the request or its template controls. */
  lemma PatchStep(cfg: Config, s: State, pick: string)
    requires s.pc.PatchVolumes? && pick in s.pc.todo && pick in s.store.dvs
    requires ByRequest(s.store.dvs[pick]) || ByTemplate(s.store.dvs[pick])
    ensures var dv := s.store.dvs[pick].(owners := [Owner(TheTemplate, true)]);
            Succeed(cfg, s, pick) == State(s.store.(dvs := s.store.dvs[pick := dv]), s.pc.(todo := s.pc.todo - {pick}))
  {
    var dv := s.store.dvs[pick];
    HandOver(dv);
    if ByTemplate(dv) {
      assert s.store.dvs == s.store.dvs[pick := dv];
    }
    hide IsControlledBy, HandedOver;
  }

  /** Nothing to patch, nothing to find, or a volume of somebody else. */
  lemma PatchElsewhereHolds(cfg: Config, s: State, pick: string)
    requires Inv(cfg, s) && s.pc.PatchVolumes?
    requires !(pick in s.pc.todo && pick in s.store.dvs && s.store.dvs[pick].uid == cfg.uid)
    ensures Inv(cfg, Succeed(cfg, s, pick))
  {
    EveryCallMayEndThePass(cfg, s);
    hide IsControlledBy, HandedOver, Consistent, Working, Settle, ClonesExist, ClonesReady;
  }

  lemma PatchVolumesHolds(cfg: Config, s: State, pick: string)
    requires Inv(cfg, s) && s.pc.PatchVolumes?
    ensures Inv(cfg, Succeed(cfg, s, pick))
  {
    hide IsControlledBy, HandedOver, Consistent, Working, Settle;
    var store := s.store;
    if pick in s.pc.todo && pick in store.dvs && store.dvs[pick].uid == cfg.uid {
      PatchStep(cfg, s, pick);
      hide Succeed;
    } else {
      PatchElsewhereHolds(cfg, s, pick);
    }
  }

  /** Handing a volume over makes the template its only controller; there is nothing to do twice. */
  lemma HandOver(dv: Volume)
    ensures ByRequest(dv) ==>
            !IsControlledBy(dv.owners, TheTemplate) && HandedOver(dv.owners) == Some([Owner(TheTemplate, true)])
    ensures ByTemplate(dv) ==> IsControlledBy(dv.owners, TheTemplate)
  {
    if ByRequest(dv) {
      assert IndexOf(dv.owners, TheRequest) == 0;
      assert dv.owners[..0] + dv.owners[1..] == [];
      assert RemoveController(dv.owners, TheRequest) == Some([]);
      assert SetController([], TheTemplate) == Some([] + [Owner(TheTemplate, true)]);
      assert [] + [Owner(TheTemplate, true)] == [Owner(TheTemplate, true)];
    }
  }

  lemma DeleteSnapshotHolds(cfg: Config, s: State)
    requires Inv(cfg, s) && s.pc.DeleteSnapshot?
    ensures Inv(cfg, Succeed(cfg, s, ""))
  {
  }

  lemma GetTemplateHolds(cfg: Config, s: State, pick: string)
    requires Inv(cfg, s) && s.pc.GetTemplate?
    ensures Inv(cfg, Succeed(cfg, s, pick))
  {
    EveryCallMayEndThePass(cfg, s);
    hide StoreInv, Settle, Consistent, SetReady, GiveUp, ClonesExist, ClonesReady, AllByTemplate;
  }

  lemma ListVolumesHolds(cfg: Config, s: State, pick: string)
    requires Inv(cfg, s) && s.pc.ListVolumes?
    ensures Inv(cfg, Succeed(cfg, s, pick))
  {
    hide StoreInv, Settle, Consistent, SetReady, GiveUp, ClonesExist, ClonesReady, AllByTemplate;
  }

  lemma GetSnapshotHolds(cfg: Config, s: State, pick: string)
    requires Inv(cfg, s) && s.pc.GetSnapshot?
    ensures Inv(cfg, Succeed(cfg, s, pick))
  {
    hide Examine, Settle;
    if s.store.snap.Some? {
      ExamineHolds(cfg, s.store, s.pc.w, s.store.snap.value);
    }
  }

  lemma CreateSnapshotHolds(cfg: Config, s: State, pick: string)
    requires Inv(cfg, s) && s.pc.CreateSnapshot?
    ensures Inv(cfg, Succeed(cfg, s, pick))
  {
    EveryCallMayEndThePass(cfg, s);
    NotReadyInPass(cfg, s.store);
    var snap := Snapshot(cfg.uid, None);
    var store' := s.store.(snap := Some(snap));
    ExamineHolds(cfg, store', s.pc.w, snap);
    ExamineIgnoresSnap(cfg, s.store, store', s.pc.w, snap);
    hide Examine, Settle, Consistent, ClonesExist, ClonesReady, AllByTemplate;
  }

  lemma ExamineIgnoresSnap(cfg: Config, a: Store, b: Store, w: Status, s: Snapshot)
    requires a.now == b.now
    ensures Examine(cfg, a, w, s) == Examine(cfg, b, w, s)
  {
  }

  lemma GetContentHolds(cfg: Config, s: State, pick: string)
    requires Inv(cfg, s) && s.pc.GetContent?
    ensures Inv(cfg, Succeed(cfg, s, pick))
  {
    EveryCallMayEndThePass(cfg, s);
    hide UseContent, Settle, Consistent;
    if s.pc.name in s.store.contents {
      UseContentHolds(cfg, s.store, s.pc.w, s.store.contents[s.pc.name]);
    }
  }

  lemma GetVolumeHolds(cfg: Config, s: State, pick: string)
    requires Inv(cfg, s) && s.pc.GetVolume?
    ensures Inv(cfg, Succeed(cfg, s, pick))
  {
    var store, w, c, i := s.store, s.pc.w, s.pc.c, s.pc.i;
    EveryCallMayEndThePass(cfg, s);
    hide StoreInv, Settle, Consistent, SetReady, GiveUp, StateOf, AllByTemplate, ClonesReady, Clonable;
    var n := cfg.cloneName(Clonable(c)[i].name);
    if n in store.dvs && store.dvs[n].uid == cfg.uid {
      CloneFromHolds(cfg, store, w, c, i + 1);
      hide CloneFrom, PcInv;
    }
  }

  lemma WaitingForVolumeHolds(cfg: Config, store: Store, w: Status, dv: Volume)
    requires InPass(cfg, store, w)
    ensures PcInv(cfg, store, Finish(store, SyncVolume(w, dv, store.now), false))
  {
    EveryEndingIsConsistent(w, Snapshot("", None), dv, Template("", None), store.now);
    hide Settle, SyncVolume;
  }

  lemma CheckVolumeFacts(cfg: Config, s: State)
    requires Inv(cfg, s) && s.pc.CheckVolume?
    ensures StoreInv(cfg, s.store) && InPass(cfg, s.store, s.pc.w) && s.pc.i < |Clonable(s.pc.c)|
    ensures ClonesExist(cfg, s.store, s.pc.c, |Clonable(s.pc.c)|) && ClonesReady(cfg, s.store, s.pc.c, s.pc.i)
  {
    hide StoreInv, InPass, Clonable, ClonesExist, ClonesReady;
  }

  /** One turn of the readiness loop. */
  lemma CheckStep(cfg: Config, s: State, pick: string)
    requires s.pc.CheckVolume? && s.pc.i < |Clonable(s.pc.c)|
    ensures var store, w, c, i := s.store, s.pc.w, s.pc.c, s.pc.i;
            var n := cfg.cloneName(Clonable(c)[i].name);
            Succeed(cfg, s, pick) ==
              State(store, if n !in store.dvs then Finish(store, w, false)
                           else if store.dvs[n].ready != Some(true)
                               then Finish(store, SyncVolume(w, store.dvs[n], store.now), false)
                           else CheckFrom(store, w, c, i + 1))
  {
    hide Clonable, CheckFrom, SyncVolume, Settle;
  }

  lemma ReadyOneMore(cfg: Config, store: Store, c: Content, i: nat)
    requires i < |Clonable(c)| && ClonesExist(cfg, store, c, |Clonable(c)|) && ClonesReady(cfg, store, c, i)
    requires var n := cfg.cloneName(Clonable(c)[i].name); n in store.dvs && store.dvs[n].ready == Some(true)
    ensures ClonesReady(cfg, store, c, i + 1)
  {
    hide Clonable;
    assert CloneExists(cfg, store, Clonable(c)[i]);
  }

  lemma BothHold(cfg: Config, store: Store, pc: Pc)
    requires StoreInv(cfg, store) && PcInv(cfg, store, pc)
    ensures Inv(cfg, State(store, pc))
  {
  }

  lemma CheckVolumeHolds(cfg: Config, s: State, pick: string)
    requires Inv(cfg, s) && s.pc.CheckVolume?
    ensures Inv(cfg, Succeed(cfg, s, pick))
  {
    hide *;
    var store, w, c, i := s.store, s.pc.w, s.pc.c, s.pc.i;
    CheckVolumeFacts(cfg, s);
    CheckStep(cfg, s, pick);
    var n := cfg.cloneName(Clonable(c)[i].name);
    if n !in store.dvs {
      EndingsHold(cfg, store, w);
    } else if store.dvs[n].ready != Some(true) {
      WaitingForVolumeHolds(cfg, store, w, store.dvs[n]);
    } else {
      ReadyOneMore(cfg, store, c, i);
      CheckFromHolds(cfg, store, w, c, i + 1);
    }
    BothHold(cfg, store, Succeed(cfg, s, pick).pc);
  }

  lemma ExpandSpecHolds(cfg: Config, s: State, pick: string)
    requires Inv(cfg, s) && s.pc.ExpandSpec?
    ensures Inv(cfg, Succeed(cfg, s, pick))
  {
    EveryCallMayEndThePass(cfg, s);
    hide StoreInv, Clonable, Settle, Consistent, SetReady, GiveUp, StateOf, ClonesExist, ClonesReady, AllByTemplate;
  }

  lemma CreateTemplateHolds(cfg: Config, s: State, pick: string)
    requires Inv(cfg, s) && s.pc.CreateTemplate?
    ensures Inv(cfg, Succeed(cfg, s, pick))
  {
    EveryCallMayEndThePass(cfg, s);
    NotReadyInPass(cfg, s.store);
    hide Clonable, Settle, Consistent, SetReady, GiveUp, StateOf, ClonesExist, ClonesReady, AllByTemplate;
  }

  lemma EdgesHold(cfg: Config, s: State, pick: string)
    requires Inv(cfg, s)
    requires s.pc.Idle? || s.pc.AddFinalizer? || s.pc.DeleteRequest? || s.pc.CleanSnapshot? || s.pc.RemoveFinalizer?
             || s.pc.PatchStatus? || s.pc.PollStatus? || s.pc.Panicked?
    ensures Inv(cfg, Succeed(cfg, s, pick))
  {
    var store := s.store;
    if s.pc.Idle? && Held(store) {
      AfterFinalizerHolds(cfg, store);
    } else if s.pc.AddFinalizer? && store.req.Some? && !store.req.value.deleting {
      var store' := store.(req := Some(store.req.value.(finalizer := true)));
      AfterFinalizerHolds(cfg, store');
    }
  }

  lemma SucceedHolds(cfg: Config, s: State, pick: string)
    requires Inv(cfg, s)
    ensures Inv(cfg, Succeed(cfg, s, pick))
  {
    hide *;
    match s.pc
    case GetTemplate(_) => GetTemplateHolds(cfg, s, pick);
    case GetSnapshot(_) => GetSnapshotHolds(cfg, s, pick);
    case CreateSnapshot(_) => CreateSnapshotHolds(cfg, s, pick);
    case GetContent(_, _) => GetContentHolds(cfg, s, pick);
    case ListVolumes(_, _) => ListVolumesHolds(cfg, s, pick);
    case GetVolume(_, _, _) => GetVolumeHolds(cfg, s, pick);
    case CreateVolume(_, _, _) =>
      PickMattersOnlyInPatch(cfg, s, pick, "");
      CreateVolumeHolds(cfg, s);
    case CheckVolume(_, _, _) => CheckVolumeHolds(cfg, s, pick);
    case ExpandSpec(_, _) => ExpandSpecHolds(cfg, s, pick);
    case CreateTemplate(_, _) => CreateTemplateHolds(cfg, s, pick);
    case PatchVolumes(_, _, _) => PatchVolumesHolds(cfg, s, pick);
    case DeleteSnapshot(_, _) =>
      PickMattersOnlyInPatch(cfg, s, pick, "");
      DeleteSnapshotHolds(cfg, s);
    case _ => EdgesHold(cfg, s, pick);
  }

  lemma PickMattersOnlyInPatch(cfg: Config, s: State, a: string, b: string)
    requires !s.pc.PatchVolumes?
    ensures Succeed(cfg, s, a) == Succeed(cfg, s, b)
  {
  }

  lemma FailHolds(cfg: Config, s: State)
    requires Inv(cfg, s)
    ensures Inv(cfg, Fail(s))
  {
    if Proper(s.pc) {
      EveryCallMayEndThePass(cfg, s);
    }
  }

  lemma PollHolds(cfg: Config, s: State)
    requires Inv(cfg, s) && s.pc.Idle?
    ensures Inv(cfg, StartPoll(s))
  {
  }

  lemma EnvKeepsClones(cfg: Config, a: Store, b: Store, c: Content, i: nat)
    requires EnvStep(cfg, a, b) && b.req.Some? && i <= |Clonable(c)|
    ensures ClonesExist(cfg, a, c, i) ==> ClonesExist(cfg, b, c, i)
    ensures ClonesReady(cfg, a, c, i) ==> ClonesReady(cfg, b, c, i)
  {
    hide Clonable;
  }

  lemma EnvHolds(cfg: Config, a: Store, b: Store, pc: Pc)
    requires StoreInv(cfg, a) && PcInv(cfg, a, pc) && EnvStep(cfg, a, b)
    ensures StoreInv(cfg, b) && PcInv(cfg, b, pc)
  {
    if (pc.GetVolume? || pc.CreateVolume? || pc.CheckVolume? || pc.ExpandSpec? || pc.CreateTemplate?) {
      var i := if pc.ExpandSpec? || pc.CreateTemplate? then |Clonable(pc.c)| else pc.i;
      EnvKeepsClones(cfg, a, b, pc.c, i);
      EnvKeepsClones(cfg, a, b, pc.c, |Clonable(pc.c)|);
    }
  }

  lemma NextHolds(cfg: Config, s: State, s': State)
    requires Inv(cfg, s) && Next(cfg, s, s')
    ensures Inv(cfg, s')
  {
    if pick :| s' == Succeed(cfg, s, pick) {
      SucceedHolds(cfg, s, pick);
    } else if s' == Fail(s) {
      FailHolds(cfg, s);
    } else if s.pc.Idle? && s' == StartPoll(s) {
      PollHolds(cfg, s);
    } else if s' != s.(pc := Idle) {
      EnvHolds(cfg, s.store, s'.store, s.pc);
    }
  }

  lemma {:induction false} RunHolds(cfg: Config, run: seq<State>, k: nat)
    requires IsRun(cfg, run) && k < |run|
    ensures Inv(cfg, run[k])
  {
    if k == 0 {
      InitHolds(cfg, run[0]);
    } else {
      RunHolds(cfg, run, k - 1);
      assert Next(cfg, run[k - 1], run[k - 1 + 1]);
      NextHolds(cfg, run[k - 1], run[k]);
    }
  }
}
