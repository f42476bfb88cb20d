/** The request controller as a state machine: one step per API call, each of which may fail and end the pass. */
module Reconciler {
  import opened Wrappers
  import opened Cluster
  import opened Conditions

  /** Where the one thread of control stands: the call it is about to make, with what it remembers.
      `w` is the pass's working copy of the request's status. `Panicked` is where a nil pointer would lead. */
  datatype Pc =
    | Idle
    | AddFinalizer
    | DeleteRequest
    | CleanSnapshot
    | RemoveFinalizer
    | GetTemplate(w: Status)
    | GetSnapshot(w: Status)
    | CreateSnapshot(w: Status)
    | GetContent(w: Status, name: string)
    | GetVolume(w: Status, c: Content, i: nat)
    | CreateVolume(w: Status, c: Content, i: nat)
    | CheckVolume(w: Status, c: Content, i: nat)
    | ExpandSpec(w: Status, c: Content)
    | CreateTemplate(w: Status, c: Content)
    | ListVolumes(w: Status, t: Template)
    | PatchVolumes(w: Status, t: Template, todo: set<string>)
    | DeleteSnapshot(w: Status, t: Template)
    | PatchStatus(w: Status)
    | PollStatus(w: Status)
    | Panicked

  datatype State = State(store: Store, pc: Pc)

  // ---------------------------------------------------------------- moves between calls

  function Finish(store: Store, w: Status, failed: bool): Pc { PatchStatus(Settle(w, failed, store.now)) }

  /** What follows the finalizer: nothing, TTL handling, rejection of the spec, or the pass proper. */
  function AfterFinalizer(cfg: Config, store: Store, status: Status): Pc {
    if !ShouldReconcile(status) then
      if Ttl(cfg.ttl, status, store.now).Delete? then DeleteRequest else Idle
    else if !cfg.IsValid() then Finish(store, RejectSpec(Restart(status), store.now), false)
    else GetTemplate(Restart(status))
  }

  function Examine(cfg: Config, store: Store, w: Status, s: Snapshot): Pc {
    if s.uid != cfg.uid then Finish(store, GiveUp(w, store.now), true)
    else if !SnapshotReady(s) then Finish(store, SyncSnapshot(w, s, store.now), false)
    else
      var name := s.status.value.contentName;
      if name.None? || name.value == "" then Finish(store, GiveUp(w, store.now), true) else GetContent(w, name.value)
  }

  function UseContent(cfg: Config, store: Store, w: Status, c: Content): Pc {
    match StateOf(c)
    case MissingName => Finish(store, GiveUp(SetReady(w, false, Failed, store.now), store.now), true)
    case NotReadyYet => Finish(store, SetProgressing(SetReady(w, false, Waiting, store.now), true, Waiting, store.now),
                               false)
    case Usable => CloneFrom(store, w, c, 0)
  }

  function CloneFrom(store: Store, w: Status, c: Content, i: nat): Pc {
    if i < |Clonable(c)| then GetVolume(w, c, i) else CheckFrom(store, w, c, 0)
  }

  function CheckFrom(store: Store, w: Status, c: Content, i: nat): Pc {
    if i < |Clonable(c)| then CheckVolume(w, c, i)
    else if !c.hasVm then Finish(store, GiveUp(w, store.now), true)
    else ExpandSpec(w, c)
  }

  /** The clone of a backed-up volume, which dereferences the name of its snapshot. */
  function NewVolume(cfg: Config, v: VolumeBackup): Volume
    requires v.snapshotName.Some?
  {
    Volume(cfg.uid, [Owner(TheRequest, true)], v.snapshotName.value, None, None, false)
  }

  function OwnVolumes(cfg: Config, store: Store): set<string> { set n | n in store.dvs && store.dvs[n].uid == cfg.uid }

  /** Taking the controller reference from the request and giving it to the template. */
  function HandedOver(owners: seq<Owner>): Option<seq<Owner>> {
    var removed := RemoveController(owners, TheRequest);
    if removed.None? then None else SetController(removed.value, TheTemplate)
  }

  // ---------------------------------------------------------------- steps of the controller

  /** The start of a pass: reading the request. */
  function Begin(cfg: Config, store: Store): Pc {
    if store.req.None? then Idle
    else
      var r := store.req.value;
      if r.deleting then
        if !r.finalizer then Idle else if cfg.IsValid() then CleanSnapshot else RemoveFinalizer
      else if !r.finalizer then AddFinalizer
      else AfterFinalizer(cfg, store, r.status)
  }

  /** One call that succeeds; where several DataVolumes wait to be patched, `pick` is the next one. */
  function Succeed(cfg: Config, s: State, pick: string): State {
    var store := s.store;
    match s.pc
    case Idle => s.(pc := Begin(cfg, store))
    case AddFinalizer =>
      if store.req.None? || store.req.value.deleting then s.(pc := Idle)
      else
        var r := store.req.value.(finalizer := true);
        State(store.(req := Some(r)), AfterFinalizer(cfg, store, r.status))
    case DeleteRequest => State(store.(req := Deleted(store.req)), Idle)
    case CleanSnapshot => State(store.(snap := None), RemoveFinalizer)
    case RemoveFinalizer =>
      State(if store.req.None? then store
            else store.(req := if store.req.value.deleting then None else Some(store.req.value.(finalizer := false))),
                Idle)
    case GetTemplate(w) =>
      if store.tpl.None? then s.(pc := GetSnapshot(w))
      else if store.tpl.value.uid != cfg.uid then s.(pc := Finish(store, GiveUp(w, store.now), true))
      else s.(pc := ListVolumes(w.(templateRef := Some(cfg.templateName)), store.tpl.value))
    case GetSnapshot(w) => s.(pc := if store.snap.None? then CreateSnapshot(w)
         else Examine(cfg, store, w, store.snap.value))
    case CreateSnapshot(w) =>
      if store.snap.Some? then s.(pc := Finish(store, w, true))
      else
        var snap := Snapshot(cfg.uid, None);
        State(store.(snap := Some(snap)), Examine(cfg, store, w, snap))
    case GetContent(w, name) =>
      s.(pc := if name !in store.contents then Finish(store, w, true)
          else UseContent(cfg, store, w, store.contents[name]))
    case GetVolume(w, c, i) =>
      if i >= |Clonable(c)| then s.(pc := CloneFrom(store, w, c, i))
      else
        var n := cfg.cloneName(Clonable(c)[i].name);
        if n !in store.dvs then s.(pc := CreateVolume(w, c, i))
        else if store.dvs[n].uid != cfg.uid then s.(pc := Finish(store, GiveUp(w, store.now), true))
        else s.(pc := CloneFrom(store, w, c, i + 1))
    case CreateVolume(w, c, i) =>
      if i >= |Clonable(c)| then s.(pc := CloneFrom(store, w, c, i))
      else
        var v := Clonable(c)[i];
        var n := cfg.cloneName(v.name);
        if v.snapshotName.None? then s.(pc := Panicked)
        else if n in store.dvs then s.(pc := Finish(store, w, true))
        else State(store.(dvs := store.dvs[n := NewVolume(cfg, v)]), CloneFrom(store, w, c, i + 1))
    case CheckVolume(w, c, i) =>
      if i >= |Clonable(c)| then s.(pc := CheckFrom(store, w, c, i))
      else
        var n := cfg.cloneName(Clonable(c)[i].name);
        if n !in store.dvs then s.(pc := Finish(store, w, false))
        else if store.dvs[n].ready != Some(true)
            then s.(pc := Finish(store, SyncVolume(w, store.dvs[n], store.now), false))
        else s.(pc := CheckFrom(store, w, c, i + 1))
    case ExpandSpec(w, c) =>
      s.(pc := if !c.hasTemplateSpec then Finish(store, GiveUp(w, store.now), true) else CreateTemplate(w, c))
    case CreateTemplate(w, c) =>
      if store.tpl.Some? then s.(pc := Finish(store, GiveUp(SetReady(w, false, Failed, store.now), store.now), true))
      else
        var t := Template(cfg.uid, None);
        State(store.(tpl := Some(t)), ListVolumes(w.(templateRef := Some(cfg.templateName)), t))
    case ListVolumes(w, t) => s.(pc := PatchVolumes(w, t, OwnVolumes(cfg, store)))
    case PatchVolumes(w, t, todo) =>
      if todo == {} then s.(pc := DeleteSnapshot(w, t))
      else if pick !in todo then s
      else if pick !in store.dvs then s.(pc := Finish(store, w, true))
      else
        var dv := store.dvs[pick];
        if IsControlledBy(dv.owners, TheTemplate) then s.(pc := PatchVolumes(w, t, todo - {pick}))
        else if HandedOver(dv.owners).None? then s.(pc := Finish(store, w, true))
        else State(store.(dvs := store.dvs[pick := dv.(owners := HandedOver(dv.owners).value)]),
                   PatchVolumes(w, t, todo - {pick}))
    case DeleteSnapshot(w, t) => State(store.(snap := None), Finish(store, SyncTemplate(w, t, store.now), false))
    case PatchStatus(w) => State(WithStatus(store, w), Idle)
    case PollStatus(w) => State(WithStatus(store, w), Idle)
    case Panicked => s.(pc := Idle)
  }

  function Deleted(req: Option<Request>): Option<Request> {
    if req.None? || !req.value.finalizer then None else Some(req.value.(deleting := true))
  }

  function WithStatus(store: Store, w: Status): Store {
    if store.req.None? then store else store.(req := Some(store.req.value.(status := w)))
  }

  /** One call that fails: before the pass proper it just ends, later the failure is recorded in the status. */
  function Fail(s: State): State {
    match s.pc
    case GetTemplate(w) => s.(pc := Finish(s.store, w, true))
    case GetSnapshot(w) => s.(pc := Finish(s.store, w, true))
    case CreateSnapshot(w) => s.(pc := Finish(s.store, w, true))
    case GetContent(w, _) => s.(pc := Finish(s.store, w, true))
    case GetVolume(w, _, _) => s.(pc := Finish(s.store, w, true))
    case CreateVolume(w, _, _) => s.(pc := Finish(s.store, w, true))
    case CheckVolume(w, _, _) => s.(pc := Finish(s.store, w, true))
    case ExpandSpec(w, _) => s.(pc := Finish(s.store, w, true))
    case CreateTemplate(w, _) => s.(pc := Finish(s.store, w, true))
    case ListVolumes(w, _) => s.(pc := Finish(s.store, w, true))
    case PatchVolumes(w, _, _) => s.(pc := Finish(s.store, w, true))
    case DeleteSnapshot(w, _) => s.(pc := Finish(s.store, w, true))
    case _ => s.(pc := Idle)
  }

  /** The availability poll, which only runs between passes: it lists the request and prepares a status patch. */
  function StartPoll(s: State): State {
    if s.store.req.None? || s.store.req.value.deleting || !ShouldReconcile(s.store.req.value.status) then s
    else s.(pc := PollStatus(Poll(s.store.req.value.status, s.store.now)))
  }

  // ---------------------------------------------------------------- steps of everybody else

  /** What a DataVolume's own controller may do to it: report progress, but never take Ready back. */
  predicate VolumeEvolves(a: Volume, b: Volume) {
    b.uid == a.uid && b.owners == a.owners && b.source == a.source && (a.ready == Some(true) ==> b.ready == Some(true))
  }

  ghost predicate VolumesEvolve(cfg: Config, a: Store, b: Store) {
    && (forall n :: n in b.dvs && b.dvs[n].uid == cfg.uid ==>
          n in a.dvs && a.dvs[n].uid == cfg.uid && VolumeEvolves(a.dvs[n], b.dvs[n]))
    && (b.req.Some? ==> forall n :: n in a.dvs && a.dvs[n].uid == cfg.uid ==> n in b.dvs && b.dvs[n].uid == cfg.uid)
  }

  predicate SnapshotEvolves(cfg: Config, a: Option<Snapshot>, b: Option<Snapshot>) {
    (a.Some? && a.value.uid == cfg.uid) <==> (b.Some? && b.value.uid == cfg.uid)
  }

  predicate TemplateEvolves(cfg: Config, a: Option<Template>, b: Option<Template>) {
    (a.Some? && a.value.uid == cfg.uid) <==> (b.Some? && b.value.uid == cfg.uid)
  }

  /** One step of the environment: time passes; the user deletes the request; the other controllers report on the
      request's objects; objects that carry another UID come and go anywhere; volumes of a gone request are collected.
      */
  ghost predicate EnvStep(cfg: Config, a: Store, b: Store) {
    && a.now <= b.now
    && (b.req == a.req || b.req == Deleted(a.req))
    && SnapshotEvolves(cfg, a.snap, b.snap)
    && TemplateEvolves(cfg, a.tpl, b.tpl)
    && VolumesEvolve(cfg, a, b)
  }

  /** A step: a call of the controller succeeds or fails, the controller crashes, a poll starts, or somebody else
      acts. */
  ghost predicate Next(cfg: Config, s: State, s': State) {
    || (exists pick :: s' == Succeed(cfg, s, pick))
    || s' == Fail(s)
    || s' == s.(pc := Idle)
    || (s.pc.Idle? && s' == StartPoll(s))
    || (s'.pc == s.pc && EnvStep(cfg, s.store, s'.store))
  }

  /** A fresh request, among objects that are not its own. */
  ghost predicate Init(cfg: Config, s: State) {
    && s.pc.Idle?
    && s.store.req == Some(Request(false, false, Status(None, None, None)))
    && (s.store.snap.Some? ==> s.store.snap.value.uid != cfg.uid)
    && (s.store.tpl.Some? ==> s.store.tpl.value.uid != cfg.uid)
    && (forall n :: n in s.store.dvs ==> s.store.dvs[n].uid != cfg.uid)
  }

  ghost predicate IsRun(cfg: Config, run: seq<State>) {
    |run| > 0 && Init(cfg, run[0]) && forall k :: 0 <= k < |run| - 1 ==> Next(cfg, run[k], run[k + 1])
  }
}
