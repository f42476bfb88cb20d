/** A request reaches Ready in at most four more passes, wherever the last one was cut off. */
module Convergence {
  import opened Wrappers
  import opened Cluster
  import SpecRewrite
  import opened Conditions
  import opened Reconciler
  import opened Safety

  // ---------------------------------------------------------------- whole passes

  /** How much of a pass is left. */
  function Phase(pc: Pc): nat {
    match pc
    case Idle => 0
    case PatchStatus(_) => 1
    case PollStatus(_) => 1
    case Panicked => 1
    case DeleteRequest => 1
    case RemoveFinalizer => 1
    case CleanSnapshot => 2
    case DeleteSnapshot(_, _) => 2
    case PatchVolumes(_, _, _) => 3
    case ListVolumes(_, _) => 4
    case CreateTemplate(_, _) => 5
    case ExpandSpec(_, _) => 6
    case CheckVolume(_, _, _) => 7
    case GetVolume(_, _, _) => 8
    case CreateVolume(_, _, _) => 8
    case GetContent(_, _) => 9
    case CreateSnapshot(_) => 10
    case GetSnapshot(_) => 11
    case GetTemplate(_) => 12
    case AddFinalizer => 13
  }

  ghost function Left(pc: Pc): nat {
    match pc
    case PatchVolumes(_, _, todo) => |todo|
    case CheckVolume(_, c, i) => if i < |Clonable(c)| then |Clonable(c)| - i else 0
    case GetVolume(_, c, i) => if i < |Clonable(c)| then 2 * (|Clonable(c)| - i) else 0
    case CreateVolume(_, c, i) => if i < |Clonable(c)| then 2 * (|Clonable(c)| - i) - 1 else 0
    case _ => 0
  }

  ghost function SomeOf(todo: set<string>): string { if n :| n in todo then n else "" }

  /** The order in which the listed volumes of a pass come: which of the remaining ones is next. */
  type Order = f: set<string> -> string | forall todo :: todo != {} ==> f(todo) in todo ghost witness SomeOf

  /** The next call succeeds. */
  ghost function Ok(cfg: Config, order: Order, s: State): State {
    Succeed(cfg, s, if s.pc.PatchVolumes? then order(s.pc.todo) else "")
  }

  lemma OkGetsOn(cfg: Config, order: Order, s: State)
    requires !s.pc.Idle?
    ensures Phase(Ok(cfg, order, s).pc) < Phase(s.pc)
            || (Phase(Ok(cfg, order, s).pc) == Phase(s.pc) && Left(Ok(cfg, order, s).pc) < Left(s.pc))
  {
    hide Clonable, StateOf, Settle, Ttl, SnapshotReady, HandedOver, IsControlledBy;
  }

  /** The rest of a pass in which no call fails and nobody interferes. */
  ghost function Rest(cfg: Config, order: Order, s: State): State
    decreases Phase(s.pc), Left(s.pc)
  {
    if s.pc.Idle? then s else OkGetsOn(cfg, order, s); Rest(cfg, order, Ok(cfg, order, s))
  }

  /** A whole pass. */
  ghost function Pass(cfg: Config, order: Order, store: Store): Store {
    Rest(cfg, order, State(store, Begin(cfg, store))).store
  }

  lemma {:induction false} RestHolds(cfg: Config, order: Order, s: State)
    requires Inv(cfg, s)
    ensures Inv(cfg, Rest(cfg, order, s)) && Rest(cfg, order, s).pc.Idle?
    decreases Phase(s.pc), Left(s.pc)
  {
    hide Inv, Ok, Phase, Left;
    if !s.pc.Idle? {
      OkGetsOn(cfg, order, s);
      OkHolds(cfg, order, s);
      RestHolds(cfg, order, Ok(cfg, order, s));
    }
  }

  lemma OkHolds(cfg: Config, order: Order, s: State)
    requires Inv(cfg, s)
    ensures Inv(cfg, Ok(cfg, order, s))
  {
    hide Inv, Succeed;
    SucceedHolds(cfg, s, if s.pc.PatchVolumes? then order(s.pc.todo) else "");
  }

  lemma PassHolds(cfg: Config, order: Order, store: Store)
    requires StoreInv(cfg, store)
    ensures StoreInv(cfg, Pass(cfg, order, store))
  {
    var idle := State(store, Idle);
    assert Inv(cfg, idle) && Succeed(cfg, idle, "") == State(store, Begin(cfg, store));
    hide Inv, Rest, Succeed;
    SucceedHolds(cfg, idle, "");
    RestHolds(cfg, order, State(store, Begin(cfg, store)));
    InvIsStoreInv(cfg, Rest(cfg, order, State(store, Begin(cfg, store))));
  }

  lemma InvIsStoreInv(cfg: Config, s: State)
    requires Inv(cfg, s)
    ensures StoreInv(cfg, s.store)
  {
  }

  lemma RestStep(cfg: Config, order: Order, s: State)
    requires !s.pc.Idle?
    ensures Rest(cfg, order, s) == Rest(cfg, order, Ok(cfg, order, s))
  {
    hide Ok;
  }

  // ---------------------------------------------------------------- the assumptions

  /** The request is waiting for more passes. */
  ghost predicate Pending(cfg: Config, store: Store) {
    && StoreInv(cfg, store) && cfg.IsValid()
    && store.req.Some? && !store.req.value.deleting && ShouldReconcile(store.req.value.status)
  }

  ghost predicate ClearFor(cfg: Config, store: Store, c: Content) {
    forall v :: v in Clonable(c) && cfg.cloneName(v.name) in store.dvs ==>
      store.dvs[cfg.cloneName(v.name)].uid == cfg.uid
  }

  /** A content that is ready to use, names a snapshot for each volume and holds a VM with a template spec. */
  predicate Complete(c: Content) {
    && c.readyToUse == Some(true) && c.hasVm && c.hasTemplateSpec
    && forall v :: v in c.volumes ==> v.snapshotName.Some? && v.snapshotName.value != ""
  }

  /** The snapshot is ready and names a content that exists. */
  predicate HasContent(store: Store) {
    && store.snap.Some? && store.snap.value.status.Some? && store.snap.value.status.value.ready == Some(true)
    && store.snap.value.status.value.contentName.Some? && store.snap.value.status.value.contentName.value != ""
    && store.snap.value.status.value.contentName.value in store.contents
  }

  function ContentOf(store: Store): Content
    requires HasContent(store)
  {
    store.contents[store.snap.value.status.value.contentName.value]
  }

  /** Names do not clash: nobody else's object sits under a name of the request. */
  ghost predicate Clear(cfg: Config, store: Store) {
    && (store.snap.Some? ==> OwnSnapshot(cfg, store))
    && (store.tpl.Some? ==> OwnTemplate(cfg, store))
    && (HasContent(store) ==> ClearFor(cfg, store, ContentOf(store)))
  }

  /** The external objects that exist are ready: the snapshot with its content, the volumes, the template. */
  ghost predicate Settled(cfg: Config, store: Store) {
    && (store.snap.Some? ==> HasContent(store) && Complete(ContentOf(store)))
    && (forall n :: n in store.dvs && store.dvs[n].uid == cfg.uid ==> store.dvs[n].ready == Some(true))
    && (store.tpl.Some? ==> store.tpl.value.ready == Some(true))
  }

  /** The other controllers finish their work, and the user leaves the request alone. */
  ghost predicate Settles(cfg: Config, a: Store, b: Store) {
    EnvStep(cfg, a, b) && b.req == a.req && Clear(cfg, b) && Settled(cfg, b)
  }

  /** Once a content can be used, it goes on listing the same volumes. */
  predicate KeepsVolumes(a: Store, b: Store) {
    HasContent(a) && HasContent(b) ==> VolumeNames(ContentOf(b).volumes) == VolumeNames(ContentOf(a).volumes)
  }

  /** The environment can always settle, whatever a pass has left behind: nothing below is assumed in vain. */
  lemma SettlingIsPossible(cfg: Config, a: Store) returns (b: Store)
    ensures Settles(cfg, a, b) && KeepsVolumes(a, b)
  {
    var vs := if HasContent(a) then ContentOf(a).volumes else [];
    var named := seq(|vs|, i requires 0 <= i < |vs| => vs[i].(snapshotName := Some("snapshot")));
    var c := Content(Some(true), named, true, true);
    var ready := SnapshotStatus(Some(true), None, None, false, false, Some("content"));
    b := a.(snap := if OwnSnapshot(cfg, a) then Some(a.snap.value.(status := Some(ready))) else None,
            contents := map["content" := c],
            dvs := map n | n in a.dvs && a.dvs[n].uid == cfg.uid :: a.dvs[n].(ready := Some(true)),
            tpl := if OwnTemplate(cfg, a) then Some(a.tpl.value.(ready := Some(true))) else None);
    hide Clonable;
    assert forall v :: v in named ==> v.snapshotName == Some("snapshot");
    assert StateOf(c).Usable?;
    assert VolumeNames(named) == VolumeNames(vs);
  }

  /** How many more passes it takes. */
  ghost function Distance(cfg: Config, store: Store): nat
    requires Clear(cfg, store) && Settled(cfg, store)
  {
    if store.tpl.Some? then 1
    else if store.snap.None? then 4
    else if ClonesExist(cfg, store, ContentOf(store), |Clonable(ContentOf(store))|) then 2
    else 3
  }

  // ---------------------------------------------------------------- the loops of a pass

  ghost predicate OnlyVolumesAdded(cfg: Config, a: Store, b: Store) {
    && b == a.(dvs := b.dvs)
    && (forall n :: n in a.dvs ==> n in b.dvs && b.dvs[n] == a.dvs[n])
    && (forall n :: n in b.dvs && n !in a.dvs ==>
          ByRequest(b.dvs[n]) && b.dvs[n].ready == None && b.dvs[n].running == None)
  }

  lemma CloneStep(cfg: Config, order: Order, store: Store, w: Status, c: Content, i: nat)
    requires i < |Clonable(c)| && Clonable(c)[i].snapshotName.Some?
    ensures var v := Clonable(c)[i];
            var n := cfg.cloneName(v.name);
            && (n in store.dvs && store.dvs[n].uid == cfg.uid ==>
                  Ok(cfg, order, State(store, GetVolume(w, c, i))) == State(store, CloneFrom(store, w, c, i + 1)))
            && (n !in store.dvs ==>
                  var next := store.(dvs := store.dvs[n := NewVolume(cfg, v)]);
                  && Ok(cfg, order, State(store, GetVolume(w, c, i))) == State(store, CreateVolume(w, c, i))
                  && Ok(cfg, order, State(store, CreateVolume(w, c, i))) == State(next, CloneFrom(next, w, c, i + 1)))
  {
    hide Settle, StateOf, Ttl, SetReady, GiveUp, Clonable;
  }

  /** One turn of the clone loop: an existing clone is passed over, a missing one is created. */
  lemma CloneTurn(cfg: Config, order: Order, store: Store, w: Status, c: Content, i: nat) returns (next: Store)
    requires StateOf(c).Usable? && i < |Clonable(c)| && ClearFor(cfg, store, c) && ClonesExist(cfg, store, c, i)
    ensures Rest(cfg, order, State(store, CloneFrom(store, w, c, i)))
            == Rest(cfg, order, State(next, CloneFrom(next, w, c, i + 1)))
    ensures OnlyVolumesAdded(cfg, store, next) && ClearFor(cfg, next, c) && ClonesExist(cfg, next, c, i + 1)
  {
    UsableIsNamed(c, i);
    CloneStep(cfg, order, store, w, c, i);
    hide Ok, Succeed, StateOf, Clonable, CheckFrom;
    var v := Clonable(c)[i];
    var n := cfg.cloneName(v.name);
    RestStep(cfg, order, State(store, GetVolume(w, c, i)));
    if n in store.dvs {
      next := store;
    } else {
      next := store.(dvs := store.dvs[n := NewVolume(cfg, v)]);
      RestStep(cfg, order, State(store, CreateVolume(w, c, i)));
    }
    hide Rest;
  }

  lemma {:induction false} CloneLoop(cfg: Config, order: Order, store: Store, w: Status, c: Content, i: nat)
    returns (store': Store)
    requires StateOf(c).Usable? && i <= |Clonable(c)| && ClearFor(cfg, store, c) && ClonesExist(cfg, store, c, i)
    ensures Rest(cfg, order, State(store, CloneFrom(store, w, c, i)))
            == Rest(cfg, order, State(store', CheckFrom(store', w, c, 0)))
    ensures OnlyVolumesAdded(cfg, store, store') && ClonesExist(cfg, store', c, |Clonable(c)|)
    decreases |Clonable(c)| - i
  {
    hide Rest, Clonable, ClearFor, ClonesExist;
    if i == |Clonable(c)| {
      store' := store;
    } else {
      var next := CloneTurn(cfg, order, store, w, c, i);
      store' := CloneLoop(cfg, order, next, w, c, i + 1);
    }
  }

  lemma {:induction false} CheckLoopReady(cfg: Config, order: Order, store: Store, w: Status, c: Content, i: nat)
    requires i <= |Clonable(c)| && ClonesReady(cfg, store, c, |Clonable(c)|) && c.hasVm
    ensures Rest(cfg, order, State(store, CheckFrom(store, w, c, i)))
            == Rest(cfg, order, State(store, ExpandSpec(w, c)))
    decreases |Clonable(c)| - i
  {
    if i < |Clonable(c)| {
      assert CloneReady(cfg, store, Clonable(c)[i]);
      RestStep(cfg, order, State(store, CheckVolume(w, c, i)));
      CheckLoopReady(cfg, order, store, w, c, i + 1);
    }
  }

  /** If some clone is still waiting, the readiness loop stops at the first one and the pass ends. */
  lemma {:induction false} CheckLoopWaits(cfg: Config, order: Order, store: Store, w: Status, c: Content, i: nat,
                                          k: nat) returns (dv: Volume)
    requires i <= k < |Clonable(c)| && ClonesExist(cfg, store, c, |Clonable(c)|)
    requires !CloneReady(cfg, store, Clonable(c)[k])
    requires forall j :: i <= j < |Clonable(c)| && !CloneReady(cfg, store, Clonable(c)[j]) ==>
               store.dvs[cfg.cloneName(Clonable(c)[j].name)].running.None?
    ensures dv.running.None?
    ensures Rest(cfg, order, State(store, CheckFrom(store, w, c, i)))
            == Rest(cfg, order, State(store, Finish(store, SyncVolume(w, dv, store.now), false)))
    decreases k - i
  {
    var n := cfg.cloneName(Clonable(c)[i].name);
    assert CloneExists(cfg, store, Clonable(c)[i]);
    RestStep(cfg, order, State(store, CheckVolume(w, c, i)));
    dv := store.dvs[n];
    if dv.ready == Some(true) {
      assert CloneReady(cfg, store, Clonable(c)[i]);
      dv := CheckLoopWaits(cfg, order, store, w, c, i + 1, k);
    }
  }

  ghost predicate OnlyHandedOver(cfg: Config, a: Store, b: Store) {
    && b == a.(dvs := b.dvs) && b.dvs.Keys == a.dvs.Keys
    && forall n :: n in a.dvs ==> b.dvs[n] == a.dvs[n].(owners := b.dvs[n].owners)
  }

  lemma {:induction false} PatchLoop(cfg: Config, order: Order, store: Store, w: Status, t: Template,
                                     todo: set<string>) returns (store': Store)
    requires forall n :: n in todo ==> n in store.dvs && (ByRequest(store.dvs[n]) || ByTemplate(store.dvs[n]))
    ensures Rest(cfg, order, State(store, PatchVolumes(w, t, todo)))
            == Rest(cfg, order, State(store', DeleteSnapshot(w, t)))
    ensures OnlyHandedOver(cfg, store, store')
    decreases todo
  {
    var s := State(store, PatchVolumes(w, t, todo));
    RestStep(cfg, order, s);
    hide Rest;
    if todo == {} {
      store' := store;
    } else {
      var n := order(todo);
      PatchStep(cfg, s, n);
      hide Succeed;
      store' := PatchLoop(cfg, order, Ok(cfg, order, s).store, w, t, todo - {n});
    }
  }

  // ---------------------------------------------------------------- one pass from each distance

  /** The store once the pass has seen to the finalizer. */
  function WithFinalizer(store: Store): Store
    requires store.req.Some?
  {
    store.(req := Some(store.req.value.(finalizer := true)))
  }

  function StartStatus(store: Store): Status
    requires store.req.Some?
  {
    Restart(store.req.value.status)
  }

  lemma PassStarts(cfg: Config, order: Order, store: Store)
    requires Pending(cfg, store)
    ensures Pass(cfg, order, store)
            == Rest(cfg, order, State(WithFinalizer(store), GetTemplate(StartStatus(store)))).store
  {
    hide StoreInv, Settle, Rest, Ttl;
    if store.req.value.finalizer {
      assert WithFinalizer(store) == store;
    } else {
      RestStep(cfg, order, State(store, AddFinalizer));
    }
  }

  /** The pass ends by writing its status. */
  lemma PassEnds(cfg: Config, order: Order, store: Store, w: Status)
    requires store.req.Some?
    ensures Rest(cfg, order, State(store, PatchStatus(w))) == State(WithStatus(store, w), Idle)
  {
    RestStep(cfg, order, State(store, PatchStatus(w)));
  }

  /** What a pass leaves of a store whose request it found pending. */
  ghost predicate StillPending(cfg: Config, a: Store, b: Store) {
    && b.req.Some? && !b.req.value.deleting && ShouldReconcile(b.req.value.status) && b.contents == a.contents
  }

  lemma FromNothing(cfg: Config, order: Order, e: Store)
    requires Pending(cfg, e) && Clear(cfg, e) && Settled(cfg, e) && e.tpl.None? && e.snap.None?
    ensures StillPending(cfg, e, Pass(cfg, order, e)) && Pass(cfg, order, e).snap == Some(Snapshot(cfg.uid, None))
            && Pass(cfg, order, e).tpl.None?
  {
    PassStarts(cfg, order, e);
    hide Pass, Rest, StoreInv, Clear, Settled;
    var store, w := WithFinalizer(e), StartStatus(e);
    RestStep(cfg, order, State(store, GetTemplate(w)));
    RestStep(cfg, order, State(store, GetSnapshot(w)));
    RestStep(cfg, order, State(store, CreateSnapshot(w)));
    var snap := Snapshot(cfg.uid, None);
    var store' := store.(snap := Some(snap));
    PassEnds(cfg, order, store', Settle(SyncSnapshot(w, snap, store.now), false, store.now));
  }

  /** From a ready snapshot on, the pass comes to the clone loop. */
  lemma PassClones(cfg: Config, order: Order, e: Store) returns (store': Store)
    requires Pending(cfg, e) && Clear(cfg, e) && Settled(cfg, e) && e.tpl.None? && e.snap.Some?
    ensures var c := ContentOf(e);
            && Pass(cfg, order, e) == Rest(cfg, order, State(store', CheckFrom(store', StartStatus(e), c, 0))).store
            && OnlyVolumesAdded(cfg, WithFinalizer(e), store') && ClonesExist(cfg, store', c, |Clonable(c)|)
  {
    PassStarts(cfg, order, e);
    hide Pass, Rest, StoreInv, CloneFrom, Clonable, StateOf;
    var store, w, c := WithFinalizer(e), StartStatus(e), ContentOf(e);
    RestStep(cfg, order, State(store, GetTemplate(w)));
    RestStep(cfg, order, State(store, GetSnapshot(w)));
    RestStep(cfg, order, State(store, GetContent(w, e.snap.value.status.value.contentName.value)));
    assert ClearFor(cfg, store, c) by { assert ClearFor(cfg, e, c); }
    store' := CloneLoop(cfg, order, store, w, c, 0);
  }

  lemma FromSnapshot(cfg: Config, order: Order, e: Store)
    requires Pending(cfg, e) && Clear(cfg, e) && Settled(cfg, e) && e.tpl.None? && e.snap.Some?
    requires !ClonesExist(cfg, e, ContentOf(e), |Clonable(ContentOf(e))|)
    ensures var p, c := Pass(cfg, order, e), ContentOf(e);
            StillPending(cfg, e, p) && p.snap == e.snap && p.tpl.None? && ClonesExist(cfg, p, c, |Clonable(c)|)
  {
    var c, w := ContentOf(e), StartStatus(e);
    var store' := PassClones(cfg, order, e);
    hide Pass, Rest, StoreInv, Clonable, Settled, Clear, Complete, HasContent;
    var k :| 0 <= k < |Clonable(c)| && !CloneExists(cfg, e, Clonable(c)[k]);
    MissingCloneIsNew(cfg, e, store', c, k);
    OthersAreReady(cfg, e, store', c);
    var dv := CheckLoopWaits(cfg, order, store', w, c, 0, k);
    PassEnds(cfg, order, store', Settle(SyncVolume(w, dv, store'.now), false, store'.now));
    hide ClonesExist;
  }

  lemma MissingCloneIsNew(cfg: Config, e: Store, store': Store, c: Content, k: nat)
    requires Clear(cfg, e) && HasContent(e) && c == ContentOf(e) && k < |Clonable(c)|
             && !CloneExists(cfg, e, Clonable(c)[k])
    requires e.req.Some? && OnlyVolumesAdded(cfg, WithFinalizer(e), store')
             && ClonesExist(cfg, store', c, |Clonable(c)|)
    ensures !CloneReady(cfg, store', Clonable(c)[k])
  {
    hide Clonable;
    assert ClearFor(cfg, e, c) && Clonable(c)[k] in Clonable(c);
    assert CloneExists(cfg, store', Clonable(c)[k]);
  }

  lemma OthersAreReady(cfg: Config, e: Store, store': Store, c: Content)
    requires Settled(cfg, e) && e.req.Some? && OnlyVolumesAdded(cfg, WithFinalizer(e), store')
             && ClonesExist(cfg, store', c, |Clonable(c)|)
    ensures forall j :: 0 <= j < |Clonable(c)| && !CloneReady(cfg, store', Clonable(c)[j])
              ==> store'.dvs[cfg.cloneName(Clonable(c)[j].name)].running.None?
  {
    hide Clonable, HasContent, Complete;
    forall j | 0 <= j < |Clonable(c)| && !CloneReady(cfg, store', Clonable(c)[j])
      ensures store'.dvs[cfg.cloneName(Clonable(c)[j].name)].running.None?
    {
      assert CloneExists(cfg, store', Clonable(c)[j]);
    }
  }

  /** From the list of volumes on, the pass hands them over, deletes the snapshot and reports on the template. */
  lemma PassHandsOver(cfg: Config, order: Order, store: Store, w: Status, t: Template)
    requires StoreInv(cfg, store) && store.req.Some?
    ensures var p := Rest(cfg, order, State(store, ListVolumes(w, t))).store;
            && p.contents == store.contents && p.tpl == store.tpl && p.snap.None?
            && p.req == Some(store.req.value.(status := Settle(SyncTemplate(w, t, store.now), false, store.now)))
  {
    var todo := OwnVolumes(cfg, store);
    RestStep(cfg, order, State(store, ListVolumes(w, t)));
    var store' := PatchLoop(cfg, order, store, w, t, todo);
    RestStep(cfg, order, State(store', DeleteSnapshot(w, t)));
    hide Rest, Settle, SyncTemplate, StoreInv;
    PassEnds(cfg, order, store'.(snap := None), Settle(SyncTemplate(w, t, store'.now), false, store'.now));
  }

  lemma FromClones(cfg: Config, order: Order, e: Store)
    requires Pending(cfg, e) && Clear(cfg, e) && Settled(cfg, e) && e.tpl.None? && e.snap.Some?
    requires ClonesExist(cfg, e, ContentOf(e), |Clonable(ContentOf(e))|)
    ensures StillPending(cfg, e, Pass(cfg, order, e)) && Pass(cfg, order, e).tpl == Some(Template(cfg.uid, None))
            && Pass(cfg, order, e).snap.None?
  {
    var c, w := ContentOf(e), StartStatus(e);
    var store' := PassClones(cfg, order, e);
    ExistingClonesAreReady(cfg, e, store', c);
    AddedVolumesHold(cfg, e, store', Template(cfg.uid, None));
    assert Working(w) && c.hasVm && c.hasTemplateSpec;
    hide Pass, Rest, Clonable, Clear, Settled, ClonesReady, ClonesExist, StoreInv, Working, ContentOf;
    CheckLoopReady(cfg, order, store', w, c, 0);
    PassWritesTemplate(cfg, order, store', w, c);
  }

  lemma PassWritesTemplate(cfg: Config, order: Order, store: Store, w: Status, c: Content)
    requires store.req.Some? && store.tpl.None? && c.hasTemplateSpec && Working(w)
    requires StoreInv(cfg, store.(tpl := Some(Template(cfg.uid, None))))
    ensures var p := Rest(cfg, order, State(store, ExpandSpec(w, c))).store;
            && p.contents == store.contents && p.tpl == Some(Template(cfg.uid, None)) && p.snap.None?
            && p.req.Some? && p.req.value.deleting == store.req.value.deleting && ShouldReconcile(p.req.value.status)
  {
    hide Rest, Clonable, StoreInv;
    RestStep(cfg, order, State(store, ExpandSpec(w, c)));
    RestStep(cfg, order, State(store, CreateTemplate(w, c)));
    var t := Template(cfg.uid, None);
    PassHandsOver(cfg, order, store.(tpl := Some(t)), w.(templateRef := Some(cfg.templateName)), t);
  }

  lemma AddedVolumesHold(cfg: Config, e: Store, store': Store, t: Template)
    requires Pending(cfg, e) && e.tpl.None? && OnlyVolumesAdded(cfg, WithFinalizer(e), store') && t.uid == cfg.uid
    ensures StoreInv(cfg, store'.(tpl := Some(t)))
  {
    NotReadyInPass(cfg, e);
    var next := store'.(tpl := Some(t));
    hide Consistent;
    forall n | n in next.dvs && next.dvs[n].uid == cfg.uid ensures ByRequest(next.dvs[n]) || ByTemplate(next.dvs[n]) {
      assert n in e.dvs || ByRequest(next.dvs[n]);
    }
  }

  /** If every clone was there and ready at the start of the pass, the clone loop added nothing to wait for. */
  lemma ExistingClonesAreReady(cfg: Config, e: Store, store': Store, c: Content)
    requires Settled(cfg, e) && e.req.Some? && OnlyVolumesAdded(cfg, WithFinalizer(e), store')
             && ClonesExist(cfg, e, c, |Clonable(c)|)
    ensures ClonesReady(cfg, store', c, |Clonable(c)|)
  {
    hide Clonable, HasContent, Complete;
    forall k | 0 <= k < |Clonable(c)| ensures CloneReady(cfg, store', Clonable(c)[k]) {
      assert CloneExists(cfg, e, Clonable(c)[k]);
    }
  }

  lemma FromTemplate(cfg: Config, order: Order, e: Store)
    requires Pending(cfg, e) && Clear(cfg, e) && Settled(cfg, e) && e.tpl.Some?
    ensures Pass(cfg, order, e).req.Some? && IsReady(Pass(cfg, order, e).req.value.status)
  {
    PassStarts(cfg, order, e);
    var store, w := WithFinalizer(e), StartStatus(e);
    assert StoreInv(cfg, store) && e.tpl.value.ready == Some(true) && e.tpl.value.uid == cfg.uid;
    hide Pass, Rest, StoreInv, Clear, Settled, Consistent;
    RestStep(cfg, order, State(store, GetTemplate(w)));
    PassHandsOver(cfg, order, store, w.(templateRef := Some(cfg.templateName)), e.tpl.value);
  }

  // ---------------------------------------------------------------- four passes

  ghost predicate Ready(store: Store) { store.req.Some? && IsReady(store.req.value.status) }

  /** A pass either makes the request Ready or brings it one pass closer, however the environment settles in between. */
  lemma PassGetsCloser(cfg: Config, order: Order, e: Store, e': Store)
    requires Pending(cfg, e) && Clear(cfg, e) && Settled(cfg, e)
    requires !Ready(Pass(cfg, order, e)) && Settles(cfg, Pass(cfg, order, e), e')
             && KeepsVolumes(Pass(cfg, order, e), e')
    ensures Pending(cfg, e') && Distance(cfg, e') < Distance(cfg, e)
  {
    var p := Pass(cfg, order, e);
    PassHolds(cfg, order, e);
    EnvHolds(cfg, p, e', Idle);
    hide Pass, StoreInv, IsReady;
    if e.tpl.Some? {
      FromTemplate(cfg, order, e);
    } else if e.snap.None? {
      FromNothing(cfg, order, e);
    } else {
      var c := ContentOf(e);
      if ClonesExist(cfg, e, c, |Clonable(c)|) {
        FromClones(cfg, order, e);
      } else {
        FromSnapshot(cfg, order, e);
        assert HasContent(p) && ContentOf(p) == c && HasContent(e');
        EnvKeepsClones(cfg, p, e', c, |Clonable(c)|);
        SameNamesSameClones(cfg, e', c, ContentOf(e'));
      }
    }
  }

  /** Clone names depend on nothing but the names of the volumes. */
  lemma SameNamesSameClones(cfg: Config, store: Store, c: Content, c': Content)
    requires VolumeNames(c.volumes) == VolumeNames(c'.volumes) && ClonesExist(cfg, store, c, |Clonable(c)|)
    ensures ClonesExist(cfg, store, c', |Clonable(c')|)
  {
    var names := VolumeNames(c.volumes);
    LoopsAgree(c.volumes, SpecRewrite.Backend(names));
    LoopsAgree(c'.volumes, SpecRewrite.Backend(names));
    assert VolumeNames(Clonable(c)) == VolumeNames(Clonable(c'));
    hide Clonable;
    forall k | 0 <= k < |Clonable(c')| ensures CloneExists(cfg, store, Clonable(c')[k]) {
      assert VolumeNames(Clonable(c'))[k] == VolumeNames(Clonable(c))[k];
      assert CloneExists(cfg, store, Clonable(c)[k]);
    }
  }

  /** What the environment does between passes: stores[k] is what the k-th pass finds, and orders[k] how it lists
      volumes. */
  ghost predicate Rounds(cfg: Config, orders: seq<Order>, stores: seq<Store>) {
    && |orders| == |stores|
    && forall k :: 0 <= k < |stores| - 1 ==> Follows(cfg, Pass(cfg, orders[k], stores[k]), stores[k + 1])
  }

  ghost predicate Follows(cfg: Config, a: Store, b: Store) { Settles(cfg, a, b) && KeepsVolumes(a, b) }

  lemma {:induction false} RoundsGetCloser(cfg: Config, orders: seq<Order>, stores: seq<Store>, k: nat)
    requires Rounds(cfg, orders, stores) && k < |stores|
    requires Pending(cfg, stores[0]) && Clear(cfg, stores[0]) && Settled(cfg, stores[0])
    requires forall j :: 0 <= j < k ==> !Ready(Pass(cfg, orders[j], stores[j]))
    ensures Pending(cfg, stores[k]) && Clear(cfg, stores[k]) && Settled(cfg, stores[k])
            && Distance(cfg, stores[k]) + k <= 4
  {
    if k > 0 {
      RoundsGetCloser(cfg, orders, stores, k - 1);
      assert Follows(cfg, Pass(cfg, orders[k - 1], stores[k - 1]), stores[k - 1 + 1]);
      hide Pending, Clear, Settled, Pass, Ready, Distance, KeepsVolumes;
      PassGetsCloser(cfg, orders[k - 1], stores[k - 1], stores[k]);
      SettlesFacts(cfg, Pass(cfg, orders[k - 1], stores[k - 1]), stores[k]);
    }
  }

  lemma SettlesFacts(cfg: Config, a: Store, b: Store)
    requires Settles(cfg, a, b)
    ensures Clear(cfg, b) && Settled(cfg, b)
  {
  }

  /** Crash convergence: take any state a run can reach, with whatever the last pass left behind when it was cut off.
      If the spec is valid, the request is not terminal, names do not clash, nobody deletes anything, the external
      objects get ready between passes, a usable content goes on listing the same volumes and no further call fails,
      then one of the next four passes makes it Ready, in whatever order each of them lists the volumes. */
  lemma ReadyWithinFourPasses(cfg: Config, run: seq<State>, k: nat, orders: seq<Order>, stores: seq<Store>)
    requires IsRun(cfg, run) && k < |run| && cfg.IsValid()
    requires run[k].store.req.Some? && !run[k].store.req.value.deleting
             && ShouldReconcile(run[k].store.req.value.status)
    requires |stores| == 4 && Settles(cfg, run[k].store, stores[0]) && Rounds(cfg, orders, stores)
    ensures exists j :: 0 <= j < 4 && Ready(Pass(cfg, orders[j], stores[j]))
  {
    RunHolds(cfg, run, k);
    EnvHolds(cfg, run[k].store, stores[0], Idle);
    assert Pending(cfg, stores[0]);
    assert |orders| == 4;
    hide Pending, Clear, Settled, Pass, Rounds, IsRun;
    SettlesFacts(cfg, run[k].store, stores[0]);
    if forall j :: 0 <= j < 3 ==> !Ready(Pass(cfg, orders[j], stores[j])) {
      RoundsGetCloser(cfg, orders, stores, 3);
      DistanceOne(cfg, orders[3], stores[3]);
      assert Ready(Pass(cfg, orders[3], stores[3]));
    }
  }

  lemma DistanceOne(cfg: Config, order: Order, e: Store)
    requires Pending(cfg, e) && Clear(cfg, e) && Settled(cfg, e) && Distance(cfg, e) <= 1
    ensures Ready(Pass(cfg, order, e))
  {
    FromTemplate(cfg, order, e);
  }

  // ---------------------------------------------------------------- deletion

  /** One pass without failures completes the deletion of a request: no snapshot of its own and no request remain. */
  lemma DeletionCompletes(cfg: Config, order: Order, store: Store)
    requires StoreInv(cfg, store) && Held(store) && store.req.value.deleting
    ensures Pass(cfg, order, store).req.None? && !OwnSnapshot(cfg, Pass(cfg, order, store))
  {
    var s := State(store, Begin(cfg, store));
    RestStep(cfg, order, s);
    if cfg.IsValid() {
      RestStep(cfg, order, Ok(cfg, order, s));
    }
  }

  // ---------------------------------------------------------------- foreign snapshots

  /** Exactly when a pass takes away somebody else's snapshot that holds the name of the request's snapshot: the
      request is valid and either is being deleted with its finalizer on, or has its template but is not yet
      terminal. */
  lemma PassTakesForeignIff(cfg: Config, order: Order, store: Store)
    requires StoreInv(cfg, store) && store.snap.Some? && store.snap.value.uid != cfg.uid
    ensures Pass(cfg, order, store).snap != store.snap <==> WillDeleteByName(cfg, store)
  {
    var s := State(store, Begin(cfg, store));
    if store.req.Some? && !store.req.value.deleting && ShouldReconcile(store.req.value.status) && cfg.IsValid() {
      PendingTakesForeignIff(cfg, order, store);
    } else {
      hide StoreInv, Settle;
      EndsSoon(cfg, order, s);
    }
  }

  predicate IsLast(pc: Pc) { pc.Idle? || pc.DeleteRequest? || pc.PatchStatus? || pc.RemoveFinalizer? }

  /** The last call of a pass leaves the snapshot alone. */
  lemma LastCallKeepsSnapshot(cfg: Config, order: Order, s: State)
    requires IsLast(s.pc)
    ensures Rest(cfg, order, s).store.snap == s.store.snap
  {
    if !s.pc.Idle? {
      RestStep(cfg, order, s);
      assert Ok(cfg, order, s).pc.Idle?;
    }
  }

  /** A pass that does not come to the pass proper deletes by name exactly when it cleans up. */
  lemma EndsSoon(cfg: Config, order: Order, s: State)
    requires s == State(s.store, Begin(cfg, s.store))
    requires !(s.store.req.Some? && !s.store.req.value.deleting && ShouldReconcile(s.store.req.value.status)
             && cfg.IsValid())
    ensures var r := s.store.req;
            Rest(cfg, order, s).store.snap ==
              if r.Some? && r.value.deleting && r.value.finalizer && cfg.IsValid() then None else s.store.snap
  {
    hide Settle, Rest, StoreInv, Ttl, RejectSpec;
    if IsLast(s.pc) {
      LastCallKeepsSnapshot(cfg, order, s);
    } else {
      assert s.pc.AddFinalizer? || s.pc.CleanSnapshot?;
      RestStep(cfg, order, s);
      var s1 := Ok(cfg, order, s);
      assert IsLast(s1.pc) && s1.store.snap == if s.pc.CleanSnapshot? then None else s.store.snap;
      LastCallKeepsSnapshot(cfg, order, s1);
      hide Ok, Succeed;
    }
  }

  lemma PendingTakesForeignIff(cfg: Config, order: Order, store: Store)
    requires Pending(cfg, store) && store.snap.Some? && store.snap.value.uid != cfg.uid
    ensures Pass(cfg, order, store).snap != store.snap <==> OwnTemplate(cfg, store)
  {
    PassStarts(cfg, order, store);
    var held, w := WithFinalizer(store), StartStatus(store);
    assert StoreInv(cfg, held);
    hide Pass, Rest, StoreInv, Settle;
    RestStep(cfg, order, State(held, GetTemplate(w)));
    if OwnTemplate(cfg, store) {
      PassHandsOver(cfg, order, held, w.(templateRef := Some(cfg.templateName)), store.tpl.value);
    } else if store.tpl.Some? {
      PassEnds(cfg, order, held, Settle(GiveUp(w, held.now), true, held.now));
    } else {
      RestStep(cfg, order, State(held, GetSnapshot(w)));
      PassEnds(cfg, order, held, Settle(GiveUp(w, held.now), true, held.now));
    }
  }
}
