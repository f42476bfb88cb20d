/** What the invariant means for a user, step by step and over whole runs. */
module Guarantees {
  import opened Wrappers
  import opened Cluster
  import opened Conditions
  import opened Reconciler
  import opened Safety
  import opened History

  // ---------------------------------------------------------------- snapshots

  /** No snapshot outlives its request: wherever calls fail and whenever the user deletes, a request whose snapshot
      exists still exists and carries the cleanup finalizer. */
  lemma NoSnapshotOutlivesItsRequest(cfg: Config, run: seq<State>, k: nat)
    requires IsRun(cfg, run) && k < |run|
    ensures OwnSnapshot(cfg, run[k].store) ==> Held(run[k].store)
  {
    RunHolds(cfg, run, k);
  }

  /** Only the two delete calls take a snapshot away: in the pass proper with the template in place, or on deletion. */
  lemma SnapshotIsOnlyDeletedWhenSpent(cfg: Config, s: State, s': State)
    requires Inv(cfg, s) && Next(cfg, s, s') && OwnSnapshot(cfg, s.store) && !OwnSnapshot(cfg, s'.store)
    ensures OwnTemplate(cfg, s'.store) || (s.store.req.Some? && s.store.req.value.deleting)
    ensures (s.pc.DeleteSnapshot? || s.pc.CleanSnapshot?) && s'.store.req == s.store.req
  {
    hide Consistent, Settle, Clonable, StateOf;
  }

  /** The delete calls go by name alone: a successful call takes a foreign snapshot away exactly when it is one of them,
      and nothing else the controller does touches a foreign snapshot. */
  lemma ForeignSnapshotGoesIff(cfg: Config, s: State, pick: string)
    requires s.store.snap.Some? && s.store.snap.value.uid != cfg.uid
    ensures Succeed(cfg, s, pick).store.snap != s.store.snap <==> s.pc.DeleteSnapshot? || s.pc.CleanSnapshot?
    ensures Fail(s).store == s.store && StartPoll(s).store == s.store
  {
    hide Clonable, Settle, StateOf, HandedOver, IsControlledBy, Examine, UseContent, CloneFrom, CheckFrom, Begin,
         AfterFinalizer;
  }

  /** At this instant the controller takes a snapshot that is not the request's: its call succeeds and the snapshot is
      gone. */
  ghost predicate TakesForeign(cfg: Config, run: seq<State>, k: nat)
    requires k + 1 < |run|
  {
    && run[k].store.snap.Some? && run[k].store.snap.value.uid != cfg.uid
    && (exists pick :: run[k + 1] == Succeed(cfg, run[k], pick))
    && run[k + 1].store.snap != run[k].store.snap
  }

  /** A delete call is made while somebody else's snapshot holds the name. */
  ghost predicate DeletesForeign(cfg: Config, run: seq<State>, k: nat)
    requires k + 1 < |run|
  {
    && run[k].store.snap.Some? && run[k].store.snap.value.uid != cfg.uid
    && (run[k].pc.DeleteSnapshot? || run[k].pc.CleanSnapshot?)
    && (exists pick :: run[k + 1] == Succeed(cfg, run[k], pick))
  }

  lemma DeleteIsForetold(cfg: Config, s: State)
    requires Inv(cfg, s) && (s.pc.DeleteSnapshot? || s.pc.CleanSnapshot?)
    ensures WillDeleteByName(cfg, s.store)
  {
    hide StoreInv, Consistent;
  }

  /** Over whole runs: the controller never takes a foreign snapshot if and only if none holds the name of the request's
      snapshot at an instant at which a delete call is made; and whenever it does, the store shows that it would. */
  lemma ForeignSnapshotsAreSafeIff(cfg: Config, run: seq<State>)
    requires IsRun(cfg, run)
    ensures (forall k :: 0 <= k < |run| - 1 ==> !TakesForeign(cfg, run, k))
            <==> (forall k :: 0 <= k < |run| - 1 ==> !DeletesForeign(cfg, run, k))
    ensures forall k :: 0 <= k < |run| - 1 && TakesForeign(cfg, run, k) ==> WillDeleteByName(cfg, run[k].store)
  {
    forall k | 0 <= k < |run| - 1
      ensures TakesForeign(cfg, run, k) <==> DeletesForeign(cfg, run, k)
      ensures TakesForeign(cfg, run, k) ==> WillDeleteByName(cfg, run[k].store)
    {
      RunHolds(cfg, run, k);
      hide Inv;
      if run[k].pc.DeleteSnapshot? || run[k].pc.CleanSnapshot? {
        DeleteIsForetold(cfg, run[k]);
      }
      hide WillDeleteByName;
      if pick :| run[k + 1] == Succeed(cfg, run[k], pick) {
        if run[k].store.snap.Some? && run[k].store.snap.value.uid != cfg.uid {
          ForeignSnapshotGoesIff(cfg, run[k], pick);
        }
      }
      hide Succeed;
    }
    hide TakesForeign, DeletesForeign;
  }

  /** The step that brings the template into being. */
  lemma TemplateStep(cfg: Config, s: State, s': State)
    requires Inv(cfg, s) && Next(cfg, s, s') && !OwnTemplate(cfg, s.store) && OwnTemplate(cfg, s'.store)
    ensures s.pc.CreateTemplate? && ClonesReady(cfg, s'.store, s.pc.c, |Clonable(s.pc.c)|)
  {
    hide Consistent, Settle, Clonable, StateOf;
  }

  /** The controller writes the template only when each volume to be cloned of the content that the request's own, ready
      snapshot named has a Ready clone of this request. */
  lemma TemplateNeedsReadyClones(cfg: Config, run: seq<State>, k: nat)
    requires IsRun(cfg, run) && k + 1 < |run| && !OwnTemplate(cfg, run[k].store) && OwnTemplate(cfg, run[k + 1].store)
    ensures run[k].pc.CreateTemplate? && Recorded(cfg, run, k, run[k].pc.c)
    ensures ClonesReady(cfg, run[k + 1].store, run[k].pc.c, |Clonable(run[k].pc.c)|)
  {
    RunHolds(cfg, run, k);
    RunStep(cfg, run, k);
    ContentIsRecorded(cfg, run, k);
    hide Inv, Next, IsRun, Clonable, Recorded;
    TemplateStep(cfg, run[k], run[k + 1]);
  }

  lemma StepKeepsClones(cfg: Config, s: State, s': State, c: Content)
    requires Next(cfg, s, s') && s'.store.req.Some? && ClonesReady(cfg, s.store, c, |Clonable(c)|)
    ensures ClonesReady(cfg, s'.store, c, |Clonable(c)|)
  {
    hide Clonable, Settle, StateOf, HandedOver, IsControlledBy, Examine, UseContent, CloneFrom, CheckFrom, Begin,
         AfterFinalizer;
    var i := |Clonable(c)|;
    if s'.pc == s.pc && EnvStep(cfg, s.store, s'.store) {
      EnvKeepsClones(cfg, s.store, s'.store, c, i);
    }
  }

  /** As long as the request exists, a template of its own stands for a content that the request's own, ready snapshot
      named, and all of whose volumes still have a Ready clone. */
  lemma {:induction false} TemplateStandsForReadyClones(cfg: Config, run: seq<State>, k: nat)
    requires IsRun(cfg, run) && k < |run| && run[k].store.req.Some? && OwnTemplate(cfg, run[k].store)
    ensures exists c :: Recorded(cfg, run, k, c) && ClonesReady(cfg, run[k].store, c, |Clonable(c)|)
  {
    hide *;
    NoTemplateAtStart(cfg, run);
    if k > 0 {
      var s, s' := run[k - 1], run[k];
      RunStep(cfg, run, k - 1);
      if OwnTemplate(cfg, s.store) {
        RequestNeverReturns(cfg, s, s');
        TemplateStandsForReadyClones(cfg, run, k - 1);
        var c :| Recorded(cfg, run, k - 1, c) && ClonesReady(cfg, s.store, c, |Clonable(c)|);
        StepKeepsClones(cfg, s, s', c);
        RecordedLater(cfg, run, k - 1, k, c);
      } else {
        TemplateNeedsReadyClones(cfg, run, k - 1);
        RecordedLater(cfg, run, k - 1, k, s.pc.c);
      }
    }
  }

  lemma NoTemplateAtStart(cfg: Config, run: seq<State>)
    requires IsRun(cfg, run)
    ensures !OwnTemplate(cfg, run[0].store)
  {
  }

  /** No clone loses its source: unless the request is being deleted, its snapshot only goes away when each volume to be
      cloned of a content it named, being ready, has a Ready clone. */
  lemma NoCloneLosesItsSource(cfg: Config, run: seq<State>, k: nat)
    requires IsRun(cfg, run) && k + 1 < |run| && OwnSnapshot(cfg, run[k].store) && !OwnSnapshot(cfg, run[k + 1].store)
    ensures (run[k].store.req.Some? && run[k].store.req.value.deleting)
         || exists c :: Recorded(cfg, run, k + 1, c) && ClonesReady(cfg, run[k + 1].store, c, |Clonable(c)|)
  {
    NoSnapshotOutlivesItsRequest(cfg, run, k);
    RunHolds(cfg, run, k);
    RunStep(cfg, run, k);
    hide Inv, Next, IsRun, Clonable, ClonesReady, Recorded;
    SnapshotIsOnlyDeletedWhenSpent(cfg, run[k], run[k + 1]);
    if !run[k].store.req.value.deleting {
      TemplateStandsForReadyClones(cfg, run, k + 1);
    }
  }

  lemma RequestNeverReturns(cfg: Config, s: State, s': State)
    requires Next(cfg, s, s') && s'.store.req.Some?
    ensures s.store.req.Some?
  {
    hide Clonable, Settle, StateOf, HandedOver, IsControlledBy, Examine, UseContent, CloneFrom, CheckFrom, Begin,
         AfterFinalizer;
  }

  // ---------------------------------------------------------------- ownership

  /** Each volume of the request has exactly one controller at every instant: the request, or the template
      it created. */
  lemma OneControllerEach(cfg: Config, run: seq<State>, k: nat, n: string)
    requires IsRun(cfg, run) && k < |run| && n in run[k].store.dvs && run[k].store.dvs[n].uid == cfg.uid
    ensures var cs := Controllers(run[k].store.dvs[n].owners);
            cs == [TheRequest] || (cs == [TheTemplate] && OwnTemplate(cfg, run[k].store))
  {
    RunHolds(cfg, run, k);
    var owners := run[k].store.dvs[n].owners;
    assert owners[1..] == [];
  }

  /** Control moves from the request to the template and never back. */
  lemma ControlMovesOneWay(cfg: Config, s: State, s': State, n: string)
    requires Inv(cfg, s) && Next(cfg, s, s') && n in s.store.dvs && s.store.dvs[n].uid == cfg.uid
             && ByTemplate(s.store.dvs[n])
    requires n in s'.store.dvs && s'.store.dvs[n].uid == cfg.uid
    ensures ByTemplate(s'.store.dvs[n])
  {
    HandOver(s.store.dvs[n]);
    hide Clonable, Settle, StateOf, HandedOver, IsControlledBy, Examine, UseContent, CloneFrom, CheckFrom, Begin,
         AfterFinalizer, Consistent;
  }

  /** Volumes stay while the request does, and none is created once it is gone. */
  lemma VolumesStay(cfg: Config, s: State, s': State, n: string)
    requires Inv(cfg, s) && Next(cfg, s, s')
    ensures Owned(cfg, s.store, n) && s'.store.req.Some? ==> Owned(cfg, s'.store, n)
    ensures !Owned(cfg, s.store, n) && s.store.req.None? ==> !Owned(cfg, s'.store, n)
  {
    hide Settle, StateOf, HandedOver, IsControlledBy, Examine, UseContent, CloneFrom, CheckFrom, Begin, AfterFinalizer,
         Consistent;
    hide ClonesExist, ClonesReady, AllByTemplate, Clonable;
  }

  /** The template has taken the volume over: it is there as long as the request is, and the template controls it. */
  predicate TakenOver(cfg: Config, store: Store, n: string) {
    && (store.req.Some? ==> Owned(cfg, store, n))
    && (Owned(cfg, store, n) ==> ByTemplate(store.dvs[n]))
  }

  lemma StaysTakenOver(cfg: Config, s: State, s': State, n: string)
    requires Inv(cfg, s) && Next(cfg, s, s') && TakenOver(cfg, s.store, n)
    ensures TakenOver(cfg, s'.store, n)
  {
    hide Inv, Next, ByTemplate;
    VolumesStay(cfg, s, s', n);
    if s'.store.req.Some? {
      RequestNeverReturns(cfg, s, s');
    }
    if Owned(cfg, s.store, n) && Owned(cfg, s'.store, n) {
      ControlMovesOneWay(cfg, s, s', n);
    }
  }

  /** Over whole runs: what the template has taken over, it keeps. */
  lemma {:induction false} TemplateKeepsControl(cfg: Config, run: seq<State>, j: nat, k: nat, n: string)
    requires IsRun(cfg, run) && j <= k < |run| && TakenOver(cfg, run[j].store, n)
    ensures TakenOver(cfg, run[k].store, n)
    decreases k
  {
    hide *;
    if j < k {
      RunStep(cfg, run, k - 1);
      RunHolds(cfg, run, k - 1);
      TemplateKeepsControl(cfg, run, j, k - 1, n);
      StaysTakenOver(cfg, run[k - 1], run[k], n);
    }
  }

  /** Whenever Ready=True is written or stands, all volumes are the template's, the reference names the template, which
      carries the request's UID, and the snapshot is gone. */
  lemma ReadyMeansDelivered(cfg: Config, run: seq<State>, k: nat)
    requires IsRun(cfg, run) && k < |run|
    ensures run[k].store.req.Some? && IsReady(run[k].store.req.value.status) ==>
              Delivered(cfg, run[k].store, run[k].store.req.value.status)
    ensures run[k].pc.PatchStatus? && IsReady(run[k].pc.w) ==> Delivered(cfg, run[k].store, run[k].pc.w)
  {
    RunHolds(cfg, run, k);
  }

  // ---------------------------------------------------------------- status

  /** In every state of every run the two conditions agree with each other. */
  lemma StatusIsAlwaysConsistent(cfg: Config, run: seq<State>, k: nat)
    requires IsRun(cfg, run) && k < |run| && run[k].store.req.Some?
    ensures Consistent(run[k].store.req.value.status)
  {
    RunHolds(cfg, run, k);
  }

  predicate Terminal(s: State) { s.store.req.Some? && !ShouldReconcile(s.store.req.value.status) }

  /** Progressing=False is absorbing: no step of anybody changes the status again. */
  lemma TerminalIsAbsorbing(cfg: Config, s: State, s': State)
    requires Inv(cfg, s) && Terminal(s) && Next(cfg, s, s') && s'.store.req.Some?
    ensures s'.store.req.value.status == s.store.req.value.status
  {
    hide Clonable, Settle, StateOf, HandedOver, IsControlledBy, Examine, UseContent, CloneFrom, CheckFrom, Begin,
         Consistent;
  }

  /** Until the user deletes a terminal request, neither the controller nor the poll touches anything but, at the end of
      its TTL, the request itself. */
  lemma TerminalIsLeftAlone(cfg: Config, s: State, pick: string)
    requires Inv(cfg, s) && Terminal(s) && !s.store.req.value.deleting
    ensures var s' := Succeed(cfg, s, pick); s'.store == s.store.(req := s'.store.req)
    ensures Succeed(cfg, s, pick).store == s.store || s.pc.DeleteRequest? || s.pc.AddFinalizer?
    ensures Fail(s).store == s.store && StartPoll(s) == s
  {
    hide Clonable, Settle, StateOf, HandedOver, IsControlledBy, Examine, UseContent, CloneFrom, CheckFrom, Begin,
         Consistent;
  }

  lemma SameStatusSameTerminal(a: State, b: State)
    requires Terminal(a) && a.store.req.Some? && b.store.req.Some?
             && b.store.req.value.status == a.store.req.value.status
    ensures Terminal(b)
  {
  }

  lemma {:induction false} TerminalStaysTerminal(cfg: Config, run: seq<State>, j: nat, k: nat)
    requires IsRun(cfg, run) && j <= k < |run| && run[j].store.req.Some? && Terminal(run[j]) && run[k].store.req.Some?
    ensures run[k].store.req.value.status == run[j].store.req.value.status
    decreases k
  {
    hide *;
    if j < k {
      RunStep(cfg, run, k - 1);
      RequestNeverReturns(cfg, run[k - 1], run[k]);
      TerminalStaysTerminal(cfg, run, j, k - 1);
      SameStatusSameTerminal(run[j], run[k - 1]);
      RunHolds(cfg, run, k - 1);
      TerminalIsAbsorbing(cfg, run[k - 1], run[k]);
    }
  }

  // ---------------------------------------------------------------- time to live

  /** The controller itself deletes a request only when Ready is True and its transition lies at least the TTL back. */
  lemma ControllerDeletesOnlyExpired(cfg: Config, s: State, pick: string)
    requires Inv(cfg, s) && s.store.req.Some? && !s.store.req.value.deleting
    requires var s' := Succeed(cfg, s, pick); s'.store.req.None? || s'.store.req.value.deleting
    ensures s.pc.DeleteRequest? && cfg.ttl.Some? && IsReady(s.store.req.value.status)
    ensures s.store.now >= s.store.req.value.status.ready.value.since + cfg.ttl.value * SECOND
  {
    hide Clonable, Settle, StateOf, HandedOver, IsControlledBy, Examine, UseContent, CloneFrom, CheckFrom, Begin,
         AfterFinalizer, Consistent;
  }

  /** A failed request is never deleted by the controller. */
  lemma FailedRequestsStay(cfg: Config, s: State, pick: string)
    requires Inv(cfg, s) && Terminal(s) && !IsReady(s.store.req.value.status) && !s.store.req.value.deleting
    ensures var s' := Succeed(cfg, s, pick); s'.store.req.Some? && !s'.store.req.value.deleting
  {
    var s' := Succeed(cfg, s, pick);
    if s'.store.req.None? || s'.store.req.value.deleting {
      ControllerDeletesOnlyExpired(cfg, s, pick);
      assert false;
    }
  }

  /** Once Ready is True its transition time never moves: the TTL runs from one fixed instant. */
  lemma ReadyTransitionIsFixed(cfg: Config, run: seq<State>, j: nat, k: nat)
    requires IsRun(cfg, run) && j <= k < |run| && run[j].store.req.Some? && run[k].store.req.Some?
    requires IsReady(run[j].store.req.value.status)
    ensures IsReady(run[k].store.req.value.status)
    ensures run[k].store.req.value.status.ready.value.since == run[j].store.req.value.status.ready.value.since
  {
    RunHolds(cfg, run, j);
    TerminalStaysTerminal(cfg, run, j, k);
  }

  /** Between passes, the next pass deletes a Ready request exactly when its stamp lies the TTL back. */
  lemma DeletesExactlyWhenExpired(cfg: Config, s: State)
    requires s.pc.Idle? && s.store.req.Some? && !s.store.req.value.deleting && s.store.req.value.finalizer
    requires Consistent(s.store.req.value.status) && IsReady(s.store.req.value.status)
    ensures Succeed(cfg, s, "").pc.DeleteRequest?
            <==> cfg.ttl.Some?
                 && s.store.now >= s.store.req.value.status.ready.value.since + cfg.ttl.value * 1_000_000_000
  {
  }

  /** At j a pass was about to delete the snapshot for a ready template; at p, later, its status patch landed. */
  ghost predicate DeliveredAt(run: seq<State>, j: nat, p: nat) {
    && j < p < |run| && run[j].pc.DeleteSnapshot? && run[j].pc.t.ready == Some(true)
    && run[p].pc.PatchStatus? && IsReady(run[p].pc.w) && run[p].pc.w.ready.value.since == run[j].store.now
    && run[p].store.req.Some? && !IsReady(run[p].store.req.value.status)
  }

  lemma LandedIsDelivered(run: seq<State>, k: nat, w: Status) returns (j: nat, p: nat)
    requires Landed(run, k, w) && IsReady(w) && k <= |run|
    ensures DeliveredAt(run, j, p) && p < k && run[p].pc.w == w
  {
    p :| 0 <= p < k && p < |run| && LandsAt(run, p, w);
    j :| 0 <= j < p && j < |run| && StampsAt(run[j], w.ready.value.since);
  }

  /** TTL safety over runs: when the controller itself deletes a request, the TTL has passed since a pass delivered it,
      that is, since that pass was about to delete the snapshot for a ready template. Ready stands from the landing of
      that pass's patch on, so for the TTL less the time the patch took, and in full if the patch landed at once. */
  lemma TtlRunsFromDelivery(cfg: Config, run: seq<State>, k: nat, pick: string) returns (j: nat, p: nat)
    requires IsRun(cfg, run) && k + 1 < |run| && run[k].store.req.Some? && !run[k].store.req.value.deleting
    requires run[k + 1] == Succeed(cfg, run[k], pick)
             && (run[k + 1].store.req.None? || run[k + 1].store.req.value.deleting)
    ensures cfg.ttl.Some? && DeliveredAt(run, j, p) && p < k
    ensures run[k].store.now - run[j].store.now >= cfg.ttl.value * SECOND
    ensures run[k].store.now - run[p].store.now >= cfg.ttl.value * SECOND - (run[p].store.now - run[j].store.now)
    ensures run[j].store.now <= run[p].store.now <= run[k].store.now
    ensures IsReady(run[k].store.req.value.status) && run[p].pc.w == run[k].store.req.value.status
  {
    RunHolds(cfg, run, k);
    hide IsRun, DeliveredAt, Landed;
    ControllerDeletesOnlyExpired(cfg, run[k], pick);
    hide Inv, Succeed;
    ReadyIsStamped(cfg, run, k);
    j, p := LandedIsDelivered(run, k, run[k].store.req.value.status);
    TimePasses(cfg, run, p, k);
    DeliveredInOrder(run, j, p);
    TimePasses(cfg, run, j, p);
  }

  lemma DeliveredInOrder(run: seq<State>, j: nat, p: nat)
    requires DeliveredAt(run, j, p)
    ensures j < p < |run| && run[p].pc.PatchStatus? && IsReady(run[p].pc.w)
            && run[p].pc.w.ready.value.since == run[j].store.now
  {
  }
}
