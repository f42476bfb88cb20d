/** Where things come from: what a state of a run owes to earlier states of the same run. */
module History {
  import opened Wrappers
  import opened Cluster
  import opened Conditions
  import opened Reconciler
  import opened Safety

  lemma RunStep(cfg: Config, run: seq<State>, k: nat)
    requires IsRun(cfg, run) && k + 1 < |run|
    ensures Next(cfg, run[k], run[k + 1])
  {
    hide Next, Init;
  }

  // ---------------------------------------------------------------- contents

  /** The request's own snapshot is ready and names its content. */
  predicate Gives(cfg: Config, store: Store, name: string) {
    && store.snap.Some? && store.snap.value.uid == cfg.uid && store.snap.value.status.Some?
    && store.snap.value.status.value.ready == Some(true) && store.snap.value.status.value.contentName == Some(name)
  }

  ghost predicate Given(cfg: Config, run: seq<State>, k: nat, name: string) {
    exists i :: 0 <= i < k && i < |run| && Gives(cfg, run[i].store, name)
  }

  /** Before instant k, c was the content stored under the name that the request's own, ready snapshot gave. */
  ghost predicate Recorded(cfg: Config, run: seq<State>, k: nat, c: Content) {
    exists j :: 0 <= j < k && j < |run| && ReadAt(cfg, run, j, c)
  }

  ghost predicate ReadAt(cfg: Config, run: seq<State>, j: nat, c: Content)
    requires j < |run|
  {
    && run[j].pc.GetContent? && Given(cfg, run, j, run[j].pc.name)
    && run[j].pc.name in run[j].store.contents && run[j].store.contents[run[j].pc.name] == c
  }

  /** The content a pass is working on. */
  function ContentIn(pc: Pc): Option<Content> {
    match pc
    case GetVolume(_, c, _) => Some(c)
    case CreateVolume(_, c, _) => Some(c)
    case CheckVolume(_, c, _) => Some(c)
    case ExpandSpec(_, c) => Some(c)
    case CreateTemplate(_, c) => Some(c)
    case _ => None
  }

  /** Exactly when a pass goes on from the snapshot to its content: the snapshot is the request's own, its Ready
      condition is True, and it names a content. A snapshot that is merely in progress is waited for. */
  lemma ContentIsLookedUpIff(cfg: Config, s: State, pick: string, name: string)
    requires s.pc.GetSnapshot?
    ensures Succeed(cfg, s, pick).pc == GetContent(s.pc.w, name) <==> Gives(cfg, s.store, name) && name != ""
    ensures Succeed(cfg, s, pick).store == s.store
  {
  }

  /** Where the two things a pass remembers about contents come from. */
  lemma ContentStep(cfg: Config, s: State, s': State)
    requires Next(cfg, s, s')
    ensures s'.pc.GetContent? ==>
              (s.pc.GetContent? && s.pc.name == s'.pc.name) || (s.pc.GetSnapshot? && Gives(cfg, s.store, s'.pc.name))
    ensures ContentIn(s'.pc).Some? ==>
              || ContentIn(s.pc) == ContentIn(s'.pc)
              || (s.pc.GetContent? && s.pc.name in s.store.contents
                  && s.store.contents[s.pc.name] == ContentIn(s'.pc).value)
  {
    hide Clonable, Settle, StateOf, HandedOver, IsControlledBy, SetReady, GiveUp, Ttl;
  }

  /** Whatever content a pass works on was read under the name that the request's own snapshot gave. */
  lemma {:induction false} ContentIsRecorded(cfg: Config, run: seq<State>, k: nat)
    requires IsRun(cfg, run) && k < |run|
    ensures run[k].pc.GetContent? ==> Given(cfg, run, k, run[k].pc.name)
    ensures ContentIn(run[k].pc).Some? ==> Recorded(cfg, run, k, ContentIn(run[k].pc).value)
  {
    if k > 0 {
      var s, s' := run[k - 1], run[k];
      ContentIsRecorded(cfg, run, k - 1);
      RunStep(cfg, run, k - 1);
      ContentStep(cfg, s, s');
      hide Next, IsRun, ContentIn, Gives;
      if s'.pc.GetContent? && s.pc.GetSnapshot? {
        assert Gives(cfg, run[k - 1].store, s'.pc.name);
      }
      if ContentIn(s'.pc).Some? && ContentIn(s.pc) != ContentIn(s'.pc) {
        assert ReadAt(cfg, run, k - 1, ContentIn(s'.pc).value);
      }
    } else {
      assert run[0].pc.Idle?;
    }
  }

  lemma RecordedLater(cfg: Config, run: seq<State>, j: nat, k: nat, c: Content)
    requires j <= k && Recorded(cfg, run, j, c)
    ensures Recorded(cfg, run, k, c)
  {
    hide ReadAt;
  }

  // ---------------------------------------------------------------- clones

  predicate Owned(cfg: Config, store: Store, n: string) { n in store.dvs && store.dvs[n].uid == cfg.uid }

  /** The state is about to create n as a clone of the snapshot `source`, which a backup of its content names. */
  predicate Creates(cfg: Config, s: State, n: string, source: string) {
    && s.pc.CreateVolume? && s.pc.i < |Clonable(s.pc.c)|
    && cfg.cloneName(Clonable(s.pc.c)[s.pc.i].name) == n && Clonable(s.pc.c)[s.pc.i].snapshotName == Some(source)
  }

  ghost predicate MadeFrom(cfg: Config, run: seq<State>, k: nat, n: string, source: string) {
    exists j :: 0 <= j < k && j < |run| && MadeAt(cfg, run, j, n, source)
  }

  ghost predicate MadeAt(cfg: Config, run: seq<State>, j: nat, n: string, source: string)
    requires j < |run|
  {
    Creates(cfg, run[j], n, source) && Recorded(cfg, run, j, run[j].pc.c)
  }

  lemma VolumeStep(cfg: Config, s: State, s': State, n: string)
    requires Next(cfg, s, s') && Owned(cfg, s'.store, n)
    ensures n in s'.store.dvs
    ensures (Owned(cfg, s.store, n) && n in s.store.dvs && s.store.dvs[n].source == s'.store.dvs[n].source)
            || Creates(cfg, s, n, s'.store.dvs[n].source)
  {
    hide Clonable, Settle, StateOf, HandedOver, IsControlledBy, Examine, UseContent, CloneFrom, CheckFrom, Begin,
         AfterFinalizer;
  }

  /** Every volume of the request was created as the clone of the very snapshot that the recorded content named for a
      backup of that clone name, and it keeps that source. */
  lemma {:induction false} CloneKeepsItsSource(cfg: Config, run: seq<State>, k: nat, n: string)
    requires IsRun(cfg, run) && k < |run| && Owned(cfg, run[k].store, n)
    ensures n in run[k].store.dvs && MadeFrom(cfg, run, k, n, run[k].store.dvs[n].source)
  {
    OwnedIsThere(cfg, run[k].store, n);
    hide *;
    NoVolumeAtStart(cfg, run, n);
    if k > 0 {
      var source := run[k].store.dvs[n].source;
      RunStep(cfg, run, k - 1);
      VolumeStep(cfg, run[k - 1], run[k], n);
      if Creates(cfg, run[k - 1], n, source) {
        ContentIsRecorded(cfg, run, k - 1);
        MadeNow(cfg, run, k - 1, n, source);
      } else {
        CloneKeepsItsSource(cfg, run, k - 1, n);
        MadeEarlier(cfg, run, k - 1, n, source);
      }
    }
  }

  lemma OwnedIsThere(cfg: Config, store: Store, n: string)
    requires Owned(cfg, store, n)
    ensures n in store.dvs
  {
  }

  lemma NoVolumeAtStart(cfg: Config, run: seq<State>, n: string)
    requires IsRun(cfg, run)
    ensures !Owned(cfg, run[0].store, n)
  {
  }

  lemma MadeNow(cfg: Config, run: seq<State>, j: nat, n: string, source: string)
    requires j < |run| && Creates(cfg, run[j], n, source)
    requires ContentIn(run[j].pc).Some? ==> Recorded(cfg, run, j, ContentIn(run[j].pc).value)
    ensures MadeFrom(cfg, run, j + 1, n, source)
  {
    hide Recorded, Clonable;
    assert MadeAt(cfg, run, j, n, source);
  }

  lemma MadeEarlier(cfg: Config, run: seq<State>, k: nat, n: string, source: string)
    requires MadeFrom(cfg, run, k, n, source)
    ensures MadeFrom(cfg, run, k + 1, n, source)
  {
    hide MadeAt;
  }

  /** No run ever dereferences the name of a snapshot that is not there: the check made for the whole content, in
      another function and before the first clone, covers each of them. */
  lemma NeverPanics(cfg: Config, run: seq<State>, k: nat)
    requires IsRun(cfg, run) && k < |run|
    ensures !run[k].pc.Panicked?
    ensures run[k].pc.CreateVolume? ==>
            run[k].pc.i < |Clonable(run[k].pc.c)| && Clonable(run[k].pc.c)[run[k].pc.i].snapshotName.Some?
  {
    RunHolds(cfg, run, k);
    if run[k].pc.CreateVolume? {
      UsableIsNamed(run[k].pc.c, run[k].pc.i);
    }
  }

  // ---------------------------------------------------------------- stamps

  predicate IsStatus(s: State, w: Status) { s.store.req.Some? && s.store.req.value.status == w }

  /** Before instant k a pass was about to delete the snapshot for a ready template, and its clock showed `since`. */
  ghost predicate Stamped(run: seq<State>, k: nat, since: int) {
    exists j :: 0 <= j < k && j < |run| && StampsAt(run[j], since)
  }

  predicate StampsAt(s: State, since: int) {
    s.pc.DeleteSnapshot? && s.pc.t.ready == Some(true) && s.store.now == since
  }

  /** Before instant k the patch landed that made w the status. */
  ghost predicate Landed(run: seq<State>, k: nat, w: Status) {
    exists p :: 0 <= p < k && p < |run| && LandsAt(run, p, w)
  }

  ghost predicate LandsAt(run: seq<State>, p: nat, w: Status)
    requires p < |run|
  {
    && run[p].pc == PatchStatus(w) && run[p].store.req.Some? && !IsReady(run[p].store.req.value.status)
    && Stamped(run, p, ReadySince(w))
  }

  lemma StampStep(cfg: Config, s: State, s': State)
    requires Inv(cfg, s) && Next(cfg, s, s')
    ensures s'.pc.PatchStatus? && IsReady(s'.pc.w) ==> s.pc == s'.pc || StampsAt(s, ReadySince(s'.pc.w))
    ensures s'.store.req.Some? && IsReady(s'.store.req.value.status) ==>
              IsStatus(s, s'.store.req.value.status) || s.pc == PatchStatus(s'.store.req.value.status)
    ensures s.pc.PatchStatus? ==> s.store.req.Some? && !IsReady(s.store.req.value.status)
  {
    if s'.pc.PatchStatus? && IsReady(s'.pc.w) {
      StampStepPc(cfg, s, s');
    }
    hide Clonable, Settle, StateOf, HandedOver, IsControlledBy, Examine, UseContent, CloneFrom, CheckFrom, Begin,
         AfterFinalizer;
    hide ClonesExist, ClonesReady, AllByTemplate, StampsAt;
  }

  lemma StampStepPc(cfg: Config, s: State, s': State)
    requires Inv(cfg, s) && Next(cfg, s, s') && s'.pc.PatchStatus? && IsReady(s'.pc.w)
    ensures s.pc == s'.pc || StampsAt(s, ReadySince(s'.pc.w))
  {
  }

  /** Ready=True carries a stamp of the clock: wherever it is about to be written, or stands, a pass read that time
      when it was about to delete the snapshot for a ready template, and the patch landed afterwards. */
  lemma {:induction false} ReadyIsStamped(cfg: Config, run: seq<State>, k: nat)
    requires IsRun(cfg, run) && k < |run|
    ensures run[k].pc.PatchStatus? && IsReady(run[k].pc.w) ==> Stamped(run, k, ReadySince(run[k].pc.w))
    ensures run[k].store.req.Some? && IsReady(run[k].store.req.value.status) ==>
            Landed(run, k, run[k].store.req.value.status)
  {
    StartIsNotReady(cfg, run);
    hide *;
    if k > 0 {
      var s, s' := run[k - 1], run[k];
      ReadyIsStamped(cfg, run, k - 1);
      RunStep(cfg, run, k - 1);
      RunHolds(cfg, run, k - 1);
      StampStep(cfg, s, s');
      if s'.pc.PatchStatus? && IsReady(s'.pc.w) {
        StampedNext(run, k - 1, ReadySince(s'.pc.w));
      }
      if s'.store.req.Some? && IsReady(s'.store.req.value.status) {
        LandedNext(run, k - 1, s'.store.req.value.status);
      }
    }
  }

  /** The transition time of a Ready condition. */
  function ReadySince(w: Status): int { if w.ready.Some? then w.ready.value.since else 0 }

  lemma StartIsNotReady(cfg: Config, run: seq<State>)
    requires IsRun(cfg, run)
    ensures run[0].pc.Idle? && (run[0].store.req.Some? ==> !IsReady(run[0].store.req.value.status))
  {
  }

  lemma StampedNext(run: seq<State>, k: nat, since: int)
    requires k < |run| && (Stamped(run, k, since) || StampsAt(run[k], since))
    ensures Stamped(run, k + 1, since)
  {
    hide StampsAt;
  }

  lemma LandedNext(run: seq<State>, k: nat, w: Status)
    requires k < |run| && IsReady(w)
    requires run[k].pc.PatchStatus? ==> run[k].store.req.Some? && !IsReady(run[k].store.req.value.status)
    requires (IsStatus(run[k], w)
             && (run[k].store.req.Some? && IsReady(run[k].store.req.value.status) ==>
                 Landed(run, k, run[k].store.req.value.status)))
             || (run[k].pc == PatchStatus(w) && Stamped(run, k, ReadySince(w)))
    ensures Landed(run, k + 1, w)
  {
    hide Stamped;
    if run[k].pc == PatchStatus(w) && Stamped(run, k, ReadySince(w)) {
      assert LandsAt(run, k, w);
    }
    hide LandsAt;
  }

  lemma TimeStep(cfg: Config, s: State, s': State)
    requires Next(cfg, s, s')
    ensures s.store.now <= s'.store.now
  {
    hide Clonable, Settle, StateOf, HandedOver, IsControlledBy, Examine, UseContent, CloneFrom, CheckFrom, Begin,
         AfterFinalizer;
  }

  lemma {:induction false} TimePasses(cfg: Config, run: seq<State>, j: nat, k: nat)
    requires IsRun(cfg, run) && j <= k < |run|
    ensures run[j].store.now <= run[k].store.now
    decreases k
  {
    hide *;
    if j < k {
      RunStep(cfg, run, k - 1);
      TimeStep(cfg, run[k - 1], run[k]);
      TimePasses(cfg, run, j, k - 1);
    }
  }
}
