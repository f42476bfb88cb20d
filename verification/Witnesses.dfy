/** Runs that show why two of the guarantees say no more than they do. */
module Witnesses {
  import opened Wrappers
  import opened Cluster
  import opened Conditions
  import opened Reconciler
  import opened Safety
  import opened History
  import opened Guarantees

  ghost predicate Reachable(cfg: Config, s: State) { exists run :: EndsIn(cfg, run, s) }

  ghost predicate EndsIn(cfg: Config, run: seq<State>, s: State) { IsRun(cfg, run) && run[|run| - 1] == s }

  lemma OneMore(cfg: Config, run: seq<State>, s: State, s': State)
    requires EndsIn(cfg, run, s) && Next(cfg, s, s')
    ensures EndsIn(cfg, run + [s'], s')
  {
    hide Next, Init;
    var longer := run + [s'];
    forall k | 0 <= k < |longer| - 1 ensures Next(cfg, longer[k], longer[k + 1]) {
      if k < |run| - 1 {
        assert Next(cfg, run[k], run[k + 1]);
      }
    }
  }

  lemma Reach(cfg: Config, s: State, s': State)
    requires Reachable(cfg, s) && Next(cfg, s, s')
    ensures Reachable(cfg, s')
  {
    hide Next, EndsIn;
    var run :| EndsIn(cfg, run, s);
    OneMore(cfg, run, s, s');
  }

  lemma ReachInit(cfg: Config, s: State)
    requires Init(cfg, s)
    ensures Reachable(cfg, s)
  {
    assert EndsIn(cfg, [s], s);
  }

  /** The next call succeeds. */
  lemma ReachOk(cfg: Config, s: State, s': State)
    requires Reachable(cfg, s) && s' == Succeed(cfg, s, "")
    ensures Reachable(cfg, s')
  {
    hide Succeed, Reachable;
    Reach(cfg, s, s');
  }

  /** The controller is cut off. */
  lemma ReachCrash(cfg: Config, s: State)
    requires Reachable(cfg, s)
    ensures Reachable(cfg, s.(pc := Idle))
  {
    hide Succeed, Reachable;
    Reach(cfg, s, s.(pc := Idle));
  }

  /** Somebody else acts. */
  lemma ReachEnv(cfg: Config, s: State, store: Store)
    requires Reachable(cfg, s) && EnvStep(cfg, s.store, store)
    ensures Reachable(cfg, s.(store := store))
  {
    hide Succeed, Reachable, EnvStep;
    Reach(cfg, s, s.(store := store));
  }

  // ---------------------------------------------------------------- a foreign snapshot

  const FRESH := Status(None, None, None)

  function FreshStore(finalizer: bool, deleting: bool, snap: Option<Snapshot>): Store {
    Store(Some(Request(deleting, finalizer, FRESH)), snap, map[], map[], None, 0)
  }

  /** Somebody's snapshot holds the name; the request gets its finalizer, the user deletes it, and cleaning up takes the
      snapshot that was never the request's. */
  lemma ForeignSnapshotIsTaken(cfg: Config, other: Snapshot) returns (run: seq<State>, k: nat)
    requires cfg.IsValid() && other.uid != cfg.uid
    ensures IsRun(cfg, run) && k + 1 < |run| && run[k].store.snap == Some(other) && run[k + 1].store.snap == None
    ensures TakesForeign(cfg, run, k)
  {
    var bare, held, dying := FreshStore(false, false, Some(other)), FreshStore(true, false, Some(other)),
        FreshStore(true, true, Some(other));
    ReachInit(cfg, State(bare, Idle));
    ReachOk(cfg, State(bare, Idle), State(bare, AddFinalizer));
    ReachOk(cfg, State(bare, AddFinalizer), State(held, GetTemplate(FRESH)));
    ReachCrash(cfg, State(held, GetTemplate(FRESH)));
    ReachEnv(cfg, State(held, Idle), dying);
    var s, s' := State(dying, CleanSnapshot), State(dying.(snap := None), RemoveFinalizer);
    ReachOk(cfg, State(dying, Idle), s);
    var before :| EndsIn(cfg, before, s);
    assert s' == Succeed(cfg, s, "");
    hide Succeed;
    OneMore(cfg, before, s, s');
    run, k := before + [s'], |before| - 1;
  }

  // ---------------------------------------------------------------- a late patch

  const CONTENT := "content"

  /** A content without volumes. */
  function Bare(): Content { Content(Some(true), [], true, true) }

  function ReadySnapshot(cfg: Config): Snapshot {
    Snapshot(cfg.uid, Some(SnapshotStatus(Some(true), None, None, false, false, Some(CONTENT))))
  }

  /** The stages of a request for a VM without volumes. */
  function Stage(snap: Option<Snapshot>, tpl: Option<Template>): Store {
    Store(Some(Request(false, true, FRESH)), snap, map[CONTENT := Bare()], map[], tpl, 0)
  }

  lemma ReachSnapshot(cfg: Config)
    requires cfg.IsValid()
    ensures Reachable(cfg, State(Stage(Some(ReadySnapshot(cfg)), None), Idle))
  {
    var bare := Stage(None, None).(req := Some(Request(false, false, FRESH)));
    var held, taken := Stage(None, None), Stage(Some(Snapshot(cfg.uid, None)), None);
    ReachInit(cfg, State(bare, Idle));
    ReachOk(cfg, State(bare, Idle), State(bare, AddFinalizer));
    ReachOk(cfg, State(bare, AddFinalizer), State(held, GetTemplate(FRESH)));
    ReachOk(cfg, State(held, GetTemplate(FRESH)), State(held, GetSnapshot(FRESH)));
    ReachOk(cfg, State(held, GetSnapshot(FRESH)), State(held, CreateSnapshot(FRESH)));
    var after := Succeed(cfg, State(held, CreateSnapshot(FRESH)), "");
    assert after.store == taken;
    ReachOk(cfg, State(held, CreateSnapshot(FRESH)), after);
    ReachCrash(cfg, after);
    ReachEnv(cfg, State(taken, Idle), Stage(Some(ReadySnapshot(cfg)), None));
  }

  lemma ReachTemplate(cfg: Config)
    requires cfg.IsValid()
    ensures Reachable(cfg, State(Stage(Some(ReadySnapshot(cfg)), Some(Template(cfg.uid, Some(true)))), Idle))
  {
    ReachSnapshot(cfg);
    hide Reachable;
    var store, c := Stage(Some(ReadySnapshot(cfg)), None), Bare();
    var written := Stage(Some(ReadySnapshot(cfg)), Some(Template(cfg.uid, None)));
    ReachOk(cfg, State(store, Idle), State(store, GetTemplate(FRESH)));
    ReachOk(cfg, State(store, GetTemplate(FRESH)), State(store, GetSnapshot(FRESH)));
    ReachOk(cfg, State(store, GetSnapshot(FRESH)), State(store, GetContent(FRESH, CONTENT)));
    assert StateOf(c).Usable? && Clonable(c) == [];
    ReachOk(cfg, State(store, GetContent(FRESH, CONTENT)), State(store, ExpandSpec(FRESH, c)));
    ReachOk(cfg, State(store, ExpandSpec(FRESH, c)), State(store, CreateTemplate(FRESH, c)));
    var w := FRESH.(templateRef := Some(cfg.templateName));
    ReachOk(cfg, State(store, CreateTemplate(FRESH, c)), State(written, ListVolumes(w, Template(cfg.uid, None))));
    ReachCrash(cfg, State(written, ListVolumes(w, Template(cfg.uid, None))));
    ReachEnv(cfg, State(written, Idle), Stage(Some(ReadySnapshot(cfg)), Some(Template(cfg.uid, Some(true)))));
  }

  /** The status the delivering pass is about to write, stamped at time 0. */
  function ReadyStatus(cfg: Config): Status {
    Status(Some(Condition(true, Reconciled, 0)), Some(Condition(false, Reconciled, 0)), Some(cfg.templateName))
  }

  /** The delivering pass, at time 0. */
  function Delivering(cfg: Config): State {
    var t := Template(cfg.uid, Some(true));
    State(Stage(Some(ReadySnapshot(cfg)), Some(t)), DeleteSnapshot(FRESH.(templateRef := Some(cfg.templateName)), t))
  }

  lemma ReachDelivery(cfg: Config)
    requires cfg.IsValid()
    ensures Reachable(cfg, Delivering(cfg))
  {
    ReachTemplate(cfg);
    hide Reachable;
    var t := Template(cfg.uid, Some(true));
    var store, w := Stage(Some(ReadySnapshot(cfg)), Some(t)), FRESH.(templateRef := Some(cfg.templateName));
    ReachOk(cfg, State(store, Idle), State(store, GetTemplate(FRESH)));
    ReachOk(cfg, State(store, GetTemplate(FRESH)), State(store, ListVolumes(w, t)));
    assert OwnVolumes(cfg, store) == {};
    ReachOk(cfg, State(store, ListVolumes(w, t)), State(store, PatchVolumes(w, t, {})));
    ReachOk(cfg, State(store, PatchVolumes(w, t, {})), State(store, DeleteSnapshot(w, t)));
  }

  /** What follows the delivery when its patch lands `lag` later and the next pass comes at `then`. */
  function Tail(cfg: Config, lag: nat, end: nat): seq<State> {
    var w, store := ReadyStatus(cfg), Stage(None, Some(Template(cfg.uid, Some(true))));
    var ready := store.(req := Some(Request(false, true, w)));
    [State(store, PatchStatus(w)), State(store.(now := lag), PatchStatus(w)), State(ready.(now := lag), Idle),
     State(ready.(now := end), Idle), State(ready.(now := end), DeleteRequest),
     State(ready.(now := end, req := Some(Request(true, true, w))), Idle)]
  }

  lemma TailSteps(cfg: Config, lag: nat, end: nat)
    requires cfg.ttl.Some? && lag <= end && cfg.ttl.value * SECOND <= end
    ensures var tail := Tail(cfg, lag, end);
            && |tail| == 6 && tail[0] == Succeed(cfg, Delivering(cfg), "") && tail[2] == Succeed(cfg, tail[1], "")
            && tail[4] == Succeed(cfg, tail[3], "") && tail[5] == Succeed(cfg, tail[4], "")
            && tail[1].pc == tail[0].pc && EnvStep(cfg, tail[0].store, tail[1].store)
            && tail[3].pc == tail[2].pc && EnvStep(cfg, tail[2].store, tail[3].store)
  {
  }

  lemma ManyMore(cfg: Config, run: seq<State>, s: State, tail: seq<State>)
    requires EndsIn(cfg, run, s) && tail != [] && Next(cfg, s, tail[0])
    requires forall i :: 0 <= i < |tail| - 1 ==> Next(cfg, tail[i], tail[i + 1])
    ensures EndsIn(cfg, run + tail, tail[|tail| - 1])
    decreases |tail|
  {
    hide Next, EndsIn;
    OneMore(cfg, run, s, tail[0]);
    if |tail| == 1 {
      assert run + tail == run + [tail[0]];
    } else {
      forall i | 0 <= i < |tail[1..]| - 1 ensures Next(cfg, tail[1..][i], tail[1..][i + 1]) {
        assert Next(cfg, tail[i + 1], tail[i + 1 + 1]);
      }
      ManyMore(cfg, run + [tail[0]], tail[0], tail[1..]);
      assert (run + [tail[0]]) + tail[1..] == run + tail;
    }
  }

  /** At k the controller itself deletes the request. */
  ghost predicate Deletes(cfg: Config, run: seq<State>, k: nat) {
    && k + 1 < |run| && run[k].store.req.Some? && !run[k].store.req.value.deleting
    && (exists pick :: run[k + 1] == Succeed(cfg, run[k], pick))
    && (run[k + 1].store.req.None? || run[k + 1].store.req.value.deleting)
  }

  /** Delivered at j, landed at p with that lag, deleted by the controller at k. */
  ghost predicate Lived(cfg: Config, run: seq<State>, lag: nat, j: nat, p: nat, k: nat) {
    && IsRun(cfg, run) && DeliveredAt(run, j, p) && p < k && Deletes(cfg, run, k)
    && run[k].store.req.value.status == run[p].pc.w && run[p].store.now - run[j].store.now == lag
  }

  /** In every run whose patch has that lag, Ready stands for the whole TTL before the controller deletes
      the request. */
  ghost predicate StandsInFull(cfg: Config, lag: nat)
    requires cfg.ttl.Some?
  {
    forall run: seq<State>, j: nat, p: nat, k: nat :: Lived(cfg, run, lag, j, p, k) ==>
      run[k].store.now - run[p].store.now >= cfg.ttl.value * SECOND
  }

  /** The TTL does not run from the instant at which Ready becomes visible: for any lag of the status patch there is a
      run in which the request is deleted as soon as the TTL has passed since the delivery. */
  lemma LatePatch(cfg: Config, lag: nat) returns (run: seq<State>, j: nat, p: nat, k: nat)
    requires cfg.IsValid() && cfg.ttl.Some?
    ensures Lived(cfg, run, lag, j, p, k)
    ensures run[k].store.now - run[p].store.now == if lag <= cfg.ttl.value * SECOND then cfg.ttl.value * SECOND - lag
            else 0
  {
    var ttl := cfg.ttl.value * SECOND;
    var end := if lag <= ttl then ttl else lag;
    var s, tail := Delivering(cfg), Tail(cfg, lag, end);
    ReachDelivery(cfg);
    TailSteps(cfg, lag, end);
    hide Succeed, EnvStep, IsRun;
    var before :| EndsIn(cfg, before, s);
    NotEmpty(cfg, before);
    assert Next(cfg, s, tail[0]) && Next(cfg, tail[0], tail[1]) && Next(cfg, tail[1], tail[2]);
    assert Next(cfg, tail[2], tail[3]) && Next(cfg, tail[3], tail[4]) && Next(cfg, tail[4], tail[5]);
    hide Next;
    ManyMore(cfg, before, s, tail);
    run, j := before + tail, |before| - 1;
    p, k := j + 2, j + 5;
    assert run[j] == s && run[p] == tail[1] && run[k] == tail[4] && run[k + 1] == tail[5];
  }

  /** Exactly when Ready is sure to stand for the whole TTL: the patch lands at once, or there is nothing to stand
      for. */
  lemma StandsInFullIff(cfg: Config, lag: nat)
    requires cfg.IsValid() && cfg.ttl.Some?
    ensures StandsInFull(cfg, lag) <==> lag == 0 || cfg.ttl.value == 0
  {
    if lag == 0 || cfg.ttl.value == 0 {
      forall run: seq<State>, j: nat, p: nat, k: nat | Lived(cfg, run, lag, j, p, k)
        ensures run[k].store.now - run[p].store.now >= cfg.ttl.value * SECOND
      {
        LivedLongEnough(cfg, run, lag, j, p, k);
      }
    } else {
      var run, j, p, k := LatePatch(cfg, lag);
      hide Lived;
    }
  }

  lemma LivedLongEnough(cfg: Config, run: seq<State>, lag: nat, j: nat, p: nat, k: nat)
    requires cfg.ttl.Some? && Lived(cfg, run, lag, j, p, k)
    ensures run[k].store.now - run[p].store.now >= cfg.ttl.value * SECOND - lag && run[p].store.now <= run[k].store.now
  {
    RunHolds(cfg, run, k);
    TimePasses(cfg, run, p, k);
    DeliveredInOrder(run, j, p);
    hide IsRun, DeliveredAt, Inv;
    var pick :| run[k + 1] == Succeed(cfg, run[k], pick);
    ControllerDeletesOnlyExpired(cfg, run[k], pick);
  }

  lemma NotEmpty(cfg: Config, run: seq<State>)
    ensures IsRun(cfg, run) ==> |run| > 0
  {
  }
}
