/** Which volume backups are cloned, and how the VM spec is rewritten to refer to the clones. */
module SpecRewrite {
  import opened Text
  import opened Json

  const PERSISTENT_STATE := "persistent-state-for"

  // ---------------------------------------------------------------- the volume set

  /** The first backup that holds VM state, or the empty name. */
  method GetBackendStoragePvcName(backups: seq<string>) returns (name: string)
    ensures name == Backend(backups) && IsFirstBackend(backups, name)
  {
    BackendIsFirst(backups);
    for i := 0 to |backups|
      invariant Backend(backups) == Backend(backups[i..])
    {
      if Index(backups[i], PERSISTENT_STATE) >= 0 {
        return backups[i];
      }
      assert backups[i..][1..] == backups[i + 1..];
    }
    name := "";
  }

  function Backend(backups: seq<string>): string {
    if backups == [] then ""
    else if Index(backups[0], PERSISTENT_STATE) >= 0 then backups[0]
    else Backend(backups[1..])
  }

  /** The first backup whose name contains the marker, or "" when there is none. */
  ghost predicate IsFirstBackend(backups: seq<string>, name: string) {
    || (name == "" && forall i :: 0 <= i < |backups| ==> !Occurs(backups[i], PERSISTENT_STATE))
    || (exists i: nat :: FirstBackendAt(backups, i) && backups[i] == name)
  }

  ghost predicate FirstBackendAt(backups: seq<string>, i: nat) {
    && i < |backups| && Occurs(backups[i], PERSISTENT_STATE)
    && forall j :: 0 <= j < i ==> !Occurs(backups[j], PERSISTENT_STATE)
  }

  lemma IndexMeansOccurs(s: string, sub: string)
    ensures Index(s, sub) >= 0 <==> Occurs(s, sub)
  {
  }

  lemma {:induction false} BackendIsFirst(backups: seq<string>)
    ensures IsFirstBackend(backups, Backend(backups))
  {
    if backups != [] {
      var rest := backups[1..];
      IndexMeansOccurs(backups[0], PERSISTENT_STATE);
      BackendIsFirst(rest);
      hide Index, Occurs;
      if Occurs(backups[0], PERSISTENT_STATE) {
        assert FirstBackendAt(backups, 0);
      } else if i: nat :| FirstBackendAt(rest, i) && rest[i] == Backend(rest) {
        assert forall j :: 0 < j < |backups| ==> backups[j] == rest[j - 1];
        assert FirstBackendAt(backups, i + 1);
      } else {
        assert forall j :: 0 < j < |backups| ==> backups[j] == rest[j - 1];
      }
    }
  }

  /** The backups the clone, readiness and rewrite loops all work on, in order. */
  function Cloned(backups: seq<string>, backend: string): seq<string> {
    if backups == [] then []
    else (if backups[0] == backend then [] else [backups[0]]) + Cloned(backups[1..], backend)
  }

  lemma {:induction false} ClonedIsExact(backups: seq<string>, backend: string)
    ensures forall v :: v in Cloned(backups, backend) <==> v in backups && v != backend
  {
    if backups != [] {
      ClonedIsExact(backups[1..], backend);
      assert backups == [backups[0]] + backups[1..];
    }
  }

  /** The state of the VM "vm1" is kept in "persistent-state-for-vm1". */
  lemma StateOfVmIsBackend(disk: string, state: string)
    requires state == "persistent-state-for-vm1" && !Occurs(disk, PERSISTENT_STATE)
    ensures Backend([disk, state]) == state && Cloned([disk, state], state) == [disk]
  {
    assert OccursAt(state, PERSISTENT_STATE, 0);
    IndexMeansOccurs(state, PERSISTENT_STATE);
    IndexMeansOccurs(disk, PERSISTENT_STATE);
    var backups := [disk, state];
    assert disk != state;
    hide Index, Occurs;
    assert backups[1..] == [state] && backups[1..][1..] == [];
    assert Cloned([state], state) == [] + Cloned([], state);
    assert Backend(backups) == Backend([state]);
  }

  /** Only the first backup that holds VM state is left out: any other one under another name is cloned like a disk. */
  lemma SecondBackendIsCloned(backups: seq<string>, i: nat, j: nat)
    requires FirstBackendAt(backups, i) && j < |backups| && Occurs(backups[j], PERSISTENT_STATE)
             && backups[j] != backups[i]
    ensures Backend(backups) == backups[i]
    ensures backups[j] in Cloned(backups, Backend(backups)) && backups[i] !in Cloned(backups, Backend(backups))
  {
    BackendIsFirst(backups);
    ClonedIsExact(backups, Backend(backups));
    hide Occurs, Backend, Cloned;
    var k: nat :| FirstBackendAt(backups, k) && backups[k] == Backend(backups);
    assert k == i;
  }

  // ---------------------------------------------------------------- the spec

  datatype VolumeSource = DataVolume(name: string) | OtherSource(content: Json)

  datatype Volume = Volume(name: string, source: VolumeSource)

  datatype DvtSource = FromPvc(namespace: string, name: string) | OtherSpec(content: Json)

  datatype Dvt = Dvt(name: string, source: DvtSource)

  /** "-${NAME}" */
  const SUFFIX := "-" + "${" + "NAME" + "}"

  function Position(vols: seq<Volume>, name: string): (i: nat)
    ensures i <= |vols| && (i < |vols| ==> vols[i].name == name)
    ensures forall j :: 0 <= j < i ==> vols[j].name != name
  {
    if vols == [] || vols[0].name == name then 0 else Position(vols[1..], name) + 1
  }

  /** The DataVolume a volume uses, or its own name. */
  function DvNameOf(v: Volume): string { if v.source.DataVolume? then v.source.name else v.name }

  function Retargeted(v: Volume): Volume { Volume(v.name, DataVolume(DvNameOf(v) + SUFFIX)) }

  function DvtPosition(dvts: seq<Dvt>, name: string): (i: nat)
    ensures i <= |dvts| && (i < |dvts| ==> dvts[i].name == name)
    ensures forall j :: 0 <= j < i ==> dvts[j].name != name
  {
    if dvts == [] || dvts[0].name == name then 0 else DvtPosition(dvts[1..], name) + 1
  }

  class VmSpec {
    var volumes: seq<Volume>
    var dvts: seq<Dvt>

    constructor (volumes: seq<Volume>, dvts: seq<Dvt>)
      ensures this.volumes == volumes && this.dvts == dvts
    {
      this.volumes, this.dvts := volumes, dvts;
    }

    /** Points the first volume of that name at a DataVolume named after the parameter. */
    method TransformVolume(volName: string) returns (dvName: string)
      modifies this`volumes
      ensures var i := Position(old(volumes), volName);
              if i == |old(volumes)| then dvName == "" && volumes == old(volumes)
              else
                var source := old(volumes)[i].source;
                && dvName == (if source.DataVolume? then source.name else volName)
                && volumes == old(volumes)[i := Volume(volName, DataVolume(dvName + SUFFIX))]
    {
      for i := 0 to |volumes|
        invariant volumes == old(volumes)
        invariant forall j :: 0 <= j < i ==> volumes[j].name != volName
      {
        if volumes[i].name == volName {
          dvName := volName;
          if volumes[i].source.DataVolume? {
            dvName := volumes[i].source.name;
          }
          volumes := volumes[i := Volume(volName, DataVolume(dvName + SUFFIX))];
          return;
        }
      }
      dvName := "";
    }

    /** Rewrites the first DataVolumeTemplate of that name into a clone of the PVC, or adds one. */
    method TransformOrAddDvt(volName: string, pvcNamespace: string, pvcName: string)
      modifies this`dvts
      ensures var i := DvtPosition(old(dvts), volName);
              var dvt := Dvt(volName + SUFFIX, FromPvc(pvcNamespace, pvcName));
              dvts == if i == |old(dvts)| then old(dvts) + [dvt] else old(dvts)[i := dvt]
    {
      var dvt := Dvt(volName + SUFFIX, FromPvc(pvcNamespace, pvcName));
      for i := 0 to |dvts|
        invariant dvts == old(dvts)
        invariant forall j :: 0 <= j < i ==> dvts[j].name != volName
      {
        if dvts[i].name == volName {
          dvts := dvts[i := dvt];
          return;
        }
      }
      dvts := dvts + [dvt];
    }

    method RewriteOne(volName: string, namespace: string, pvc: string)
      modifies this
      ensures volumes == StepVolumes(old(volumes), volName)
      ensures dvts == StepDvts(old(dvts), Derived(old(volumes), volName), namespace, pvc)
    {
      var dvName := TransformVolume(volName);
      if dvName == "" {
        dvName := volName;
      }
      TransformOrAddDvt(dvName, namespace, pvc);
    }

    /** The rewrite loop of createTemplate. */
    method Rewrite(backups: seq<string>, namespace: string, clone: string -> string)
      modifies this
      ensures volumes == RewrittenVolumes(old(volumes), Cloned(backups, Backend(backups)))
      ensures dvts == RewrittenDvts(old(volumes), old(dvts), Cloned(backups, Backend(backups)), namespace, clone)
    {
      var backend := GetBackendStoragePvcName(backups);
      for k := 0 to |backups|
        invariant RewrittenVolumes(old(volumes), Cloned(backups, backend))
               == RewrittenVolumes(volumes, Cloned(backups[k..], backend))
        invariant RewrittenDvts(old(volumes), old(dvts), Cloned(backups, backend), namespace, clone)
               == RewrittenDvts(volumes, dvts, Cloned(backups[k..], backend), namespace, clone)
      {
        hide *;
        NextCloned(volumes, dvts, backups[k..], backend, namespace, clone);
        assert backups[k..][0] == backups[k] && backups[k..][1..] == backups[k + 1..];
        if backups[k] != backend {
          RewriteOne(backups[k], namespace, clone(backups[k]));
        }
      }
    }
  }

  lemma NextCloned(vols: seq<Volume>, dvts: seq<Dvt>, backups: seq<string>, backend: string, namespace: string,
                   clone: string -> string)
    requires backups != []
    ensures var names, rest, v := Cloned(backups, backend), Cloned(backups[1..], backend), backups[0];
            if v == backend then names == rest
            else && RewrittenVolumes(vols, names) == RewrittenVolumes(StepVolumes(vols, v), rest)
                 && RewrittenDvts(vols, dvts, names, namespace, clone)
                    == RewrittenDvts(StepVolumes(vols, v), StepDvts(dvts, Derived(vols, v), namespace, clone(v)), rest,
                                     namespace, clone)
  {
    var rest := Cloned(backups[1..], backend);
    assert [] + rest == rest && ([backups[0]] + rest)[1..] == rest;
  }

  // ---------------------------------------------------------------- the loop as functions

  function StepVolumes(vols: seq<Volume>, volName: string): seq<Volume> {
    var i := Position(vols, volName);
    if i == |vols| then vols else vols[i := Retargeted(vols[i])]
  }

  /** The name the rewrite derives for a backed-up volume: the DataVolume it uses, or else its own. */
  function Derived(vols: seq<Volume>, volName: string): string {
    var i := Position(vols, volName);
    if i == |vols| || DvNameOf(vols[i]) == "" then volName else DvNameOf(vols[i])
  }

  function StepDvts(dvts: seq<Dvt>, dvName: string, namespace: string, pvc: string): seq<Dvt> {
    var i := DvtPosition(dvts, dvName);
    var dvt := Dvt(dvName + SUFFIX, FromPvc(namespace, pvc));
    if i == |dvts| then dvts + [dvt] else dvts[i := dvt]
  }

  function RewrittenVolumes(vols: seq<Volume>, names: seq<string>): seq<Volume>
    decreases names
  {
    if names == [] then vols else RewrittenVolumes(StepVolumes(vols, names[0]), names[1..])
  }

  function RewrittenDvts(vols: seq<Volume>, dvts: seq<Dvt>, names: seq<string>, namespace: string,
                         clone: string -> string): seq<Dvt>
    decreases names
  {
    if names == [] then dvts
    else
      RewrittenDvts(StepVolumes(vols, names[0]), StepDvts(dvts, Derived(vols, names[0]), namespace, clone(names[0])),
                    names[1..], namespace, clone)
  }

  // ---------------------------------------------------------------- references stay intact

  predicate ListedOnce(names: seq<string>) { forall i, j :: 0 <= i < j < |names| ==> names[i] != names[j] }

  /** Each backup is listed once, and no name that is derived or already taken looks like a rewritten one, which no
      legal object name does. */
  ghost predicate NamesAreLegal(vols: seq<Volume>, dvts: seq<Dvt>, names: seq<string>) {
    && ListedOnce(names)
    && (forall v, w :: v in names && w in names ==> Derived(vols, w) != Derived(vols, v) + SUFFIX)
    && (forall v, j :: v in names && 0 <= j < |dvts| ==> dvts[j].name != Derived(vols, v) + SUFFIX)
  }

  /** What the rewrite relies on besides: volumes are told apart by their names, every volume has a DataVolume name,
      and no two backups derive the same one. */
  ghost predicate NamesAreDistinct(vols: seq<Volume>, dvts: seq<Dvt>, names: seq<string>) {
    && NamesAreLegal(vols, dvts, names)
    && (forall i, j :: 0 <= i < j < |vols| ==> vols[i].name != vols[j].name)
    && (forall i :: 0 <= i < |vols| && vols[i].source.DataVolume? ==> vols[i].source.name != "")
    && (forall v, w :: v in names && w in names && v != w ==> Derived(vols, v) != Derived(vols, w))
  }

  function CloneDvt(vols: seq<Volume>, v: string, namespace: string, clone: string -> string): Dvt {
    Dvt(Derived(vols, v) + SUFFIX, FromPvc(namespace, clone(v)))
  }

  /** Volumes keep their names and order; exactly the backed-up ones are retargeted. */
  ghost predicate VolumesIntact(vols: seq<Volume>, vols': seq<Volume>, done: set<string>) {
    && |vols'| == |vols|
    && forall i :: 0 <= i < |vols| ==> vols'[i] == if vols[i].name in done then Retargeted(vols[i]) else vols[i]
  }

  /** The same for any volumes at all: of those that share a name only the first is retargeted. */
  ghost predicate FirstsRetargeted(vols: seq<Volume>, vols': seq<Volume>, done: set<string>) {
    && |vols'| == |vols|
    && forall i :: 0 <= i < |vols| ==>
         vols'[i] == if vols[i].name in done && Position(vols, vols[i].name) == i then Retargeted(vols[i]) else vols[i]
  }

  lemma DistinctAreAllFirst(vols: seq<Volume>, vols': seq<Volume>, done: set<string>)
    requires FirstsRetargeted(vols, vols', done) && forall i, j :: 0 <= i < j < |vols| ==> vols[i].name != vols[j].name
    ensures VolumesIntact(vols, vols', done)
  {
    assert forall i :: 0 <= i < |vols| ==> Position(vols, vols[i].name) == i;
  }

  ghost predicate IsCloneAt(vols: seq<Volume>, dvts: seq<Dvt>, dvts': seq<Dvt>, j: nat, v: string, namespace: string,
                            clone: string -> string)
    requires j < |dvts'|
  {
    dvts'[j] == CloneDvt(vols, v, namespace, clone) && (j < |dvts| ==> dvts[j].name == Derived(vols, v))
  }

  /** Every DataVolumeTemplate is an untouched original, or the clone template of a backed-up volume, which took the
      place of an original of its derived name if there was one; and `at` says where the one template of each
      volume is. */
  ghost predicate DvtsIntact(vols: seq<Volume>, dvts: seq<Dvt>, dvts': seq<Dvt>, at: map<string, nat>,
                             namespace: string, clone: string -> string) {
    && |dvts'| >= |dvts|
    && (forall v :: v in at ==> at[v] < |dvts'| && IsCloneAt(vols, dvts, dvts', at[v], v, namespace, clone))
    && (forall j :: 0 <= j < |dvts'| ==> (j < |dvts| && dvts'[j] == dvts[j]) || Covers(at, j))
    && TakesFirst(vols, dvts, at)
  }

  /** No original of a volume's derived name is passed over for a later place. */
  ghost predicate TakesFirst(vols: seq<Volume>, dvts: seq<Dvt>, at: map<string, nat>) {
    forall v, i :: v in at && 0 <= i < at[v] && i < |dvts| && dvts[i].name == Derived(vols, v) ==> Covers(at, i)
  }

  ghost predicate Covers(at: map<string, nat>, j: int) { exists v :: v in at && at[v] == j }

  lemma DerivedIsStable(vols: seq<Volume>, vols': seq<Volume>, done: set<string>, v: string)
    requires FirstsRetargeted(vols, vols', done) && v !in done
    ensures Position(vols', v) == Position(vols, v) && Derived(vols', v) == Derived(vols, v)
  {
    assert forall i :: 0 <= i < |vols| ==> vols'[i].name == vols[i].name;
    var i, i' := Position(vols, v), Position(vols', v);
    assert i < |vols| ==> vols'[i].name == v;
    assert i' < |vols| ==> vols[i'].name == v;
  }

  lemma StepKeepsVolumes(vols: seq<Volume>, vols': seq<Volume>, done: set<string>, v: string)
    requires FirstsRetargeted(vols, vols', done) && v !in done
    ensures FirstsRetargeted(vols, StepVolumes(vols', v), done + {v})
  {
    DerivedIsStable(vols, vols', done, v);
    var p := Position(vols, v);
    assert p == |vols| ==> forall i :: 0 <= i < |vols| ==> vols[i].name != v;
  }

  lemma StepKeepsDvts(vols: seq<Volume>, dvts: seq<Dvt>, dvts': seq<Dvt>, at: map<string, nat>, v: string,
                      namespace: string, clone: string -> string) returns (at': map<string, nat>)
    requires DvtsIntact(vols, dvts, dvts', at, namespace, clone) && v !in at
    requires forall w :: w in at ==> Derived(vols, v) != Derived(vols, w) + SUFFIX
    ensures at'.Keys == at.Keys + {v}
    ensures DvtsIntact(vols, dvts, StepDvts(dvts', Derived(vols, v), namespace, clone(v)), at', namespace, clone)
  {
    hide Derived, Position, DvtPosition;
    var d := Derived(vols, v);
    DvtPositionFacts(dvts', d);
    var j := DvtPosition(dvts', d);
    at' := at[v := j];
    StepTakesFirst(vols, dvts, dvts', at, v, namespace, clone);
    hide TakesFirst;
    var dvts'' := StepDvts(dvts', d, namespace, clone(v));
    assert forall w :: w in at ==> at[w] != j;
    assert forall i :: 0 <= i < |dvts''| && i != j ==> i < |dvts'| && dvts''[i] == dvts'[i];
    forall i | 0 <= i < |dvts''| ensures (i < |dvts| && dvts''[i] == dvts[i]) || Covers(at', i) {
      if i == j {
        assert at'[v] == i;
      } else if Covers(at, i) {
        var w :| w in at && at[w] == i;
        assert at'[w] == i;
      }
    }
  }

  lemma StepTakesFirst(vols: seq<Volume>, dvts: seq<Dvt>, dvts': seq<Dvt>, at: map<string, nat>, v: string,
                       namespace: string, clone: string -> string)
    requires DvtsIntact(vols, dvts, dvts', at, namespace, clone) && v !in at
    ensures TakesFirst(vols, dvts, at[v := DvtPosition(dvts', Derived(vols, v))])
  {
    hide Derived, Position, DvtPosition, IsCloneAt;
    var d := Derived(vols, v);
    DvtPositionFacts(dvts', d);
    var at' := at[v := DvtPosition(dvts', d)];
    forall w, i | w in at' && 0 <= i < at'[w] && i < |dvts| && dvts[i].name == Derived(vols, w) ensures Covers(at', i) {
      if w == v {
        assert dvts'[i].name != d;
      }
      assert Covers(at, i);
      var u :| u in at && at[u] == i;
      assert at'[u] == i;
    }
  }

  lemma DvtPositionFacts(dvts: seq<Dvt>, name: string)
    ensures forall j :: 0 <= j < DvtPosition(dvts, name) ==> dvts[j].name != name
    ensures DvtPosition(dvts, name) <= |dvts|
    ensures DvtPosition(dvts, name) < |dvts| ==> dvts[DvtPosition(dvts, name)].name == name
  {
  }

  function SetOf(names: seq<string>): set<string> { set v | v in names }

  lemma {:induction false} RewriteInduction(vols: seq<Volume>, dvts: seq<Dvt>, names: seq<string>, k: nat,
                                            vols': seq<Volume>, dvts': seq<Dvt>, at: map<string, nat>,
                                            namespace: string, clone: string -> string) returns (at': map<string, nat>)
    requires NamesAreLegal(vols, dvts, names) && k <= |names| && at.Keys == SetOf(names[..k])
    requires FirstsRetargeted(vols, vols', at.Keys) && DvtsIntact(vols, dvts, dvts', at, namespace, clone)
    ensures at'.Keys == SetOf(names)
    ensures FirstsRetargeted(vols, RewrittenVolumes(vols', names[k..]), at'.Keys)
    ensures DvtsIntact(vols, dvts, RewrittenDvts(vols', dvts', names[k..], namespace, clone), at', namespace, clone)
    decreases |names| - k
  {
    hide *;
    if k == |names| {
      assert names[..k] == names && names[k..] == [];
      NothingToRewrite(vols', dvts', namespace, clone);
      at' := at;
    } else {
      var v := names[k];
      NextName(vols, dvts, names, k, at);
      NextRewrite(vols', dvts', names, k, namespace, clone);
      DerivedIsStable(vols, vols', at.Keys, v);
      StepKeepsVolumes(vols, vols', at.Keys, v);
      var next := StepKeepsDvts(vols, dvts, dvts', at, v, namespace, clone);
      at' := RewriteInduction(vols, dvts, names, k + 1, StepVolumes(vols', v),
                              StepDvts(dvts', Derived(vols, v), namespace, clone(v)), next, namespace, clone);
    }
  }

  lemma NothingToRewrite(vols: seq<Volume>, dvts: seq<Dvt>, namespace: string, clone: string -> string)
    ensures RewrittenVolumes(vols, []) == vols && RewrittenDvts(vols, dvts, [], namespace, clone) == dvts
  {
  }

  lemma NextRewrite(vols: seq<Volume>, dvts: seq<Dvt>, names: seq<string>, k: nat, namespace: string,
                    clone: string -> string)
    requires k < |names|
    ensures RewrittenVolumes(vols, names[k..]) == RewrittenVolumes(StepVolumes(vols, names[k]), names[k + 1..])
    ensures RewrittenDvts(vols, dvts, names[k..], namespace, clone)
         == RewrittenDvts(StepVolumes(vols, names[k]),
                          StepDvts(dvts, Derived(vols, names[k]), namespace, clone(names[k])),
                          names[k + 1..], namespace, clone)
  {
    assert names[k..][1..] == names[k + 1..];
  }

  lemma NextName(vols: seq<Volume>, dvts: seq<Dvt>, names: seq<string>, k: nat, at: map<string, nat>)
    requires NamesAreLegal(vols, dvts, names) && k < |names| && at.Keys == SetOf(names[..k])
    ensures names[k] !in at && SetOf(names[..k + 1]) == at.Keys + {names[k]}
    ensures forall w :: w in at ==> Derived(vols, names[k]) != Derived(vols, w) + SUFFIX
  {
    assert names[..k + 1] == names[..k] + [names[k]];
    assert forall w :: w in at ==> w in names;
  }

  ghost predicate IsClone(vols: seq<Volume>, d: Dvt, names: seq<string>, namespace: string, clone: string -> string) {
    exists v :: v in names && d == CloneDvt(vols, v, namespace, clone)
  }

  /** The rewrite keeps every reference intact: volume names and order stay, each backed-up volume of the VM uses the
      DataVolume of exactly one template, whose source is that volume's clone, and everything else is untouched. */
  lemma RewriteKeepsReferences(vols: seq<Volume>, dvts: seq<Dvt>, names: seq<string>, namespace: string,
                               clone: string -> string)
    requires NamesAreDistinct(vols, dvts, names)
    ensures var vols', dvts' := RewrittenVolumes(vols, names), RewrittenDvts(vols, dvts, names, namespace, clone);
            && VolumesIntact(vols, vols', SetOf(names))
            && (forall i :: 0 <= i < |vols| && vols[i].name in names ==>
                  vols'[i].source == DataVolume(CloneDvt(vols, vols[i].name, namespace, clone).name))
            && (forall v :: v in names ==> exists j ::
                  && 0 <= j < |dvts'| && dvts'[j] == CloneDvt(vols, v, namespace, clone)
                  && (forall i :: 0 <= i < |dvts'| && i != j ==> dvts'[i].name != dvts'[j].name))
            && |dvts'| >= |dvts|
            && (forall j :: 0 <= j < |dvts'| ==> dvts'[j] in dvts || IsClone(vols, dvts'[j], names, namespace, clone))
            && (forall j :: 0 <= j < |dvts| && (forall v :: v in names ==> Derived(vols, v) != dvts[j].name) ==>
                  dvts'[j] == dvts[j])
  {
    assert names[..0] == [] && names[0..] == names;
    var at := RewriteInduction(vols, dvts, names, 0, vols, dvts, map[], namespace, clone);
    var vols', dvts' := RewrittenVolumes(vols, names), RewrittenDvts(vols, dvts, names, namespace, clone);
    DistinctAreAllFirst(vols, vols', SetOf(names));
    hide Derived, RewrittenVolumes, RewrittenDvts, FirstsRetargeted, NamesAreLegal;
    forall i | 0 <= i < |vols| && vols[i].name in names
      ensures vols'[i].source == DataVolume(CloneDvt(vols, vols[i].name, namespace, clone).name)
    {
      DerivedOfVolume(vols, i);
    }
    TemplatesKept(vols, dvts, dvts', names, at, namespace, clone);
    hide IsClone;
    forall v | v in names
      ensures exists j :: && 0 <= j < |dvts'| && dvts'[j] == CloneDvt(vols, v, namespace, clone)
                          && (forall i :: 0 <= i < |dvts'| && i != j ==> dvts'[i].name != dvts'[j].name)
    {
      OneTemplateEach(vols, dvts, dvts', names, at, v, namespace, clone);
    }
  }

  lemma TemplatesKept(vols: seq<Volume>, dvts: seq<Dvt>, dvts': seq<Dvt>, names: seq<string>, at: map<string, nat>,
                      namespace: string, clone: string -> string)
    requires at.Keys == SetOf(names) && DvtsIntact(vols, dvts, dvts', at, namespace, clone)
    ensures |dvts'| >= |dvts|
    ensures forall j :: 0 <= j < |dvts'| ==> dvts'[j] in dvts || IsClone(vols, dvts'[j], names, namespace, clone)
    ensures forall j :: 0 <= j < |dvts| && (forall v :: v in names ==> Derived(vols, v) != dvts[j].name) ==>
              dvts'[j] == dvts[j]
  {
    hide Derived, TakesFirst;
    forall j | 0 <= j < |dvts'| ensures dvts'[j] in dvts || IsClone(vols, dvts'[j], names, namespace, clone) {
      if Covers(at, j) {
        var v :| v in at && at[v] == j;
        assert v in names;
      }
    }
    forall j | 0 <= j < |dvts| && Covers(at, j) ensures exists v :: v in names && Derived(vols, v) == dvts[j].name {
      var v :| v in at && at[v] == j;
      assert v in names;
    }
  }

  lemma DerivedOfVolume(vols: seq<Volume>, i: nat)
    requires forall i, j :: 0 <= i < j < |vols| ==> vols[i].name != vols[j].name
    requires i < |vols| && (vols[i].source.DataVolume? ==> vols[i].source.name != "")
    ensures Derived(vols, vols[i].name) == DvNameOf(vols[i])
  {
    assert Position(vols, vols[i].name) == i;
  }

  lemma OneTemplateEach(vols: seq<Volume>, dvts: seq<Dvt>, dvts': seq<Dvt>, names: seq<string>, at: map<string, nat>,
                        v: string,
                        namespace: string, clone: string -> string)
    requires NamesAreLegal(vols, dvts, names) && at.Keys == SetOf(names) && v in names
    requires forall w :: w in names && w != v ==> Derived(vols, w) != Derived(vols, v)
    requires DvtsIntact(vols, dvts, dvts', at, namespace, clone)
    ensures v in at && at[v] < |dvts'| && dvts'[at[v]] == CloneDvt(vols, v, namespace, clone)
    ensures forall i :: 0 <= i < |dvts'| && i != at[v] ==> dvts'[i].name != dvts'[at[v]].name
  {
    hide Derived;
    forall i | 0 <= i < |dvts'| && i != at[v] ensures dvts'[i].name != dvts'[at[v]].name {
      if Covers(at, i) {
        var w :| w in at && at[w] == i;
        assert w != v && Derived(vols, w) != Derived(vols, v);
        SuffixInjective(Derived(vols, w), Derived(vols, v));
      }
    }
  }

  lemma SuffixInjective(a: string, b: string)
    requires a != b
    ensures a + SUFFIX != b + SUFFIX
  {
    assert (a + SUFFIX)[..|a + SUFFIX| - |SUFFIX|] == a;
    assert (b + SUFFIX)[..|b + SUFFIX| - |SUFFIX|] == b;
  }

  // ---------------------------------------------------------------- why the names must be distinct

  /** The original template at j gives way to a clone: it is the first of a name that some backup derives. */
  ghost predicate Touched(vols: seq<Volume>, dvts: seq<Dvt>, names: seq<string>, j: nat) {
    exists v :: v in names && DvtPosition(dvts, Derived(vols, v)) == j
  }

  lemma PlaceOfClone(vols: seq<Volume>, dvts: seq<Dvt>, dvts': seq<Dvt>, names: seq<string>, at: map<string, nat>,
                     namespace: string, clone: string -> string, v: string)
    requires NamesAreDistinct(vols, dvts, names) && at.Keys == SetOf(names) && v in names
    requires DvtsIntact(vols, dvts, dvts', at, namespace, clone)
    ensures var p := DvtPosition(dvts, Derived(vols, v)); if p < |dvts| then at[v] == p else at[v] >= |dvts|
  {
    hide Derived, DvtPosition, NamesAreLegal;
    var p := DvtPosition(dvts, Derived(vols, v));
    DvtPositionFacts(dvts, Derived(vols, v));
    assert forall w :: w in at && at[w] < |dvts| ==> dvts[at[w]].name == Derived(vols, w);
    assert p < |dvts| ==> forall w :: w in at && at[w] == p ==> w == v;
    assert p < |dvts| && p < at[v] ==> !Covers(at, p);
  }

  lemma CoversIffTouched(vols: seq<Volume>, dvts: seq<Dvt>, dvts': seq<Dvt>, names: seq<string>, at: map<string, nat>,
                         namespace: string, clone: string -> string, j: nat)
    requires NamesAreDistinct(vols, dvts, names) && at.Keys == SetOf(names) && j < |dvts|
    requires DvtsIntact(vols, dvts, dvts', at, namespace, clone)
    ensures Covers(at, j) <==> Touched(vols, dvts, names, j)
  {
    hide NamesAreDistinct, DvtsIntact, Derived, DvtPosition;
    forall v | v in names
      ensures v in at && var p := DvtPosition(dvts, Derived(vols, v)); if p < |dvts| then at[v] == p
              else at[v] >= |dvts|
    {
      PlaceOfClone(vols, dvts, dvts', names, at, namespace, clone, v);
    }
    if Covers(at, j) {
      var v :| v in at && at[v] == j;
      assert v in names;
    }
  }

  /** What the rewrite makes of each template, for distinct names: a clone template for each backup, with a name of its
      own, and exactly the untouched originals besides. */
  lemma RewriteExactly(vols: seq<Volume>, dvts: seq<Dvt>, names: seq<string>, namespace: string,
                       clone: string -> string)
    returns (at: map<string, nat>)
    requires NamesAreDistinct(vols, dvts, names)
    ensures var dvts' := RewrittenDvts(vols, dvts, names, namespace, clone);
            && at.Keys == SetOf(names) && DvtsIntact(vols, dvts, dvts', at, namespace, clone)
            && (forall j :: 0 <= j < |dvts| ==> (Covers(at, j) <==> Touched(vols, dvts, names, j)))
  {
    assert names[..0] == [] && names[0..] == names;
    at := RewriteInduction(vols, dvts, names, 0, vols, dvts, map[], namespace, clone);
    hide DvtsIntact, NamesAreDistinct, RewrittenDvts, RewrittenVolumes, Touched, Covers;
    forall j | 0 <= j < |dvts| ensures Covers(at, j) <==> Touched(vols, dvts, names, j) {
      CoversIffTouched(vols, dvts, RewrittenDvts(vols, dvts, names, namespace, clone), names, at, namespace, clone, j);
    }
  }

  /** Exactly one template has the name, and it has the source. */
  ghost predicate ResolvesTo(dvts: seq<Dvt>, name: string, source: DvtSource) {
    exists j :: && 0 <= j < |dvts| && dvts[j] == Dvt(name, source)
                && (forall i :: 0 <= i < |dvts| && i != j ==> dvts[i].name != name)
  }

  /** The name a volume derives is its own alone. */
  ghost predicate DerivesAlone(vols: seq<Volume>, names: seq<string>, v: string) {
    forall w :: w in names && w != v ==> Derived(vols, w) != Derived(vols, v)
  }

  /** A volume that uses a DataVolume uses one with a name, or has no name itself. */
  predicate HasName(v: Volume) { v.source.DataVolume? ==> v.source.name != "" || v.name == "" }

  /** The volume uses the DataVolume of exactly one template, and that template has the source. */
  ghost predicate Meets(dvts: seq<Dvt>, v: Volume, source: DvtSource) {
    v.source.DataVolume? && ResolvesTo(dvts, v.source.name, source)
  }

  /** Exactly when a backed-up volume meets the template of its clone: it is the first volume of its name, the
      DataVolume it uses has a name, and no other backup derives the same name. */
  lemma VolumeResolvesIff(vols: seq<Volume>, dvts: seq<Dvt>, names: seq<string>, namespace: string,
                          clone: string -> string, i: nat)
    requires NamesAreLegal(vols, dvts, names) && i < |vols| && vols[i].name in names
    requires forall w :: w in names ==> DvNameOf(vols[i]) != Derived(vols, w) + SUFFIX
    requires forall v, w :: v in names && w in names && clone(v) == clone(w) ==> v == w
    requires forall v, j :: v in names && 0 <= j < |dvts| ==> dvts[j].source != FromPvc(namespace, clone(v))
    ensures var vols', dvts', v := RewrittenVolumes(vols, names), RewrittenDvts(vols, dvts, names, namespace, clone),
            vols[i].name;
            && |vols'| == |vols|
            && (Meets(dvts', vols'[i], FromPvc(namespace, clone(v)))
                <==> Position(vols, v) == i && HasName(vols[i]) && DerivesAlone(vols, names, v))
  {
    assert names[..0] == [] && names[0..] == names;
    var at := RewriteInduction(vols, dvts, names, 0, vols, dvts, map[], namespace, clone);
    hide *;
    ResolvesIff(vols, dvts, RewrittenVolumes(vols, names), RewrittenDvts(vols, dvts, names, namespace, clone), names,
                at, namespace, clone, i);
  }

  lemma ResolvesIff(vols: seq<Volume>, dvts: seq<Dvt>, vols': seq<Volume>, dvts': seq<Dvt>, names: seq<string>,
                    at: map<string, nat>,
                    namespace: string, clone: string -> string, i: nat)
    requires NamesAreLegal(vols, dvts, names) && i < |vols| && vols[i].name in names
    requires forall w :: w in names ==> DvNameOf(vols[i]) != Derived(vols, w) + SUFFIX
    requires forall v, w :: v in names && w in names && clone(v) == clone(w) ==> v == w
    requires forall v, j :: v in names && 0 <= j < |dvts| ==> dvts[j].source != FromPvc(namespace, clone(v))
    requires at.Keys == SetOf(names) && FirstsRetargeted(vols, vols', at.Keys)
             && DvtsIntact(vols, dvts, dvts', at, namespace, clone)
    ensures var v := vols[i].name;
            && |vols'| == |vols|
            && (Meets(dvts', vols'[i], FromPvc(namespace, clone(v)))
                <==> Position(vols, v) == i && HasName(vols[i]) && DerivesAlone(vols, names, v))
  {
    var v, d := vols[i].name, DvNameOf(vols[i]);
    assert Position(vols, v) == i ==> Derived(vols, v) == if d == "" then v else d;
    hide Derived, DvtsIntact, NamesAreLegal, ResolvesTo, DerivesAlone;
    if Position(vols, v) == i && HasName(vols[i]) && DerivesAlone(vols, names, v) {
      AloneMeansResolved(vols, dvts, dvts', names, at, v, namespace, clone);
    }
    if Meets(dvts', vols'[i], FromPvc(namespace, clone(v))) {
      OnlyCloneHasSource(vols, dvts, dvts', names, at, v, vols'[i].source.name, namespace, clone);
      assert Position(vols, v) == i;
      ResolvedMeansAlone(vols, dvts, dvts', names, at, v, namespace, clone);
      assert d == Derived(vols, v) by {
        if d != Derived(vols, v) {
          SuffixInjective(d, Derived(vols, v));
          assert false;
        }
      }
    }
  }

  lemma AloneMeansResolved(vols: seq<Volume>, dvts: seq<Dvt>, dvts': seq<Dvt>, names: seq<string>,
                           at: map<string, nat>, v: string,
                           namespace: string, clone: string -> string)
    requires NamesAreLegal(vols, dvts, names) && at.Keys == SetOf(names) && v in names && DerivesAlone(vols, names, v)
    requires DvtsIntact(vols, dvts, dvts', at, namespace, clone)
    ensures ResolvesTo(dvts', Derived(vols, v) + SUFFIX, FromPvc(namespace, clone(v)))
  {
    OneTemplateEach(vols, dvts, dvts', names, at, v, namespace, clone);
    hide Derived, NamesAreLegal, DvtsIntact, DerivesAlone;
  }

  /** A name that resolves to the clone of v is the name derived for v. */
  lemma OnlyCloneHasSource(vols: seq<Volume>, dvts: seq<Dvt>, dvts': seq<Dvt>, names: seq<string>,
                           at: map<string, nat>, v: string,
                           name: string, namespace: string, clone: string -> string)
    requires at.Keys == SetOf(names) && v in names && DvtsIntact(vols, dvts, dvts', at, namespace, clone)
    requires forall v, w :: v in names && w in names && clone(v) == clone(w) ==> v == w
    requires forall v, j :: v in names && 0 <= j < |dvts| ==> dvts[j].source != FromPvc(namespace, clone(v))
    requires ResolvesTo(dvts', name, FromPvc(namespace, clone(v)))
    ensures name == Derived(vols, v) + SUFFIX
  {
    hide Derived;
    var j :| 0 <= j < |dvts'| && dvts'[j] == Dvt(name, FromPvc(namespace, clone(v)));
    assert Covers(at, j);
    var w :| w in at && at[w] == j;
    assert dvts'[j] == CloneDvt(vols, w, namespace, clone) && w == v;
  }

  lemma ResolvedMeansAlone(vols: seq<Volume>, dvts: seq<Dvt>, dvts': seq<Dvt>, names: seq<string>,
                           at: map<string, nat>, v: string,
                           namespace: string, clone: string -> string)
    requires at.Keys == SetOf(names) && v in names && DvtsIntact(vols, dvts, dvts', at, namespace, clone)
    requires forall v, w :: v in names && w in names && clone(v) == clone(w) ==> v == w
    requires ResolvesTo(dvts', Derived(vols, v) + SUFFIX, FromPvc(namespace, clone(v)))
    ensures DerivesAlone(vols, names, v)
  {
    hide Derived;
    forall w | w in names && w != v ensures Derived(vols, w) != Derived(vols, v) {
      assert at[w] != at[v] by {
        assert dvts'[at[w]].source == FromPvc(namespace, clone(w))
               && dvts'[at[v]].source == FromPvc(namespace, clone(v));
      }
      assert dvts'[at[w]].name == Derived(vols, w) + SUFFIX && dvts'[at[v]].name == Derived(vols, v) + SUFFIX;
    }
  }

  /** Of two volumes that share a name the second goes on using what it used. */
  lemma SecondOfANameIsMissed(v: string, first: VolumeSource, second: VolumeSource)
    ensures RewrittenVolumes([Volume(v, first), Volume(v, second)], [v])
         == [Retargeted(Volume(v, first)), Volume(v, second)]
  {
    var vols := [Volume(v, first), Volume(v, second)];
    assert Position(vols, v) == 0 && [v][0..] == [v] && [v][1..] == [];
    NextRewrite(vols, [], [v], 0, "", w => w);
  }

  /** A volume that is backed up twice has the suffix twice, and so has its template. */
  lemma BackedUpTwice(v: string, d: string, namespace: string, clone: string -> string)
    requires d != ""
    ensures RewrittenVolumes([Volume(v, DataVolume(d))], [v, v]) == [Volume(v, DataVolume(d + SUFFIX + SUFFIX))]
    ensures RewrittenDvts([Volume(v, DataVolume(d))], [], [v, v], namespace, clone)
            == [Dvt(d + SUFFIX + SUFFIX, FromPvc(namespace, clone(v)))]
  {
    var vols, first := [Volume(v, DataVolume(d))], Dvt(d + SUFFIX, FromPvc(namespace, clone(v)));
    var vols' := [Volume(v, DataVolume(d + SUFFIX))];
    assert [v, v][0..] == [v, v] && [v, v][1..] == [v] && [v][0..] == [v] && [v][1..] == [];
    assert Position(vols, v) == 0 && Position(vols', v) == 0;
    NextRewrite(vols, [], [v, v], 0, namespace, clone);
    assert StepVolumes(vols, v) == vols' && StepDvts([], d, namespace, clone(v)) == [first];
    NextRewrite(vols', [first], [v], 0, namespace, clone);
  }

  /** A backed-up volume of any other source gives its own name to the DataVolume it is moved to and to the template. */
  lemma OtherVolumesTakeTheirName(vols: seq<Volume>, dvts: seq<Dvt>, names: seq<string>, i: nat)
    requires NamesAreLegal(vols, dvts, names) && i < |vols| && vols[i].name in names && !vols[i].source.DataVolume?
    requires forall j :: 0 <= j < i ==> vols[j].name != vols[i].name
    ensures |RewrittenVolumes(vols, names)| == |vols|
    ensures RewrittenVolumes(vols, names)[i] == Volume(vols[i].name, DataVolume(vols[i].name + SUFFIX))
    ensures Derived(vols, vols[i].name) == vols[i].name
  {
    assert names[..0] == [] && names[0..] == names;
    var _ := RewriteInduction(vols, dvts, names, 0, vols, dvts, map[], "", v => v);
    assert Position(vols, vols[i].name) == i;
    hide RewrittenVolumes, RewrittenDvts, DvtsIntact, NamesAreLegal;
  }

  /** A backed-up volume on a DataVolume with a name is moved to the suffixed name. */
  lemma DataVolumesTakeTheSuffix(vols: seq<Volume>, dvts: seq<Dvt>, names: seq<string>, i: nat)
    requires NamesAreLegal(vols, dvts, names) && i < |vols| && vols[i].name in names
    requires vols[i].source.DataVolume? && vols[i].source.name != ""
    requires forall j :: 0 <= j < i ==> vols[j].name != vols[i].name
    ensures |RewrittenVolumes(vols, names)| == |vols|
    ensures RewrittenVolumes(vols, names)[i] == Volume(vols[i].name, DataVolume(vols[i].source.name + SUFFIX))
    ensures Derived(vols, vols[i].name) == vols[i].source.name
  {
    assert names[..0] == [] && names[0..] == names;
    var _ := RewriteInduction(vols, dvts, names, 0, vols, dvts, map[], "", v => v);
    assert Position(vols, vols[i].name) == i;
    hide RewrittenVolumes, RewrittenDvts, DvtsIntact, NamesAreLegal;
  }

  /** Two volumes that use one DataVolume end up with two templates of the same name and different sources. */
  lemma SharedDataVolumeBreaks(v: string, w: string, d: string, namespace: string, clone: string -> string)
    requires v != w && d != ""
    ensures RewrittenDvts([Volume(v, DataVolume(d)), Volume(w, DataVolume(d))], [], [v, w], namespace, clone)
         == [Dvt(d + SUFFIX, FromPvc(namespace, clone(v))), Dvt(d + SUFFIX, FromPvc(namespace, clone(w)))]
  {
    var vols := [Volume(v, DataVolume(d)), Volume(w, DataVolume(d))];
    var first := Dvt(d + SUFFIX, FromPvc(namespace, clone(v)));
    NextRewrite(vols, [], [v, w], 0, namespace, clone);
    assert [v, w][0..] == [v, w] && [v, w][1..] == [w];
    assert Position(vols, v) == 0 && Derived(vols, v) == d;
    assert StepDvts([], d, namespace, clone(v)) == [first];
    var vols' := vols[0 := Retargeted(vols[0])];
    assert vols'[1] == vols[1] && vols'[0].name == v;
    assert Position(vols', w) == 1 && Derived(vols', w) == d;
    assert |first.name| > |d| && DvtPosition([first], d) == 1;
    NextRewrite(vols', [first], [w], 0, namespace, clone);
    assert [w][0..] == [w] && [w][1..] == [];
  }

  /** A volume that uses a DataVolume without a name loses its template: the two are named after different things. */
  lemma NamelessDataVolumeBreaks(v: string, namespace: string, clone: string -> string)
    requires v != ""
    ensures RewrittenVolumes([Volume(v, DataVolume(""))], [v]) == [Volume(v, DataVolume("" + SUFFIX))]
    ensures RewrittenDvts([Volume(v, DataVolume(""))], [], [v], namespace, clone)
            == [Dvt(v + SUFFIX, FromPvc(namespace, clone(v)))]
  {
    var vols := [Volume(v, DataVolume(""))];
    assert Position(vols, v) == 0 && [v][0..] == [v] && [v][1..] == [];
    NextRewrite(vols, [], [v], 0, namespace, clone);
  }
}
