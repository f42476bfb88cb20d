/** The objects a template request deals with, as entries of one keyed store. */
module Cluster {
  import opened Wrappers
  import SpecRewrite

  // ---------------------------------------------------------------- the request

  datatype Reason = Reconciled | Reconciling | InvalidConfiguration | Failed | Waiting

  /** A status condition; `since` is its last transition time. */
  datatype Condition = Condition(isTrue: bool, reason: Reason, since: int)

  datatype Status = Status(ready: Option<Condition>, progressing: Option<Condition>, templateRef: Option<string>)

  datatype Request = Request(deleting: bool, finalizer: bool, status: Status)

  /** What never changes about a request: its UID, its immutable spec, and the names derived from them. */
  datatype Config = Config(uid: string, vmNamespace: string, vmName: string, ttl: Option<nat>, templateName: string,
                           cloneName: string -> string)
  {
    predicate IsValid() { vmNamespace != "" && vmName != "" }
  }

  // ---------------------------------------------------------------- what it creates or waits for

  /** Conditions are looked up by type; None means that the condition is absent. */
  datatype SnapshotStatus = SnapshotStatus(ready: Option<bool>, failure: Option<bool>, progressing: Option<bool>,
                                           errorReason: bool, phaseInProgress: bool, contentName: Option<string>)

  datatype Snapshot = Snapshot(uid: string, status: Option<SnapshotStatus>)

  datatype VolumeBackup = VolumeBackup(name: string, snapshotName: Option<string>)

  datatype Content = Content(readyToUse: Option<bool>, volumes: seq<VolumeBackup>, hasVm: bool, hasTemplateSpec: bool)

  datatype Party = TheRequest | TheTemplate | Somebody(id: string)

  datatype Owner = Owner(party: Party, controller: bool)

  datatype Volume = Volume(uid: string, owners: seq<Owner>, source: string, ready: Option<bool>, running: Option<bool>,
                           phaseFailed: bool)

  datatype Template = Template(uid: string, ready: Option<bool>)

  /** The objects under the keys of one request, and the clock. DataVolumes are many, the others one each. */
  datatype Store = Store(req: Option<Request>, snap: Option<Snapshot>, contents: map<string, Content>,
                         dvs: map<string, Volume>,
                         tpl: Option<Template>, now: int)

  // ---------------------------------------------------------------- owner references

  predicate IsControlledBy(owners: seq<Owner>, p: Party) {
    owners != [] && (if owners[0].controller then owners[0].party == p else IsControlledBy(owners[1..], p))
  }

  function Controllers(owners: seq<Owner>): seq<Party> {
    if owners == [] then []
    else (if owners[0].controller then [owners[0].party] else []) + Controllers(owners[1..])
  }

  function IndexOf(owners: seq<Owner>, p: Party): (i: nat)
    ensures i <= |owners| && (i < |owners| ==> owners[i].party == p)
  {
    if owners == [] || owners[0].party == p then 0 else IndexOf(owners[1..], p) + 1
  }

  /** Fails unless the party controls the object; otherwise drops its reference. */
  function RemoveController(owners: seq<Owner>, p: Party): Option<seq<Owner>> {
    var i := IndexOf(owners, p);
    if i == |owners| || !owners[i].controller then None else Some(owners[..i] + owners[i + 1..])
  }

  /** Fails if somebody else controls the object; otherwise makes the party its controller. */
  function SetController(owners: seq<Owner>, p: Party): Option<seq<Owner>> {
    if exists o :: o in owners && o.controller && o.party != p then None
    else
      var i := IndexOf(owners, p);
      Some(if i == |owners| then owners + [Owner(p, true)] else owners[i := Owner(p, true)])
  }

  // ---------------------------------------------------------------- the volume set

  function VolumeNames(vs: seq<VolumeBackup>): seq<string> { seq(|vs|, i requires 0 <= i < |vs| => vs[i].name) }

  function BackupsBut(vs: seq<VolumeBackup>, backend: string): seq<VolumeBackup> {
    if vs == [] then []
    else (if vs[0].name == backend then [] else [vs[0]]) + BackupsBut(vs[1..], backend)
  }

  /** The backups that are cloned: all but the backend storage. */
  function Clonable(c: Content): seq<VolumeBackup> {
    BackupsBut(c.volumes, SpecRewrite.Backend(VolumeNames(c.volumes)))
  }

  /** The clone and readiness loops and the spec rewrite work on the same volumes in the same order. */
  lemma {:induction false} LoopsAgree(vs: seq<VolumeBackup>, backend: string)
    ensures VolumeNames(BackupsBut(vs, backend)) == SpecRewrite.Cloned(VolumeNames(vs), backend)
  {
    if vs != [] {
      LoopsAgree(vs[1..], backend);
      assert VolumeNames(vs)[1..] == VolumeNames(vs[1..]);
      var rest := BackupsBut(vs[1..], backend);
      assert VolumeNames([vs[0]] + rest) == [vs[0].name] + VolumeNames(rest);
      assert [] + rest == rest;
    }
  }

  lemma {:induction false} BackupsButAreBackups(vs: seq<VolumeBackup>, backend: string)
    ensures forall i :: 0 <= i < |BackupsBut(vs, backend)| ==> BackupsBut(vs, backend)[i] in vs
  {
    if vs != [] {
      BackupsButAreBackups(vs[1..], backend);
    }
  }
}
