/** From a rewritten VM spec to the VirtualMachine that processing the generated template yields. */
module EndToEnd {
  import opened Wrappers
  import opened Text
  import opened Substitution
  import opened Json
  import opened Visit
  import opened Processor
  import opened SpecRewrite
  import P = Parameters
  import G = Generator
  import H = Hashing
  import N = Naming

  const NAME := "NAME"

  // ---------------------------------------------------------------- strings

  /** The string spells neither a ${KEY} nor a ${{KEY}}. */
  predicate RefFree(s: string) { FindAll(s) == [] && !IsTypedRef(s) }

  lemma RefFreeIffNothingCollected(s: string)
    ensures RefFree(s) <==> Collected(s) == {}
  {
    if FindAll(s) != [] {
      assert FindAll(s)[0] in FindAll(s);
      assert Key(FindAll(s)[0]) in Collected(s);
    } else if IsTypedRef(s) {
      assert TypedKey(s) in Collected(s);
    }
  }

  /** Names made of label characters are free of references. */
  lemma NoDollarIsRefFree(s: string)
    requires '$' !in s
    ensures RefFree(s)
  {
    NoDollarNoRefs(s);
  }

  lemma RefFreeIsFixed(s: string, values: map<string, string>)
    requires RefFree(s)
    ensures Substitute(s, values) == Substituted(s, true)
  {
  }

  /** A reference behind a hyphen is all the scan finds when the text in front is free of references. */
  lemma {:induction false} ScanBehindHyphen(d: string, m: Ref)
    requires FindAll(d) == []
    ensures FindAll(d + "-") == [] && FindAll(d + "-" + m) == [m]
    decreases d
  {
    var s := d + "-" + m;
    HyphenEndsScan(d, []);
    HyphenEndsScan(d, m);
    assert d + "-" + [] == d + "-";
    if d == [] {
      assert s[1..] == m && (d + "-")[1..] == [];
      assert m + [] == m;
      ScanRefFirst(m, []);
    } else {
      assert RefLength(d) == 0 && FindAll(d[1..]) == [];
      assert s[1..] == d[1..] + "-" + m && (d + "-")[1..] == d[1..] + "-";
      ScanBehindHyphen(d[1..], m);
    }
  }

  /** No reference runs across a hyphen. */
  lemma HyphenEndsScan(d: string, tail: string)
    requires FindAll(d) == []
    ensures RefLength(d + "-" + tail) == 0
  {
    var s := d + "-" + tail;
    forall j | 0 <= j <= |s| ensures !IsRef(s[..j]) {
      if j <= |d| && IsRef(d[..j]) {
        RefLengthIsUnique(d, j);
        assert false;
      }
      assert j <= |d| ==> s[..j] == d[..j];
      assert j > |d| ==> s[..j][|d|] == '-';
    }
  }

  /** The reference every generated name ends in. */
  function NameRef(): (m: Ref)
    ensures m == RefTo(NAME) && Key(m) == NAME && |m| == 7 && m[2] == 'N' && m[5] == 'E'
  {
    "${NAME}"
  }

  lemma SuffixScan(d: string)
    requires RefFree(d)
    ensures d + SUFFIX == (d + "-") + NameRef() && FindAll(d + SUFFIX) == [NameRef()] && !IsTypedRef(d + SUFFIX)
    ensures !Occurs(d + "-", NameRef())
  {
    var m := NameRef();
    var s := d + SUFFIX;
    assert s == (d + "-") + m;
    ScanBehindHyphen(d, m);
    assert s[|s| - 2] == m[5];
    FindAllIsExact(d + "-", m);
  }

  /** A derived name keeps its text and takes the parameter's value, whatever that value is. */
  lemma SuffixTakesTheName(d: string, values: map<string, string>)
    requires RefFree(d) && NAME in values
    ensures Collected(d + SUFFIX) == {NAME}
    ensures Substitute(d + SUFFIX, values) == Substituted(d + "-" + values[NAME], true)
  {
    SuffixScan(d);
    hide FindAll, IsTypedRef, ReplaceFirst, Occurs;
    OnlyReference(d + "-", NameRef(), values);
  }

  lemma NameTakesItsValue(values: map<string, string>)
    requires NAME in values
    ensures Collected(RefTo(NAME)) == {NAME}
    ensures Substitute(RefTo(NAME), values) == Substituted(values[NAME], true)
  {
    var m := NameRef();
    assert m == m + [] && [] + m == m && [] + values[NAME] == values[NAME];
    ScanRefFirst(m, []);
    hide ReplaceFirst;
    OnlyReference([], m, values);
  }

  lemma OnlyReference(front: string, m: Ref, values: map<string, string>)
    requires FindAll(front + m) == [m] && !IsTypedRef(front + m) && !Occurs(front, m) && Key(m) in values
    ensures Collected(front + m) == {Key(m)}
    ensures Substitute(front + m, values) == Substituted(front + values[Key(m)], true)
  {
    hide FindAll, IsTypedRef, ReplaceFirst, Occurs;
    var s, v := front + m, values[Key(m)];
    HitReplacesOwn(front, m, [], v);
    assert m + [] == m && (front + v) + [] == front + v && [m] == [m] + [];
    InTurnStep(s, m, [], values);
  }

  lemma NothingInEmpty(m: Ref)
    ensures FindAll([]) == [] && !Occurs([], m)
  {
  }

  /** A string that is one reference becomes its value. */
  lemma SoleReference(m: Ref, values: map<string, string>)
    requires Key(m) in values && !IsTypedRef(m)
    ensures Substitute(m, values) == Substituted(values[Key(m)], true)
  {
    hide *;
    ScanRefFirst(m, []);
    NothingInEmpty(m);
    assert m + [] == m && [] + m == m && [m] + [] == [m];
    assert [] + values[Key(m)] == values[Key(m)];
    OnlyReference([], m, values);
  }

  /** With A and B both set to "key", {"${A}": "x", "${B}": "y"} becomes {"key": "x"} or {"key": "y"}. */
  lemma CollidingKeys(decode: string -> Option<Json>)
    ensures var a: Ref, b: Ref := "${A}", "${B}";
            var v, t := Substituting(map["A" := "key", "B" := "key"], decode), Obj(map[a := Str("x"), b := Str("y")]);
            && Image(v, t, Obj(map["key" := Str("x")])) && Image(v, t, Obj(map["key" := Str("y")]))
            && forall t' :: Image(v, t, t') ==> t'.Obj? && |t'.entries| == 1
  {
    var a: Ref, b: Ref := "${A}", "${B}";
    var values := map["A" := "key", "B" := "key"];
    assert Key(a) == "A" && Key(b) == "B" && a != b;
    assert '$' !in "x" && '$' !in "y" && !IsTypedRef(a) && !IsTypedRef(b);
    hide *;
    KeyTakesValue(a, values, decode);
    KeyTakesValue(b, values, decode);
    PlainStays("x", values, decode);
    PlainStays("y", values, decode);
    CollisionLosesAnEntry(Substituting(values, decode), a, b, "key", Str("x"), Str("y"), Str("x"), Str("y"));
  }

  lemma KeyTakesValue(m: Ref, values: map<string, string>, decode: string -> Option<Json>)
    requires Key(m) in values && !IsTypedRef(m)
    ensures VisitedKey(Substituting(values, decode), m) == Ok(values[Key(m)])
  {
    SoleReference(m, values);
    hide Substitute, Key, IsTypedRef;
  }

  lemma PlainStays(s: string, values: map<string, string>, decode: string -> Option<Json>)
    requires '$' !in s
    ensures Image(Substituting(values, decode), Str(s), Str(s))
  {
    NoDollarIsRefFree(s);
    RefFreeIsFixed(s, values);
    hide Substitute;
  }

  // ---------------------------------------------------------------- names

  predicate EndsInSuffix(n: string) { |n| >= |SUFFIX| && n[|n| - |SUFFIX|..] == SUFFIX }

  function Stem(n: string): string
    requires EndsInSuffix(n)
  {
    n[..|n| - |SUFFIX|]
  }

  /** A name free of references, or one that only refers to the parameter in its suffix. */
  predicate Tidy(n: string) { if EndsInSuffix(n) then RefFree(Stem(n)) else RefFree(n) }

  /** What becomes of a name once the parameter has a value. */
  function Named(n: string, value: string): string { if EndsInSuffix(n) then Stem(n) + "-" + value else n }

  lemma SuffixedIsTidy(d: string, value: string)
    ensures EndsInSuffix(d + SUFFIX) && Stem(d + SUFFIX) == d && Named(d + SUFFIX, value) == d + "-" + value
  {
    assert (d + SUFFIX)[|d|..] == SUFFIX;
  }

  lemma RefFreeIsTidy(n: string, value: string)
    requires RefFree(n)
    ensures Tidy(n) && Named(n, value) == n
  {
    if EndsInSuffix(n) {
      var m := NameRef();
      assert n == Stem(n) + SUFFIX && n[|n| - 7..] == m;
      assert OccursAt(n, m, |n| - 7);
      FindAllIsExact(n, m);
      assert false;
    }
  }

  lemma TidyTakesTheName(n: string, values: map<string, string>)
    requires Tidy(n) && NAME in values
    ensures Collected(n) <= {NAME}
    ensures Substitute(n, values) == Substituted(Named(n, values[NAME]), true)
  {
    if EndsInSuffix(n) {
      assert n == Stem(n) + SUFFIX;
      SuffixTakesTheName(Stem(n), values);
    } else {
      RefFreeIffNothingCollected(n);
      RefFreeIsFixed(n, values);
    }
  }

  // ---------------------------------------------------------------- trees

  ghost predicate EveryString(t: Json, p: string -> bool)
    decreases t
  {
    match t
    case Str(s) => p(s)
    case Arr(items) => forall i :: 0 <= i < |items| ==> EveryString(items[i], p)
    case Obj(entries) => forall k :: k in entries ==> p(k) && EveryString(entries[k], p)
    case _ => true
  }

  lemma {:induction false} EveryStringIsMeant(t: Json, p: string -> bool)
    requires EveryString(t, p)
    ensures forall s :: s in Strings(t) ==> p(s)
    decreases t, 1
  {
    match t
    case Arr(items) => ItemsAreMeant(t, |items|, p);
    case Obj(entries) => EntriesAreMeant(t, entries.Keys, p);
    case _ =>
  }

  lemma {:induction false} ItemsAreMeant(t: Json, n: nat, p: string -> bool)
    requires t.Arr? && n <= |t.items| && EveryString(t, p)
    ensures forall s :: s in ItemStrings(t, n) ==> p(s)
    decreases t, 0, n
  {
    if n > 0 {
      ItemsAreMeant(t, n - 1, p);
      EveryStringIsMeant(t.items[n - 1], p);
    }
  }

  lemma {:induction false} EntriesAreMeant(t: Json, keys: set<string>, p: string -> bool)
    requires t.Obj? && keys <= t.entries.Keys && EveryString(t, p)
    ensures forall s :: s in EntryStrings(t, keys) ==> p(s)
    decreases t, 0, |keys|
  {
    if keys != {} {
      var k :| k in keys;
      EntryStringsAnyOrder(t, keys, k);
      EntriesAreMeant(t, keys - {k}, p);
      EveryStringIsMeant(t.entries[k], p);
    }
  }

  /** An object whose keys stay is visited entry by entry. */
  lemma ObjImage(v: Visitor, es: map<string, Json>, es': map<string, Json>)
    requires es'.Keys == es.Keys
    requires forall k :: k in es ==> VisitedKey(v, k) == Ok(k) && Image(v, es[k], es'[k])
    ensures Image(v, Obj(es), Obj(es'))
  {
    assert NewKeys(v, es) == es.Keys;
  }

  /** A tree free of references is a fixed point of substitution. */
  lemma {:induction false} RefFreeTreeIsFixed(t: Json, values: map<string, string>, decode: string -> Option<Json>)
    requires EveryString(t, RefFree)
    ensures Image(Substituting(values, decode), t, t) && SteadyKeys(Substituting(values, decode), t)
    decreases t
  {
    var v := Substituting(values, decode);
    match t
    case Str(s) => RefFreeIsFixed(s, values);
    case Arr(items) =>
      forall i | 0 <= i < |items| ensures Image(v, items[i], items[i]) && SteadyKeys(v, items[i]) {
        RefFreeTreeIsFixed(items[i], values, decode);
      }
    case Obj(entries) =>
      forall k | k in entries
        ensures VisitedKey(v, k) == Ok(k) && Image(v, entries[k], entries[k]) && SteadyKeys(v, entries[k])
      {
        RefFreeIsFixed(k, values);
        RefFreeTreeIsFixed(entries[k], values, decode);
      }
      ObjImage(v, entries, entries);
    case _ =>
  }

  ghost predicate SteadyKeys(v: Visitor, t: Json)
    decreases t
  {
    match t
    case Arr(items) => forall i :: 0 <= i < |items| ==> SteadyKeys(v, items[i])
    case Obj(entries) => forall k :: k in entries ==> VisitedKey(v, k) == Ok(k) && SteadyKeys(v, entries[k])
    case _ => true
  }

  lemma SteadyObjImage(v: Visitor, t: Json, t': Json)
    requires t.Obj? && SteadyKeys(v, t) && Image(v, t, t')
    ensures t'.Obj? && t'.entries.Keys == t.entries.Keys
    ensures forall k :: k in t.entries ==> Image(v, t.entries[k], t'.entries[k])
  {
    hide VisitedKey;
    assert NewKeys(v, t.entries) == t.entries.Keys;
  }

  lemma ArrImage(v: Visitor, t: Json, t': Json)
    requires t.Arr? && Image(v, t, t')
    ensures t'.Arr? && |t'.items| == |t.items| && forall i :: 0 <= i < |t.items| ==> Image(v, t.items[i], t'.items[i])
  {
  }

  lemma LeafImageIsUnique(v: Visitor, t: Json, a: Json, b: Json)
    requires !t.Arr? && !t.Obj? && Image(v, t, a) && Image(v, t, b)
    ensures a == b
  {
  }

  /** When all keys stay, a visit has one possible outcome. */
  lemma {:induction false} ImageIsUnique(v: Visitor, t: Json, a: Json, b: Json)
    requires SteadyKeys(v, t) && Image(v, t, a) && Image(v, t, b)
    ensures a == b
    decreases t
  {
    hide Image, VisitedKey;
    if t.Arr? {
      ArrImage(v, t, a);
      ArrImage(v, t, b);
      forall i | 0 <= i < |t.items| ensures a.items[i] == b.items[i] {
        ImageIsUnique(v, t.items[i], a.items[i], b.items[i]);
      }
      assert a.items == b.items;
    } else if t.Obj? {
      SteadyObjImage(v, t, a);
      SteadyObjImage(v, t, b);
      forall k | k in t.entries ensures a.entries[k] == b.entries[k] {
        ImageIsUnique(v, t.entries[k], a.entries[k], b.entries[k]);
      }
      assert a.entries == b.entries;
    } else {
      LeafImageIsUnique(v, t, a, b);
    }
  }

  // ---------------------------------------------------------------- what a value of the parameter turns a tree into

  predicate OnlyName(s: string) { Collected(s) <= {NAME} }

  /** Processing turns t into t' and nothing else, and t refers to no parameter but the name. */
  ghost predicate Turns(v: Visitor, t: Json, t': Json) {
    Image(v, t, t') && SteadyKeys(v, t) && EveryString(t, OnlyName)
  }

  ghost predicate TurnsAll(v: Visitor, es: map<string, Json>, es': map<string, Json>) {
    es'.Keys == es.Keys && forall k :: k in es ==> RefFree(k) && Turns(v, es[k], es'[k])
  }

  lemma TurnsName(n: string, values: map<string, string>, decode: string -> Option<Json>)
    requires Tidy(n) && NAME in values
    ensures Turns(Substituting(values, decode), Str(n), Str(Named(n, values[NAME])))
  {
    hide Named, Tidy, Collected, Substitute;
    TidyTakesTheName(n, values);
  }

  lemma TurnsFree(t: Json, values: map<string, string>, decode: string -> Option<Json>)
    requires EveryString(t, RefFree)
    ensures Turns(Substituting(values, decode), t, t)
  {
    RefFreeTreeIsFixed(t, values, decode);
    RefFreeOnlyNames(t);
  }

  lemma {:induction false} RefFreeOnlyNames(t: Json)
    requires EveryString(t, RefFree)
    ensures EveryString(t, OnlyName)
    decreases t
  {
    forall s ensures RefFree(s) ==> OnlyName(s) {
      RefFreeIffNothingCollected(s);
    }
    hide RefFree, OnlyName;
    match t
    case Arr(items) =>
      forall i | 0 <= i < |items| ensures EveryString(items[i], OnlyName) { RefFreeOnlyNames(items[i]); }
    case Obj(entries) =>
      forall k | k in entries ensures EveryString(entries[k], OnlyName) { RefFreeOnlyNames(entries[k]); }
    case _ =>
  }

  lemma TurnsObj(es: map<string, Json>, es': map<string, Json>, values: map<string, string>,
                 decode: string -> Option<Json>)
    requires TurnsAll(Substituting(values, decode), es, es')
    ensures Turns(Substituting(values, decode), Obj(es), Obj(es'))
  {
    var v := Substituting(values, decode);
    hide VisitedKey, OnlyName, RefFree, Substituting;
    forall k | k in es ensures VisitedKey(v, k) == Ok(k) && OnlyName(k) {
      RefFreeKey(k, values, decode);
    }
    ObjImage(v, es, es');
  }

  lemma RefFreeKey(k: string, values: map<string, string>, decode: string -> Option<Json>)
    requires RefFree(k)
    ensures VisitedKey(Substituting(values, decode), k) == Ok(k) && OnlyName(k)
  {
    RefFreeIsFixed(k, values);
    RefFreeIffNothingCollected(k);
    hide RefFree, Substitute, Collected;
  }

  lemma TurnsArr(ts: seq<Json>, ts': seq<Json>, v: Visitor)
    requires |ts'| == |ts| && forall i :: 0 <= i < |ts| ==> Turns(v, ts[i], ts'[i])
    ensures Turns(v, Arr(ts), Arr(ts'))
  {
  }

  lemma TurnsWith(v: Visitor, es: map<string, Json>, es': map<string, Json>, k: string, t: Json, t': Json)
    requires TurnsAll(v, es, es') && RefFree(k) && Turns(v, t, t')
    ensures TurnsAll(v, es[k := t], es'[k := t'])
  {
    hide Turns, RefFree;
  }

  lemma TurnsRest(es: map<string, Json>, values: map<string, string>, decode: string -> Option<Json>)
    requires EveryString(Obj(es), RefFree)
    ensures TurnsAll(Substituting(values, decode), es, es)
  {
    forall k | k in es ensures Turns(Substituting(values, decode), es[k], es[k]) {
      TurnsFree(es[k], values, decode);
    }
    hide Turns;
  }

  // ---------------------------------------------------------------- the template the controller writes

  /** The fields of the VM spec that the rewrite does not look at. */
  datatype Rest = Rest(spec: map<string, Json>, template: map<string, Json>, pod: map<string, Json>)

  function Field(key: string, t: Json): map<string, Json> { map[key := t] }

  function NameTree(n: string): Json { Obj(Field("name", Str(n))) }

  function VolumeTree(v: Volume): Json {
    match v.source
    case DataVolume(d) => Obj(Field("name", Str(v.name))["dataVolume" := NameTree(d)])
    case OtherSource(content) => Obj(Field("name", Str(v.name))["source" := content])
  }

  function DvtTree(d: Dvt): Json {
    match d.source
    case FromPvc(ns, pvc) => Obj(Field("metadata", NameTree(d.name))["spec" := PvcTree(ns, pvc)])
    case OtherSpec(content) => Obj(Field("metadata", NameTree(d.name))["spec" := content])
  }

  function PvcTree(ns: string, pvc: string): Json {
    Obj(Field("source", Obj(Field("pvc",
                                  Obj(Field("name", Str(pvc))["namespace" := Str(ns)]))))["storage" := Obj(map[])])
  }

  function Trees<T>(xs: seq<T>, f: T -> Json): seq<Json> { seq(|xs|, i requires 0 <= i < |xs| => f(xs[i])) }

  function VmTree(name: string, vols: seq<Volume>, dvts: seq<Dvt>, rest: Rest): map<string, Json> {
    var pod := Obj(rest.pod["volumes" := Arr(Trees(vols, VolumeTree))]);
    var template := Obj(rest.template["spec" := pod]);
    var spec := Obj(rest.spec["dataVolumeTemplates" := Arr(Trees(dvts, DvtTree))]["template" := template]);
    Field("metadata", NameTree(name))["spec" := spec]
  }

  function NamedVolume(v: Volume, value: string): Volume {
    if v.source.DataVolume? then Volume(v.name, DataVolume(Named(v.source.name, value))) else v
  }

  function NamedDvt(d: Dvt, value: string): Dvt { Dvt(Named(d.name, value), d.source) }

  ghost predicate TidyVolume(v: Volume) {
    RefFree(v.name) && if v.source.DataVolume? then Tidy(v.source.name) else EveryString(v.source.content, RefFree)
  }

  ghost predicate TidyDvt(d: Dvt) {
    Tidy(d.name) && if d.source.FromPvc? then RefFree(d.source.namespace) && RefFree(d.source.name)
        else EveryString(d.source.content, RefFree)
  }

  ghost predicate TidyVm(vols: seq<Volume>, dvts: seq<Dvt>) {
    && (forall i :: 0 <= i < |vols| ==> TidyVolume(vols[i]))
    && (forall j :: 0 <= j < |dvts| ==> TidyDvt(dvts[j]))
  }

  ghost predicate RefFreeRest(rest: Rest) {
    EveryString(Obj(rest.spec), RefFree) && EveryString(Obj(rest.template), RefFree)
        && EveryString(Obj(rest.pod), RefFree)
  }

  lemma FieldNamesAreRefFree()
    ensures RefFree("name") && RefFree("dataVolume") && RefFree("source") && RefFree("metadata") && RefFree("spec")
    ensures RefFree("pvc") && RefFree("namespace") && RefFree("storage") && RefFree("volumes") && RefFree("template")
    ensures RefFree("dataVolumeTemplates")
  {
    hide RefFree;
    NoDollarIsRefFree("name");
    NoDollarIsRefFree("dataVolume");
    NoDollarIsRefFree("source");
    NoDollarIsRefFree("metadata");
    NoDollarIsRefFree("spec");
    NoDollarIsRefFree("pvc");
    NoDollarIsRefFree("namespace");
    NoDollarIsRefFree("storage");
    NoDollarIsRefFree("volumes");
    NoDollarIsRefFree("template");
    NoDollarIsRefFree("dataVolumeTemplates");
  }

  lemma TurnsField(v: Visitor, key: string, t: Json, t': Json)
    requires RefFree(key) && Turns(v, t, t')
    ensures TurnsAll(v, Field(key, t), Field(key, t'))
  {
    hide Turns, RefFree;
  }

  lemma TurnsNameTree(n: string, n': string, values: map<string, string>, decode: string -> Option<Json>)
    requires Turns(Substituting(values, decode), Str(n), Str(n'))
    ensures Turns(Substituting(values, decode), NameTree(n), NameTree(n'))
  {
    hide Turns, RefFree, TurnsAll, Substituting, Field;
    FieldNamesAreRefFree();
    TurnsField(Substituting(values, decode), "name", Str(n), Str(n'));
    TurnsObj(Field("name", Str(n)), Field("name", Str(n')), values, decode);
  }

  lemma TurnsVolume(vol: Volume, values: map<string, string>, decode: string -> Option<Json>)
    requires TidyVolume(vol) && NAME in values
    ensures Turns(Substituting(values, decode), VolumeTree(vol), VolumeTree(NamedVolume(vol, values[NAME])))
  {
    hide Turns, RefFree, TurnsAll, Substituting, Tidy, Named, Field, EveryString;
    FieldNamesAreRefFree();
    var v, x := Substituting(values, decode), values[NAME];
    RefFreeName(vol.name, values, decode);
    TurnsField(v, "name", Str(vol.name), Str(vol.name));
    var own := Field("name", Str(vol.name));
    match vol.source
    case DataVolume(d) =>
      TurnsName(d, values, decode);
      TurnsNameTree(d, Named(d, x), values, decode);
      TurnsWith(v, own, own, "dataVolume", NameTree(d), NameTree(Named(d, x)));
      TurnsObj(own["dataVolume" := NameTree(d)], own["dataVolume" := NameTree(Named(d, x))], values, decode);
    case OtherSource(content) =>
      TurnsFree(content, values, decode);
      TurnsWith(v, own, own, "source", content, content);
      TurnsObj(own["source" := content], own["source" := content], values, decode);
  }

  lemma RefFreeName(n: string, values: map<string, string>, decode: string -> Option<Json>)
    requires RefFree(n)
    ensures Turns(Substituting(values, decode), Str(n), Str(n))
  {
    TurnsFree(Str(n), values, decode);
  }

  lemma TurnsPvc(ns: string, pvc: string, values: map<string, string>, decode: string -> Option<Json>)
    requires RefFree(ns) && RefFree(pvc)
    ensures Turns(Substituting(values, decode), PvcTree(ns, pvc), PvcTree(ns, pvc))
  {
    hide Turns, RefFree, TurnsAll, Substituting, Field;
    FieldNamesAreRefFree();
    var v := Substituting(values, decode);
    RefFreeName(pvc, values, decode);
    RefFreeName(ns, values, decode);
    var pvcField := Field("name", Str(pvc));
    TurnsField(v, "name", Str(pvc), Str(pvc));
    TurnsWith(v, pvcField, pvcField, "namespace", Str(ns), Str(ns));
    var ref := pvcField["namespace" := Str(ns)];
    TurnsObj(ref, ref, values, decode);
    TurnsField(v, "pvc", Obj(ref), Obj(ref));
    var source := Field("pvc", Obj(ref));
    TurnsObj(source, source, values, decode);
    TurnsField(v, "source", Obj(source), Obj(source));
    EmptyTreeIsFree();
    TurnsFree(Obj(map[]), values, decode);
    TurnsWith(v, Field("source", Obj(source)), Field("source", Obj(source)), "storage", Obj(map[]), Obj(map[]));
    var all := Field("source", Obj(source))["storage" := Obj(map[])];
    TurnsObj(all, all, values, decode);
  }

  lemma EmptyTreeIsFree()
    ensures EveryString(Obj(map[]), RefFree)
  {
  }

  lemma TurnsDvt(d: Dvt, values: map<string, string>, decode: string -> Option<Json>)
    requires TidyDvt(d) && NAME in values
    ensures Turns(Substituting(values, decode), DvtTree(d), DvtTree(NamedDvt(d, values[NAME])))
  {
    hide Turns, RefFree, TurnsAll, Substituting, Tidy, Named, Field, EveryString, PvcTree, NameTree;
    FieldNamesAreRefFree();
    var v, x := Substituting(values, decode), values[NAME];
    TurnsName(d.name, values, decode);
    TurnsNameTree(d.name, Named(d.name, x), values, decode);
    var own, own' := Field("metadata", NameTree(d.name)), Field("metadata", NameTree(Named(d.name, x)));
    TurnsField(v, "metadata", NameTree(d.name), NameTree(Named(d.name, x)));
    var spec := if d.source.FromPvc? then PvcTree(d.source.namespace, d.source.name) else d.source.content;
    if d.source.FromPvc? {
      TurnsPvc(d.source.namespace, d.source.name, values, decode);
    } else {
      TurnsFree(spec, values, decode);
    }
    TurnsWith(v, own, own', "spec", spec, spec);
    TurnsObj(own["spec" := spec], own'["spec" := spec], values, decode);
  }

  function NamedVolumes(vols: seq<Volume>, value: string): seq<Volume> {
    seq(|vols|, i requires 0 <= i < |vols| => NamedVolume(vols[i], value))
  }

  function NamedDvts(dvts: seq<Dvt>, value: string): seq<Dvt> {
    seq(|dvts|, i requires 0 <= i < |dvts| => NamedDvt(dvts[i], value))
  }

  lemma TurnsVm(vols: seq<Volume>, dvts: seq<Dvt>, rest: Rest, values: map<string, string>,
                decode: string -> Option<Json>)
    requires TidyVm(vols, dvts) && RefFreeRest(rest) && NAME in values
    ensures Turns(Substituting(values, decode), Obj(VmTree(RefTo(NAME), vols, dvts, rest)),
                  Obj(VmTree(values[NAME], NamedVolumes(vols, values[NAME]), NamedDvts(dvts, values[NAME]), rest)))
  {
    hide Turns, RefFree, TurnsAll, Substituting, Tidy, Named, NamedVolume, NamedDvt, TidyVolume, TidyDvt, Field,
         EveryString,
         VolumeTree, DvtTree, NameTree, RefTo;
    FieldNamesAreRefFree();
    var v, x := Substituting(values, decode), values[NAME];
    var vols', dvts' := NamedVolumes(vols, x), NamedDvts(dvts, x);
    forall i | 0 <= i < |vols| ensures Turns(v, Trees(vols, VolumeTree)[i], Trees(vols', VolumeTree)[i]) {
      TurnsVolume(vols[i], values, decode);
    }
    TurnsArr(Trees(vols, VolumeTree), Trees(vols', VolumeTree), v);
    forall i | 0 <= i < |dvts| ensures Turns(v, Trees(dvts, DvtTree)[i], Trees(dvts', DvtTree)[i]) {
      TurnsDvt(dvts[i], values, decode);
    }
    TurnsArr(Trees(dvts, DvtTree), Trees(dvts', DvtTree), v);
    TurnsVmFrame(Arr(Trees(vols, VolumeTree)), Arr(Trees(vols', VolumeTree)),
                 Arr(Trees(dvts, DvtTree)), Arr(Trees(dvts', DvtTree)), rest, values, decode);
  }

  lemma TurnsVmFrame(vs: Json, vs': Json, ds: Json, ds': Json, rest: Rest, values: map<string, string>,
                     decode: string -> Option<Json>)
    requires Turns(Substituting(values, decode), vs, vs') && Turns(Substituting(values, decode), ds, ds')
    requires RefFreeRest(rest) && NAME in values
    ensures Turns(Substituting(values, decode),
                  Obj(Field("metadata", NameTree(RefTo(NAME)))["spec" :=
                    Obj(rest.spec["dataVolumeTemplates" := ds]["template" :=
                      Obj(rest.template["spec" := Obj(rest.pod["volumes" := vs])])])]),
                  Obj(Field("metadata", NameTree(values[NAME]))["spec" :=
                    Obj(rest.spec["dataVolumeTemplates" := ds']["template" :=
                      Obj(rest.template["spec" := Obj(rest.pod["volumes" := vs'])])])]))
  {
    hide Turns, RefFree, TurnsAll, Substituting, Field, EveryString, NameTree, RefTo;
    FieldNamesAreRefFree();
    var v := Substituting(values, decode);
    TurnsRest(rest.pod, values, decode);
    TurnsWith(v, rest.pod, rest.pod, "volumes", vs, vs');
    var pod, pod' := rest.pod["volumes" := vs], rest.pod["volumes" := vs'];
    TurnsObj(pod, pod', values, decode);
    TurnsRest(rest.template, values, decode);
    TurnsWith(v, rest.template, rest.template, "spec", Obj(pod), Obj(pod'));
    var tpl, tpl' := rest.template["spec" := Obj(pod)], rest.template["spec" := Obj(pod')];
    TurnsObj(tpl, tpl', values, decode);
    TurnsRest(rest.spec, values, decode);
    TurnsWith(v, rest.spec, rest.spec, "dataVolumeTemplates", ds, ds');
    var spec, spec' := rest.spec["dataVolumeTemplates" := ds], rest.spec["dataVolumeTemplates" := ds'];
    TurnsWith(v, spec, spec', "template", Obj(tpl), Obj(tpl'));
    TurnsObj(spec["template" := Obj(tpl)], spec'["template" := Obj(tpl')], values, decode);
    TurnsTheName(values, decode);
    TurnsNameTree(RefTo(NAME), values[NAME], values, decode);
    var md, md' := Field("metadata", NameTree(RefTo(NAME))), Field("metadata", NameTree(values[NAME]));
    TurnsField(v, "metadata", NameTree(RefTo(NAME)), NameTree(values[NAME]));
    TurnsWith(v, md, md', "spec", Obj(spec["template" := Obj(tpl)]), Obj(spec'["template" := Obj(tpl')]));
    TurnsObj(md["spec" := Obj(spec["template" := Obj(tpl)])], md'["spec" := Obj(spec'["template" := Obj(tpl')])],
             values, decode);
  }

  lemma TurnsTheName(values: map<string, string>, decode: string -> Option<Json>)
    requires NAME in values
    ensures Turns(Substituting(values, decode), Str(RefTo(NAME)), Str(values[NAME]))
  {
    hide RefTo, Collected, Substitute;
    NameTakesItsValue(values);
  }

  // ---------------------------------------------------------------- end to end

  /** The source VM holds no reference text. */
  ghost predicate VmIsRefFree(vols: seq<Volume>, dvts: seq<Dvt>, names: seq<string>, ns: string, rest: Rest) {
    && (forall i :: 0 <= i < |vols| ==> RefFree(vols[i].name) && RefFree(DvNameOf(vols[i])) && TidyVolume(vols[i]))
    && (forall i :: 0 <= i < |dvts| ==> RefFree(dvts[i].name) && TidyDvt(dvts[i]))
    && (forall v :: v in names ==> RefFree(v))
    && RefFree(ns) && RefFreeRest(rest)
  }

  ghost predicate SourceIsRefFree(vols: seq<Volume>, dvts: seq<Dvt>, names: seq<string>, ns: string,
                                  clone: string -> string, rest: Rest) {
    VmIsRefFree(vols, dvts, names, ns, rest) && forall v :: v in names ==> RefFree(clone(v))
  }

  lemma NotRewritten(n: string, d: string)
    requires RefFree(n)
    ensures n != d + SUFFIX
  {
    hide RefFree;
    RefFreeIsTidy(n, "");
    SuffixedIsTidy(d, "");
  }

  lemma DerivedIsRefFree(vols: seq<Volume>, dvts: seq<Dvt>, names: seq<string>, ns: string, rest: Rest, v: string)
    requires VmIsRefFree(vols, dvts, names, ns, rest) && v in names
    ensures RefFree(Derived(vols, v))
  {
    hide RefFree, RefFreeRest;
  }

  /** A source without reference text has no name that looks like a rewritten one. */
  lemma RefFreeIsLegal(vols: seq<Volume>, dvts: seq<Dvt>, names: seq<string>, ns: string, rest: Rest)
    requires ListedOnce(names) && VmIsRefFree(vols, dvts, names, ns, rest)
    ensures NamesAreLegal(vols, dvts, names)
  {
    hide RefFree, RefFreeRest, Derived;
    forall v, w | v in names && w in names ensures Derived(vols, w) != Derived(vols, v) + SUFFIX {
      DerivedIsRefFree(vols, dvts, names, ns, rest, w);
      NotRewritten(Derived(vols, w), Derived(vols, v));
    }
    forall v, j | v in names && 0 <= j < |dvts| ensures dvts[j].name != Derived(vols, v) + SUFFIX {
      NotRewritten(dvts[j].name, Derived(vols, v));
    }
  }

  lemma CloneIsTidy(vols: seq<Volume>, dvts: seq<Dvt>, names: seq<string>, ns: string, clone: string -> string,
                    rest: Rest, v: string)
    requires SourceIsRefFree(vols, dvts, names, ns, clone, rest) && v in names
    ensures TidyDvt(CloneDvt(vols, v, ns, clone))
  {
    DerivedIsRefFree(vols, dvts, names, ns, rest, v);
    SuffixedIsTidy(Derived(vols, v), "");
    hide RefFree, RefFreeRest, Derived;
  }

  /** Shared, repeated or empty names make no difference here: the rewrite never brings in a reference but
      the suffix. */
  lemma RewriteStaysTidy(vols: seq<Volume>, dvts: seq<Dvt>, names: seq<string>, ns: string, clone: string -> string,
                         rest: Rest)
    requires ListedOnce(names) && SourceIsRefFree(vols, dvts, names, ns, clone, rest)
    ensures TidyVm(RewrittenVolumes(vols, names), RewrittenDvts(vols, dvts, names, ns, clone))
  {
    RefFreeIsLegal(vols, dvts, names, ns, rest);
    assert names[..0] == [] && names[0..] == names;
    var at := RewriteInduction(vols, dvts, names, 0, vols, dvts, map[], ns, clone);
    hide RefFree, RewrittenVolumes, RewrittenDvts, NamesAreLegal, EveryString, RefFreeRest, Position, Derived;
    var vols', dvts' := RewrittenVolumes(vols, names), RewrittenDvts(vols, dvts, names, ns, clone);
    forall i | 0 <= i < |vols'| ensures TidyVolume(vols'[i]) {
      SuffixedIsTidy(DvNameOf(vols[i]), "");
    }
    forall j | 0 <= j < |dvts'| ensures TidyDvt(dvts'[j]) {
      if Covers(at, j) {
        var v :| v in at && at[v] == j;
        assert v in names;
        CloneIsTidy(vols, dvts, names, ns, clone, rest, v);
      }
    }
  }

  /** The template written for a source free of references refers to its one parameter and to nothing else, so it
      validates without error or warning; and for any value of that parameter processing has exactly one outcome:
      the VM under that name, with the value in the suffix of each derived name and every other string unchanged. */
  lemma GeneratedTemplateWorks(vols: seq<Volume>, dvts: seq<Dvt>, names: seq<string>, ns: string,
                               clone: string -> string,
                               rest: Rest, values: map<string, string>, decode: string -> Option<Json>)
    requires ListedOnce(names) && SourceIsRefFree(vols, dvts, names, ns, clone, rest) && NAME in values
    ensures var vols', dvts' := RewrittenVolumes(vols, names), RewrittenDvts(vols, dvts, names, ns, clone);
            var entries, x := VmTree(RefTo(NAME), vols', dvts', rest), values[NAME];
            && References(Obj(entries)) == {NAME}
            && Stripped(entries) == entries
            && Visitable(Substituting(values, decode), Obj(entries))
            && forall t' :: Image(Substituting(values, decode), Obj(entries), t')
                       <==> t' == Obj(VmTree(x, NamedVolumes(vols', x), NamedDvts(dvts', x), rest))
  {
    var vols', dvts' := RewrittenVolumes(vols, names), RewrittenDvts(vols, dvts, names, ns, clone);
    var entries, x := VmTree(RefTo(NAME), vols', dvts', rest), values[NAME];
    var out := VmTree(x, NamedVolumes(vols', x), NamedDvts(dvts', x), rest);
    hide *;
    RewriteStaysTidy(vols, dvts, names, ns, clone, rest);
    RestIsRefFree(vols, dvts, names, ns, clone, rest);
    NothingToStrip(vols', dvts', rest);
    TurnsVm(vols', dvts', rest, values, decode);
    OneOutcome(Obj(entries), Obj(out), values, decode);
    NameIsReferredTo(vols', dvts', rest);
  }

  lemma RestIsRefFree(vols: seq<Volume>, dvts: seq<Dvt>, names: seq<string>, ns: string, clone: string -> string,
                      rest: Rest)
    requires SourceIsRefFree(vols, dvts, names, ns, clone, rest)
    ensures RefFreeRest(rest)
  {
  }

  lemma OneOutcome(t: Json, u: Json, values: map<string, string>, decode: string -> Option<Json>)
    requires Turns(Substituting(values, decode), t, u)
    ensures References(t) <= {NAME} && Visitable(Substituting(values, decode), t)
    ensures forall t' :: Image(Substituting(values, decode), t, t') <==> t' == u
  {
    EveryStringIsMeant(t, OnlyName);
    ImageMeansVisitable(Substituting(values, decode), t, u);
    forall t' | Image(Substituting(values, decode), t, t') ensures t' == u {
      ImageIsUnique(Substituting(values, decode), t, t', u);
    }
  }

  /** A tree whose keys stay and that has an image can be visited to the end. */
  lemma {:induction false} ImageMeansVisitable(v: Visitor, t: Json, t': Json)
    requires SteadyKeys(v, t) && Image(v, t, t')
    ensures Visitable(v, t)
    decreases t
  {
    if t.Arr? {
      ArrImage(v, t, t');
      forall i | 0 <= i < |t.items| ensures Visitable(v, t.items[i]) {
        ImageMeansVisitable(v, t.items[i], t'.items[i]);
      }
    } else if t.Obj? {
      SteadyObjImage(v, t, t');
      forall k | k in t.entries ensures Visitable(v, t.entries[k]) {
        ImageMeansVisitable(v, t.entries[k], t'.entries[k]);
      }
    }
  }

  lemma NothingToStrip(vols: seq<Volume>, dvts: seq<Dvt>, rest: Rest)
    ensures Stripped(VmTree(RefTo(NAME), vols, dvts, rest)) == VmTree(RefTo(NAME), vols, dvts, rest)
  {
  }

  lemma NameIsReferredTo(vols: seq<Volume>, dvts: seq<Dvt>, rest: Rest)
    ensures NAME in References(Obj(VmTree(RefTo(NAME), vols, dvts, rest)))
  {
    NameTakesItsValue(map[NAME := ""]);
    hide Collected, RefTo, Strings, Trees;
    var t := Obj(VmTree(RefTo(NAME), vols, dvts, rest));
    var md := NameTree(RefTo(NAME));
    EntryStringsIncluded(t, "metadata");
    EntryStringsIncluded(md, "name");
    OwnString(RefTo(NAME));
  }

  lemma EntryStringsIncluded(t: Json, k: string)
    requires t.Obj? && k in t.entries
    ensures Strings(t.entries[k]) <= Strings(t)
  {
    EntryStringsAnyOrder(t, t.entries.Keys, k);
  }

  lemma OwnString(s: string)
    ensures s in Strings(Str(s))
  {
  }

  /** Whatever value the name takes, each backed-up volume of the resulting VM uses the DataVolume of a template whose
      source is that volume's clone. */
  lemma VolumesMeetTheirTemplates(vols: seq<Volume>, dvts: seq<Dvt>, names: seq<string>, ns: string,
                                  clone: string -> string, value: string, i: nat)
    requires NamesAreDistinct(vols, dvts, names) && i < |vols| && vols[i].name in names
    ensures var vols', dvts' := RewrittenVolumes(vols, names), RewrittenDvts(vols, dvts, names, ns, clone);
            && |vols'| == |vols| && NamedVolume(vols'[i], value)
                == Volume(vols[i].name, DataVolume(DvNameOf(vols[i]) + "-" + value))
            && exists j :: && 0 <= j < |dvts'|
                 && DataVolume(NamedDvt(dvts'[j], value).name) == NamedVolume(vols'[i], value).source
                           && dvts'[j].source == FromPvc(ns, clone(vols[i].name))
  {
    RewriteKeepsReferences(vols, dvts, names, ns, clone);
    DerivedOfVolume(vols, i);
    hide RewrittenVolumes, RewrittenDvts, Derived;
    SuffixedIsTidy(DvNameOf(vols[i]), value);
  }

  /** The original templates that the rewrite leaves alone do not end up under that name. */
  ghost predicate NoOriginalTakes(vols: seq<Volume>, dvts: seq<Dvt>, names: seq<string>, value: string, name: string) {
    forall j :: 0 <= j < |dvts| && !Touched(vols, dvts, names, j) ==> Named(dvts[j].name, value) != name
  }

  /** Exactly when the DataVolume of a backed-up volume is that of one template only once the name has a value: no
      original template that the rewrite leaves alone ends up under the same name. */
  lemma VolumeMeetsOneTemplateIff(vols: seq<Volume>, dvts: seq<Dvt>, names: seq<string>, ns: string,
                                  clone: string -> string,
                                  value: string, i: nat)
    requires NamesAreDistinct(vols, dvts, names) && i < |vols| && vols[i].name in names
    ensures var name, dvts' := DvNameOf(vols[i]) + "-" + value, RewrittenDvts(vols, dvts, names, ns, clone);
            ResolvesTo(NamedDvts(dvts', value), name, FromPvc(ns, clone(vols[i].name)))
            <==> NoOriginalTakes(vols, dvts, names, value, name)
  {
    var v, name, dvts' := vols[i].name, DvNameOf(vols[i]) + "-" + value, RewrittenDvts(vols, dvts, names, ns, clone);
    var out := NamedDvts(dvts', value);
    var at := RewriteExactly(vols, dvts, names, ns, clone);
    DerivedOfVolume(vols, i);
    hide RewrittenDvts, Derived, NamesAreLegal, TakesFirst, Touched, Named;
    forall w | w in names
      ensures w in at && at[w] < |dvts'| && out[at[w]] == Dvt(Derived(vols, w) + "-" + value, FromPvc(ns, clone(w)))
    {
      assert IsCloneAt(vols, dvts, dvts', at[w], w, ns, clone);
      SuffixedIsTidy(Derived(vols, w), value);
    }
    forall j | 0 <= j < |dvts'| && !Covers(at, j)
      ensures j < |dvts| && !Touched(vols, dvts, names, j) && out[j].name == Named(dvts[j].name, value)
    {
    }
    hide NamedDvts, DvtsIntact;
    OneOfTheName(vols, dvts, out, names, at, value, v, name, ns, clone);
  }

  lemma OneOfTheName(vols: seq<Volume>, dvts: seq<Dvt>, out: seq<Dvt>, names: seq<string>, at: map<string, nat>,
                     value: string,
                     v: string, name: string, ns: string, clone: string -> string)
    requires at.Keys == SetOf(names) && v in names && name == Derived(vols, v) + "-" + value && |dvts| <= |out|
    requires forall w, u :: w in names && u in names && w != u ==> Derived(vols, w) != Derived(vols, u)
    requires forall w :: w in names ==>
               at[w] < |out| && out[at[w]] == Dvt(Derived(vols, w) + "-" + value, FromPvc(ns, clone(w)))
    requires forall j :: 0 <= j < |out| && !Covers(at, j) ==>
               j < |dvts| && !Touched(vols, dvts, names, j) && out[j].name == Named(dvts[j].name, value)
    requires forall j :: 0 <= j < |dvts| ==> (Covers(at, j) <==> Touched(vols, dvts, names, j))
    ensures ResolvesTo(out, name, FromPvc(ns, clone(v))) <==> NoOriginalTakes(vols, dvts, names, value, name)
  {
    hide Derived, Touched, Named;
    assert out[at[v]] == Dvt(name, FromPvc(ns, clone(v)));
    if NoOriginalTakes(vols, dvts, names, value, name) {
      forall j | 0 <= j < |out| && j != at[v] ensures out[j].name != name {
        if Covers(at, j) {
          var w :| w in at && at[w] == j;
          assert w in names && w != v;
          SameEnding(Derived(vols, w), Derived(vols, v), "-" + value);
          assert Derived(vols, w) + ("-" + value) == out[j].name && Derived(vols, v) + ("-" + value) == name;
        }
      }
    } else {
      var j :| 0 <= j < |dvts| && !Touched(vols, dvts, names, j) && Named(dvts[j].name, value) == name;
      assert !Covers(at, j) && out[j].name == name && j != at[v];
    }
  }

  lemma SameEnding(a: string, b: string, end: string)
    requires a != b
    ensures a + end != b + end
  {
    assert a == (a + end)[..|a|] && b == (b + end)[..|b|];
  }

  /** The original "disk-vm1" stands in the way of the name "vm1" for the volume "disk": two templates end up under
      it. */
  lemma OriginalTakesTheName(vols: seq<Volume>, dvts: seq<Dvt>, names: seq<string>, ns: string,
                             clone: string -> string, content: Json)
    requires vols == [Volume("disk", DataVolume("disk"))] && names == ["disk"]
    requires dvts == [Dvt("disk", OtherSpec(content)), Dvt("disk-vm1", OtherSpec(content))]
    ensures NamesAreDistinct(vols, dvts, names)
    ensures !ResolvesTo(NamedDvts(RewrittenDvts(vols, dvts, names, ns, clone), "vm1"), "disk-vm1",
                        FromPvc(ns, clone("disk")))
  {
    assert Position(vols, "disk") == 0 && Derived(vols, "disk") == "disk";
    assert DvtPosition(dvts, "disk") == 0;
    assert |"disk" + SUFFIX| == 12;
    assert NamesAreDistinct(vols, dvts, names);
    assert !Touched(vols, dvts, names, 1);
    assert Named("disk-vm1", "vm1") == "disk-vm1" by {
      assert "disk-vm1"[7] != SUFFIX[|SUFFIX| - 1];
    }
    assert "disk" + "-" + "vm1" == "disk-vm1";
    hide *;
    VolumeMeetsOneTemplateIff(vols, dvts, names, ns, clone, "vm1", 0);
  }

  // ---------------------------------------------------------------- what processing shows

  /** A fixed namespace never shows in a processed VM whose field names refer to no parameter. */
  lemma FixedNamespaceNeverShows(entries: map<string, Json>, ns: string, message: string, values: map<string, string>,
                                 decode: string -> Option<Json>, convertible: Json -> bool, vm: Json, msg: string)
    requires "metadata" in entries && entries["metadata"].Obj? && "namespace" in entries["metadata"].entries
    requires entries["metadata"].entries["namespace"] == Str(ns) && ns != "" && '$' !in ns
    requires forall k :: k in entries ==> RefFree(k)
    requires forall k :: k in entries["metadata"].entries ==> RefFree(k)
    requires OutcomeWith(entries, message, values, decode, convertible, Done(vm, msg))
    ensures vm.Obj? && vm.entries.Keys == entries.Keys && vm.entries["metadata"].Obj?
    ensures vm.entries["metadata"].entries.Keys == entries["metadata"].entries.Keys - {"namespace"}
  {
    hide *;
    var md := entries["metadata"].entries;
    var stripped := entries["metadata" := Obj(md - {"namespace"})];
    FixedNamespaceGoes(entries, md, ns);
    DoneIsImage(entries, message, values, decode, convertible, vm, msg);
    assert stripped.Keys == entries.Keys && stripped["metadata"] == Obj(md - {"namespace"});
    RefFreeKeysStay(stripped, values, decode, vm);
    RefFreeKeysStay(md - {"namespace"}, values, decode, vm.entries["metadata"]);
  }

  lemma DoneIsImage(entries: map<string, Json>, message: string, values: map<string, string>,
                    decode: string -> Option<Json>, convertible: Json -> bool, vm: Json, msg: string)
    requires OutcomeWith(entries, message, values, decode, convertible, Done(vm, msg))
    ensures Image(Substituting(values, decode), Obj(Stripped(entries)), vm)
  {
    hide Image, Stripped, Substituting;
  }

  lemma RefFreeKeysStay(es: map<string, Json>, values: map<string, string>, decode: string -> Option<Json>, t': Json)
    requires (forall k :: k in es ==> RefFree(k)) && Image(Substituting(values, decode), Obj(es), t')
    ensures t'.Obj? && t'.entries.Keys == es.Keys
    ensures forall k :: k in es ==> Image(Substituting(values, decode), es[k], t'.entries[k])
  {
    hide RefFree, VisitedKey, Substituting;
    var v := Substituting(values, decode);
    forall k | k in es ensures VisitedKey(v, k) == Ok(k) {
      RefFreeKey(k, values, decode);
    }
    assert NewKeys(v, es) == es.Keys;
  }

  /** The message is the template's with every reference replaced at once, if the result spells no further one. */
  lemma ProcessedMessage(entries: map<string, Json>, message: string, values: map<string, string>,
                         decode: string -> Option<Json>, convertible: Json -> bool, vm: Json, msg: string)
    requires OutcomeWith(entries, message, values, decode, convertible, Done(vm, msg)) && !IsTypedRef(message)
    ensures Keys(FindAll(message)) <= values.Keys
    ensures NoRefText(OnePass(message, values)) ==> msg == OnePass(message, values)
  {
    SubstituteIffCollectedDefined(message, values);
    hide FindAll, NoRefText, Image;
    if NoRefText(OnePass(message, values)) {
      InTurnRefinesOnePass(message, values);
    }
  }

  // ---------------------------------------------------------------- through the process endpoint

  const GENERATED_FROM := "vm-[a-z0-9]{5}"

  /** The one parameter of a generated template. */
  function NameParameter(): P.Parameter { P.Parameter(NAME, "", P.EXPRESSION, GENERATED_FROM, true) }

  /** The template that is created for a request, once the source VM has been rewritten. */
  function GeneratedTemplate(vols: seq<Volume>, dvts: seq<Dvt>, names: seq<string>, ns: string,
                             clone: string -> string, rest: Rest): Template {
    Template(Decoded(VmTree(RefTo(NAME), RewrittenVolumes(vols, names), RewrittenDvts(vols, dvts, names, ns, clone),
                            rest)),
             [NameParameter()], "")
  }

  /** The value the name takes: the supplied one, or else a generated one. */
  function NameValue(supplied: map<string, string>, draws: P.Draws): string {
    if NAME in supplied && supplied[NAME] != "" then supplied[NAME]
    else if draws(0, GENERATED_FROM).Some? then draws(0, GENERATED_FROM).value else ""
  }

  lemma NameIsInOrder(supplied: map<string, string>, draws: P.Draws)
    ensures var ps := P.Merged([NameParameter()], supplied);
            |ps| == 1 && (P.ProblemAt(ps, 0, draws).None? <==> NameValue(supplied, draws) != "")
  {
  }

  lemma NameIsFilled(supplied: map<string, string>, draws: P.Draws, values: map<string, string>)
    requires var ps := P.Merged([NameParameter()], supplied); P.AllInOrder(ps, draws) && AreValues(ps, draws, values)
    ensures NAME in values && values[NAME] == NameValue(supplied, draws) != ""
  {
    var ps := P.Merged([NameParameter()], supplied);
    assert P.ProblemAt(ps, 0, draws).None? && ps[0].name == NAME;
  }

  lemma EmptyMessage(values: map<string, string>)
    ensures Collected("") == {} && Substitute("", values) == Substituted("", true)
  {
    RefFreeIffNothingCollected("");
  }

  /** A generated template defines exactly the parameters it refers to: validation finds no error and no warning. */
  lemma GeneratedTemplateValidates(vols: seq<Volume>, dvts: seq<Dvt>, names: seq<string>, ns: string,
                                   clone: string -> string, rest: Rest)
    requires ListedOnce(names) && SourceIsRefFree(vols, dvts, names, ns, clone, rest)
    ensures var tpl := GeneratedTemplate(vols, dvts, names, ns, clone, rest);
            TemplateReferences(tpl) == P.Names(tpl.parameters) == {NAME}
  {
    GeneratedTemplateWorks(vols, dvts, names, ns, clone, rest, map[NAME := ""], s => None);
    EmptyMessage(map[]);
    hide ListedOnce, SourceIsRefFree, References, Collected, RewrittenVolumes, RewrittenDvts, VmTree;
    assert NameParameter() in [NameParameter()];
  }

  /** End to end: whatever name is supplied or drawn, the process endpoint accepts a generated template, and the VM it
      answers with is the rewritten one under that name. Only a name that cannot be had, or a VM that is not
      one, fails. */
  lemma GeneratedTemplateProcesses(vols: seq<Volume>, dvts: seq<Dvt>, names: seq<string>, ns: string,
                                   clone: string -> string, rest: Rest,
                                   supplied: map<string, string>, draws: P.Draws, decode: string -> Option<Json>,
                                   convertible: Json -> bool, a: Answer)
    requires ListedOnce(names) && SourceIsRefFree(vols, dvts, names, ns, clone, rest) && supplied.Keys <= {NAME}
    requires IsAnswer(GeneratedTemplate(vols, dvts, names, ns, clone, rest), supplied, draws, decode, convertible, a)
    ensures a.Answered?
    ensures var x := NameValue(supplied, draws);
            var vm := Obj(VmTree(x, NamedVolumes(RewrittenVolumes(vols, names), x),
                                 NamedDvts(RewrittenDvts(vols, dvts, names, ns, clone), x), rest));
            if x == "" then a.result.BadParameter?
            else a.result == if convertible(vm) then Done(vm, "") else NotConvertible
  {
    var tpl := GeneratedTemplate(vols, dvts, names, ns, clone, rest);
    GeneratedTemplateValidates(vols, dvts, names, ns, clone, rest);
    NameIsInOrder(supplied, draws);
    hide TemplateReferences;
    if !a.result.BadParameter? {
      var ps := P.Merged([NameParameter()], supplied);
      hide RewrittenVolumes, RewrittenDvts, VmTree, P.Merged, OutcomeWith, ListedOnce, SourceIsRefFree, Visitable,
           Image, Stripped;
      var values :| AreValues(ps, draws, values)
          && OutcomeWith(tpl.vm.entries, "", values, decode, convertible, a.result);
      NameIsFilled(supplied, draws, values);
      hide AreValues, NameValue, P.AllInOrder;
      OnlyOutcome(vols, dvts, names, ns, clone, rest, values, decode, convertible, a.result);
    }
  }

  lemma OnlyOutcome(vols: seq<Volume>, dvts: seq<Dvt>, names: seq<string>, ns: string, clone: string -> string,
                    rest: Rest,
                    values: map<string, string>, decode: string -> Option<Json>, convertible: Json -> bool,
                        r: Processed)
    requires ListedOnce(names) && SourceIsRefFree(vols, dvts, names, ns, clone, rest) && NAME in values
    requires OutcomeWith(GeneratedTemplate(vols, dvts, names, ns, clone, rest).vm.entries, "", values, decode,
                         convertible, r)
    ensures var x := values[NAME];
            var vm := Obj(VmTree(x, NamedVolumes(RewrittenVolumes(vols, names), x),
                                 NamedDvts(RewrittenDvts(vols, dvts, names, ns, clone), x), rest));
            r == if convertible(vm) then Done(vm, "") else NotConvertible
  {
    GeneratedTemplateWorks(vols, dvts, names, ns, clone, rest, values, decode);
    EmptyMessage(values);
    hide ListedOnce, SourceIsRefFree, RewrittenVolumes, RewrittenDvts, VmTree, Image, Visitable, Stripped, Substitute,
         NamedVolumes, NamedDvts;
  }

  // ---------------------------------------------------------------- with the names the system itself makes

  /** The generator draws the name: its run on the parameter's expression comes to an end, and that is the value. */
  ghost predicate DrawsName(draws: P.Draws) {
    exists trace :: IsNameRun(trace) && draws(0, GENERATED_FROM) == Some(trace[|trace| - 1])
  }

  ghost predicate IsNameRun(trace: seq<string>) {
    G.IsRun(trace) && trace[0] == GENERATED_FROM && G.PlanFor(trace[|trace| - 1]).Finished?
  }

  predicate IsVmName(x: string) {
    |x| == 8 && x[..3] == "vm-" && forall k :: 3 <= k < 8 ==> 'a' <= x[k] <= 'z' || IsDigit(x[k])
  }

  lemma NameExpression(text: string, ranges: string, length: string)
    requires text == "vm-" && ranges == "a-z0-9" && length == "5"
    ensures GENERATED_FROM == text + G.PieceText(G.Expr(ranges, length))
  {
  }

  lemma DrawnNameIsVmName(draws: P.Draws)
    requires DrawsName(draws)
    ensures draws(0, GENERATED_FROM).Some? && IsVmName(draws(0, GENERATED_FROM).value)
  {
    hide G.PlanFor, G.Round, G.PieceText;
    var trace :| IsNameRun(trace) && draws(0, GENERATED_FROM) == Some(trace[|trace| - 1]);
    NameExpression("vm-", "a-z0-9", "5");
    G.GeneratedNames("vm-", "a-z0-9", "5", trace);
  }

  function AsText(bytes: H.Bytes): string { seq(|bytes|, i requires 0 <= i < |bytes| => bytes[i] as char) }

  /** The names of clones: stable names made from the template's name, the request's UID and the volume's name. */
  function CloneNames(base: H.Bytes, uid: H.Bytes, bytesOf: string -> H.Bytes): string -> string {
    v => AsText(N.StableName(base, [uid, bytesOf(v)]))
  }

  lemma CloneNamesAreRefFree(base: H.Bytes, uid: H.Bytes, bytesOf: string -> H.Bytes, v: string)
    ensures RefFree(CloneNames(base, uid, bytesOf)(v))
  {
    var name := N.StableName(base, [uid, bytesOf(v)]);
    N.StableNameIsLegal(base, [uid, bytesOf(v)]);
    hide N.StableName;
    assert forall i :: 0 <= i < |name| ==> N.IsLabelByte(name[i]) && AsText(name)[i] != '$';
    NoDollarIsRefFree(AsText(name));
  }

  /** Clones of volumes whose names are equally long and differ in one byte never share a name. */
  lemma CloneNamesDiffer(base: H.Bytes, uid: H.Bytes, bytesOf: string -> H.Bytes, v: string, w: string, i: nat)
    requires |bytesOf(v)| == |bytesOf(w)| && i < |bytesOf(v)| && bytesOf(v)[i] != bytesOf(w)[i]
    requires forall j :: 0 <= j < |bytesOf(v)| && j != i ==> bytesOf(v)[j] == bytesOf(w)[j]
    ensures CloneNames(base, uid, bytesOf)(v) != CloneNames(base, uid, bytesOf)(w)
  {
    var s, t := bytesOf(v), bytesOf(w);
    InputsInARow(uid, s);
    InputsInARow(uid, t);
    var n := |base| + |uid|;
    assert forall j :: 0 <= j < n + |s| ==>
                         (base + (uid + s))[j] == if j < n then (base + uid)[j] else s[j - n];
    assert forall j :: 0 <= j < n + |s| ==>
                         (base + (uid + t))[j] == if j < n then (base + uid)[j] else t[j - n];
    N.OneByteApartNeverClashes(base, [uid, s], base, [uid, t], n + i);
    hide N.StableName;
    TextsDiffer(N.StableName(base, [uid, s]), N.StableName(base, [uid, t]));
  }

  lemma InputsInARow(a: H.Bytes, b: H.Bytes)
    ensures H.Concat([a, b]) == a + b
  {
    assert [a, b][1..] == [b] && [b][1..] == [];
    assert H.Concat([b]) == b + H.Concat([]);
    assert H.Concat([a, b]) == a + H.Concat([b]);
    assert b + [] == b;
  }

  lemma TextsDiffer(a: H.Bytes, b: H.Bytes)
    requires a != b
    ensures AsText(a) != AsText(b)
  {
    if |a| == |b| {
      var i :| 0 <= i < |a| && a[i] != b[i];
      assert AsText(a)[i] != AsText(b)[i];
    }
  }

  /** End to end, with the names the system itself makes: for a source VM without reference text, cloned under stable
      names, the process endpoint never asks for a name. It answers with the rewritten VM under the supplied name or, if
      none is supplied, under "vm-" and five lower-case letters or digits, unless the VM is not one. */
  lemma RequestedTemplateProcesses(vols: seq<Volume>, dvts: seq<Dvt>, names: seq<string>, ns: string, rest: Rest,
                                   base: H.Bytes, uid: H.Bytes, bytesOf: string -> H.Bytes,
                                   supplied: map<string, string>, draws: P.Draws, decode: string -> Option<Json>,
                                   convertible: Json -> bool, a: Answer)
    requires ListedOnce(names) && VmIsRefFree(vols, dvts, names, ns, rest)
    requires supplied.Keys <= {NAME} && DrawsName(draws)
    requires IsAnswer(GeneratedTemplate(vols, dvts, names, ns, CloneNames(base, uid, bytesOf), rest), supplied, draws,
                      decode, convertible, a)
    ensures var x := NameValue(supplied, draws);
            var vm := Obj(VmTree(x, NamedVolumes(RewrittenVolumes(vols, names), x),
                                 NamedDvts(RewrittenDvts(vols, dvts, names, ns, CloneNames(base, uid, bytesOf)), x),
                                     rest));
            && (if NAME in supplied && supplied[NAME] != "" then x == supplied[NAME] else IsVmName(x))
            && a == Answered(if convertible(vm) then Done(vm, "") else NotConvertible)
  {
    var clone := CloneNames(base, uid, bytesOf);
    forall v ensures RefFree(clone(v)) { CloneNamesAreRefFree(base, uid, bytesOf, v); }
    assert SourceIsRefFree(vols, dvts, names, ns, clone, rest) by { hide RefFree, CloneNames, VmIsRefFree; }
    DrawnNameIsVmName(draws);
    hide ListedOnce, SourceIsRefFree, CloneNames, IsAnswer, VmTree, RewrittenVolumes, RewrittenDvts, DrawsName;
    GeneratedTemplateProcesses(vols, dvts, names, ns, clone, rest, supplied, draws, decode, convertible, a);
  }
}
