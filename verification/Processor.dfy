/** Validating a template's references and processing it into a VirtualMachine. */
module Processor {
  import opened Wrappers
  import opened Text
  import opened Substitution
  import opened Json
  import opened Visit
  import P = Parameters

  /** The virtualMachine field of a template: raw JSON that may be absent or malformed. */
  datatype VmSource = Missing | Undecodable | Decoded(entries: map<string, Json>)

  datatype Template = Template(vm: VmSource, parameters: seq<P.Parameter>, message: string)

  const METADATA := "metadata"
  const NAMESPACE := "namespace"

  // ---------------------------------------------------------------- namespaces

  /** The metadata holds a namespace that is not empty and refers to no parameter. */
  predicate Hardcoded(md: map<string, Json>) {
    NAMESPACE in md && md[NAMESPACE].Str? && md[NAMESPACE].s != "" && FindAll(md[NAMESPACE].s) == []
  }

  function Stripped(entries: map<string, Json>): map<string, Json> {
    if METADATA in entries && entries[METADATA].Obj? && Hardcoded(entries[METADATA].entries)
    then entries[METADATA := Obj(entries[METADATA].entries - {NAMESPACE})]
    else entries
  }

  /** The namespace of the metadata names a parameter. */
  ghost predicate Parameterised(s: string) { exists key :: key != "" && AllWord(key) && Occurs(s, RefTo(key)) }

  lemma ParameterisedIff(s: string)
    ensures Parameterised(s) <==> FindAll(s) != []
  {
    if Parameterised(s) {
      var key :| key != "" && AllWord(key) && Occurs(s, RefTo(key));
      RefToIsRef(key);
      FindAllIsExact(s, RefTo(key));
    } else if FindAll(s) != [] {
      var m := FindAll(s)[0];
      FindAllIsExact(s, m);
      RefToIsRef(Key(m));
    }
  }

  /** Exactly which namespaces survive: those that are not strings, are empty or name a parameter. Every other entry of
      the metadata and of the object stays as it is. */
  lemma NamespaceSurvivesIff(entries: map<string, Json>)
    requires METADATA in entries && entries[METADATA].Obj?
    ensures var md := entries[METADATA].entries;
            && METADATA in Stripped(entries) && Stripped(entries)[METADATA].Obj?
            && var md' := Stripped(entries)[METADATA].entries;
            && (NAMESPACE in md' <==>
                  NAMESPACE in md && (md[NAMESPACE].Str? ==> md[NAMESPACE].s == "" || Parameterised(md[NAMESPACE].s)))
            && (NAMESPACE in md' ==> md'[NAMESPACE] == md[NAMESPACE])
            && md' - {NAMESPACE} == md - {NAMESPACE} && Stripped(entries) - {METADATA} == entries - {METADATA}
  {
    var md := entries[METADATA].entries;
    if NAMESPACE in md && md[NAMESPACE].Str? {
      ParameterisedIff(md[NAMESPACE].s);
    }
    hide FindAll, Parameterised;
  }

  /** A namespace without a dollar sign, such as "default", goes. */
  lemma FixedNamespaceGoes(entries: map<string, Json>, md: map<string, Json>, ns: string)
    requires "metadata" in entries && entries["metadata"] == Obj(md)
    requires "namespace" in md && md["namespace"] == Str(ns) && ns != "" && '$' !in ns
    ensures Stripped(entries) == entries["metadata" := Obj(md - {"namespace"})]
  {
    NoDollarNoRefs(ns);
    hide FindAll;
  }

  /** {"metadata": {"name": "vm", "namespace": "${NS}"}} keeps it. */
  lemma ParameterisedNamespaceStays(md: map<string, Json>, name: Json)
    requires md == map["name" := name, "namespace" := Str("${NS}")]
    ensures Stripped(map["metadata" := Obj(md)]) == map["metadata" := Obj(md)]
  {
    var m: Ref := "${NS}";
    ScanRefFirst(m, []);
    assert m + [] == m;
    hide FindAll;
  }

  /** Without metadata that is an object there is nothing to strip. */
  lemma NoMetadataNoStripping(entries: map<string, Json>)
    requires METADATA in entries ==> !entries[METADATA].Obj?
    ensures Stripped(entries) == entries
  {
  }

  lemma SameShape(v: Value, t: Json, r: set<object>)
    requires Spells(v, t, r)
    ensures (v.VObj? <==> t.Obj?) && (v.VStr? <==> t.Str?) && (v.VStr? ==> v.s == t.s)
  {
  }

  lemma EntrySpells(dict: Dict, key: string, t: Json, r: set<object>)
    requires Spells(VObj(dict), t, r)
    ensures t.Obj? && (key in dict.entries <==> key in t.entries)
    ensures key in t.entries ==>
              && key in dict.reprs && Spells(dict.entries[key], t.entries[key], dict.reprs[key])
              && (dict.entries[key].VObj? <==> t.entries[key].Obj?)
              && (dict.entries[key].VStr? <==> t.entries[key].Str?)
              && (dict.entries[key].VStr? ==> dict.entries[key].s == t.entries[key].s)
  {
    if key in t.entries {
      var v, x, rx := dict.entries[key], t.entries[key], dict.reprs[key];
      assert Spells(v, x, rx);
      hide Spells;
      SameShape(v, x, rx);
    }
  }

  method RemoveHardcodedNamespace(root: Dict, ghost t: Json, ghost r: set<object>)
    requires Spells(VObj(root), t, r)
    modifies r
    ensures Spells(VObj(root), Obj(Stripped(t.entries)), r)
  {
    EntrySpells(root, METADATA, t, r);
    if METADATA in root.entries && root.entries[METADATA].VObj? {
      var md := root.entries[METADATA].dict;
      EntrySpells(md, NAMESPACE, t.entries[METADATA], root.reprs[METADATA]);
      if NAMESPACE in md.entries && md.entries[NAMESPACE].VStr? && md.entries[NAMESPACE].s != ""
         && FindAll(md.entries[NAMESPACE].s) == []
      {
        DropNested(root, METADATA, md, NAMESPACE, t, r);
      }
    }
  }

  method DropNested(root: Dict, outer: string, dict: Dict, key: string, ghost t: Json, ghost r: set<object>)
    requires Spells(VObj(root), t, r) && outer in t.entries && root.entries[outer] == VObj(dict)
             && t.entries[outer].Obj?
    modifies r
    ensures Spells(VObj(root), Obj(t.entries[outer := Obj(t.entries[outer].entries - {key})]), r)
  {
    hide *;
    SpellsFamily(root, t, r);
    ghost var vs, rs, mine := root.entries, root.reprs, root.reprs[outer];
    TakeOut(vs, t.entries, rs, r - {root}, outer);
    SpellsOwnsCell(dict, t.entries[outer], mine);
    DropEntry(dict, key, t.entries[outer], mine);
    ghost var x := Obj(t.entries[outer].entries - {key});
    PutBack(vs, t.entries, rs, r - {root}, outer, x);
    Assemble(root, vs, Progress(map[], {}, t.entries[outer := x], rs, r - {root}));
    assert r - {root} + {root} == r;
  }

  lemma PutBack(vs: map<string, Value>, ts: map<string, Json>, rs: map<string, set<object>>, r: set<object>, k: string,
                x: Json)
    requires vs.Keys == ts.Keys == rs.Keys && k in ts && rs[k] <= r && Spells(vs[k], x, rs[k])
    requires Family(vs - {k}, ts - {k}, rs - {k}, r - rs[k])
    ensures Family(vs, ts[k := x], rs, r)
  {
    hide Spells;
    PutIn(vs - {k}, ts - {k}, rs - {k}, r - rs[k], k, vs[k], x, rs[k]);
    assert (vs - {k})[k := vs[k]] == vs && (ts - {k})[k := x] == ts[k := x] && (rs - {k})[k := rs[k]] == rs;
    assert r - rs[k] + rs[k] == r;
  }

  lemma SpellsFamily(dict: Dict, t: Json, r: set<object>)
    requires Spells(VObj(dict), t, r)
    ensures t.Obj? && dict in r && t.entries.Keys == dict.reprs.Keys == dict.entries.Keys
    ensures Family(dict.entries, t.entries, dict.reprs, r - {dict})
  {
  }

  lemma SpellsOwnsCell(dict: Dict, t: Json, r: set<object>)
    requires Spells(VObj(dict), t, r)
    ensures dict in r
  {
  }

  method DropEntry(dict: Dict, key: string, ghost t: Json, ghost r: set<object>)
    requires Spells(VObj(dict), t, r)
    modifies dict
    ensures Spells(VObj(dict), Obj(t.entries - {key}), r)
  {
    dict.entries := dict.entries - {key};
    dict.reprs := dict.reprs - {key};
  }

  /** Reads the finished object back as a value. */
  method ReadBack(v: Value, ghost t: Json, ghost r: set<object>) returns (j: Json)
    requires Spells(v, t, r)
    ensures j == t
    decreases t, 1
  {
    match v
    case VNull => j := Null;
    case VBool(b) => j := Bool(b);
    case VNumber(n) => j := Number(n);
    case VStr(s) => j := Str(s);
    case VArr(slice) => j := ReadBackSlice(slice, t, r);
    case VObj(dict) => j := ReadBackDict(dict, t, r);
  }

  method ReadBackSlice(slice: Slice, ghost t: Json, ghost r: set<object>) returns (j: Json)
    requires Spells(VArr(slice), t, r)
    ensures j == t
    decreases t, 0
  {
    var items := [];
    for i := 0 to |slice.items|
      invariant items == t.items[..i]
    {
      var item := ReadBack(slice.items[i], t.items[i], slice.reprs[i]);
      items := items + [item];
    }
    j := Arr(items);
  }

  method ReadBackDict(dict: Dict, ghost t: Json, ghost r: set<object>) returns (j: Json)
    requires Spells(VObj(dict), t, r)
    ensures j == t
    decreases t, 0
  {
    var entries: map<string, Json> := map[];
    var todo := dict.entries.Keys;
    while todo != {}
      invariant todo <= t.entries.Keys && entries.Keys == t.entries.Keys - todo
      invariant forall k :: k in entries ==> entries[k] == t.entries[k]
    {
      var k :| k in todo;
      var entry := ReadBack(dict.entries[k], t.entries[k], dict.reprs[k]);
      entries, todo := entries[k := entry], todo - {k};
    }
    assert entries == t.entries;
    j := Obj(entries);
  }

  /** A copy of the object in fresh cells, for this pass alone to edit. */
  method CopyRoot(entries: map<string, Json>) returns (root: Dict, ghost r: set<object>)
    ensures fresh(r) && Spells(VObj(root), Obj(entries), r)
  {
    var v;
    v, r := Materialize(Obj(entries));
    root := v.dict;
  }

  // ---------------------------------------------------------------- validation

  ghost function TemplateReferences(tpl: Template): set<string>
    requires tpl.vm.Decoded?
  {
    References(Obj(tpl.vm.entries)) + Collected(tpl.message)
  }

  datatype Validation = Invalid | Checked(warnings: set<string>, errors: set<string>)

  /** Warns about exactly the parameters nobody refers to and rejects exactly the references nobody defines. */
  method ValidateParameterReferences(tpl: Template) returns (v: Validation)
    ensures v.Invalid? <==> !tpl.vm.Decoded?
    ensures v.Checked? ==> v.warnings == P.Names(tpl.parameters) - TemplateReferences(tpl)
    ensures v.Checked? ==> v.errors == TemplateReferences(tpl) - P.Names(tpl.parameters)
  {
    if !tpl.vm.Decoded? {
      return Invalid;
    }
    hide Spells, References, Collected;
    ghost var t := Obj(tpl.vm.entries);
    var root, r := CopyRoot(tpl.vm.entries);
    var referenced, _ := CollectAllReferencedParameters(root, t, r);
    var inMessage := CollectReferencedParameters(tpl.message);
    referenced := referenced + inMessage;
    var defined: set<string> := {};
    for i := 0 to |tpl.parameters|
      invariant defined == P.Names(tpl.parameters[..i])
    {
      defined := defined + {tpl.parameters[i].name};
      assert tpl.parameters[..i + 1] == tpl.parameters[..i] + [tpl.parameters[i]];
    }
    assert tpl.parameters[..|tpl.parameters|] == tpl.parameters;
    v := Checked(defined - referenced, referenced - defined);
  }

  lemma {:induction false} EntryStringsAgree(t: Json, u: Json, keys: set<string>)
    requires t.Obj? && u.Obj? && keys <= t.entries.Keys && keys <= u.entries.Keys
    requires forall k :: k in keys ==> t.entries[k] == u.entries[k]
    ensures EntryStrings(t, keys) == EntryStrings(u, keys)
    decreases keys
  {
    if keys != {} {
      var k :| k in keys;
      EntryStringsAnyOrder(t, keys, k);
      EntryStringsAnyOrder(u, keys, k);
      EntryStringsAgree(t, u, keys - {k});
    }
  }

  lemma DroppingAddsNoString(entries: map<string, Json>, key: string)
    requires key in entries
    ensures Strings(Obj(entries - {key})) <= Strings(Obj(entries))
  {
    hide EntryStrings;
    FewerEntries(Obj(entries), Obj(entries - {key}), key);
  }

  lemma FewerEntries(t: Json, u: Json, key: string)
    requires t.Obj? && u.Obj? && key in t.entries && u.entries == t.entries - {key}
    ensures EntryStrings(u, u.entries.Keys) <= EntryStrings(t, t.entries.Keys)
  {
    hide EntryStrings, Strings;
    var keys := t.entries.Keys - {key};
    assert u.entries.Keys == keys;
    EntryStringsAnyOrder(t, t.entries.Keys, key);
    EntryStringsAgree(t, u, keys);
  }

  lemma ReplacingAddsNoString(entries: map<string, Json>, key: string, x: Json)
    requires key in entries && Strings(x) <= Strings(entries[key])
    ensures Strings(Obj(entries[key := x])) <= Strings(Obj(entries))
  {
    var t, u := Obj(entries), Obj(entries[key := x]);
    assert u.entries.Keys == t.entries.Keys;
    EntryStringsAnyOrder(t, t.entries.Keys, key);
    EntryStringsAnyOrder(u, u.entries.Keys, key);
    EntryStringsAgree(t, u, t.entries.Keys - {key});
  }

  /** Stripping a namespace only ever takes strings away. */
  lemma StrippingAddsNoString(entries: map<string, Json>)
    ensures Strings(Obj(Stripped(entries))) <= Strings(Obj(entries))
  {
    hide Strings;
    if Stripped(entries) != entries {
      DroppingAddsNoString(entries[METADATA].entries, NAMESPACE);
      ReplacingAddsNoString(entries, METADATA, Obj(entries[METADATA].entries - {NAMESPACE}));
    }
  }

  // ---------------------------------------------------------------- processing

  datatype Processed =
    | Done(vm: Json, message: string)
    | BadParameter(index: nat, problem: P.Problem)
    | BadVm
    | BadTree(error: Error)
    | NotConvertible
    | UndefinedInMessage(key: string)
  {
    predicate IsUndefined() { UndefinedInMessage? || (BadTree? && error.UndefinedParameter?) }
  }

  function ValuesOf(params: map<string, P.Parameter>): map<string, string> { map k | k in params :: params[k].value }

  /** The values processing works with, once every parameter is in order. */
  ghost predicate AreValues(ps: seq<P.Parameter>, draws: P.Draws, values: map<string, string>) {
    && values.Keys == P.Names(ps)
    && forall i :: 0 <= i < |ps| ==> ps[i].name in values && values[ps[i].name] == P.Filled(ps[i], i, draws).value
  }

  /** Whatever undefined parameter a visit of the stripped tree blames, the tree refers to it without its being
      defined. */
  lemma BlamedIsReferredTo(entries: map<string, Json>, values: map<string, string>,
                           decode: string -> Option<Json>, e: Error)
    requires e.UndefinedParameter? && Blames(Substituting(values, decode), Obj(Stripped(entries)), e)
    ensures e.key in References(Obj(entries)) - values.Keys
  {
    var s :| s in Strings(Obj(Stripped(entries))) && Substitute(s, values) == Undefined(e.key);
    StrippingAddsNoString(entries);
    assert s in Strings(Obj(entries));
    SubstituteIffCollectedDefined(s, values);
  }

  /** What processing may come to once the values are known. The order of the conditions is the order of work: a message
      that cannot be processed is only reported for a tree that could be, and was convertible. */
  ghost predicate OutcomeWith(entries: map<string, Json>, message: string, values: map<string, string>,
                              decode: string -> Option<Json>, convertible: Json -> bool, r: Processed) {
    var vis, tree := Substituting(values, decode), Obj(Stripped(entries));
    match r
    case BadTree(e) => !Visitable(vis, tree) && Blames(vis, tree, e)
    case NotConvertible => exists vm :: Image(vis, tree, vm) && !convertible(vm)
    case UndefinedInMessage(key) => Substitute(message, values) == Undefined(key)
         && exists vm :: Image(vis, tree, vm) && convertible(vm)
    case Done(vm, msg) =>
      && Image(vis, tree, vm) && convertible(vm)
      && Substitute(message, values).Substituted? && msg == Substitute(message, values).text
    case _ => false
  }

  /** What processing may come to: the first parameter out of order is reported first, then a missing or
      malformed VM. */
  ghost predicate IsOutcome(tpl: Template, draws: P.Draws, decode: string -> Option<Json>, convertible: Json -> bool,
                            r: Processed) {
    if r.BadParameter? then
      && r.index < |tpl.parameters| && P.ProblemAt(tpl.parameters, r.index, draws) == Some(r.problem)
      && (forall i :: 0 <= i < r.index ==> P.ProblemAt(tpl.parameters, i, draws).None?)
    else
      && P.AllInOrder(tpl.parameters, draws)
      && if !tpl.vm.Decoded? then r.BadVm?
         else exists values :: AreValues(tpl.parameters, draws, values)
                && OutcomeWith(tpl.vm.entries, tpl.message, values, decode, convertible, r)
  }

  /** An undefined-parameter error means that the template refers to a parameter it does not define. */
  lemma UndefinedIsReferredTo(tpl: Template, draws: P.Draws, decode: string -> Option<Json>, convertible: Json -> bool,
                              r: Processed)
    requires IsOutcome(tpl, draws, decode, convertible, r) && r.IsUndefined()
    ensures tpl.vm.Decoded? && !(TemplateReferences(tpl) <= P.Names(tpl.parameters))
  {
    var values :| AreValues(tpl.parameters, draws, values)
        && OutcomeWith(tpl.vm.entries, tpl.message, values, decode, convertible, r);
    hide AreValues, Image, Visitable, Blames, References, Collected, Substitute, Stripped;
    if r.BadTree? {
      BlamedIsReferredTo(tpl.vm.entries, values, decode, r.error);
    } else {
      SubstituteIffCollectedDefined(tpl.message, values);
    }
    ValuesAreNamed(tpl.parameters, draws, values);
  }

  lemma ValuesAreNamed(ps: seq<P.Parameter>, draws: P.Draws, values: map<string, string>)
    requires AreValues(ps, draws, values)
    ensures values.Keys == P.Names(ps)
  {
  }

  method Process(tpl: Template, draws: P.Draws, decode: string -> Option<Json>, convertible: Json -> bool)
    returns (r: Processed)
    ensures IsOutcome(tpl, draws, decode, convertible, r)
  {
    hide Spells, Image, Visitable, Blames, Substitute, OutcomeWith, Stripped;
    var generated := P.GenerateParameterValues(tpl.parameters, draws);
    if generated.Rejected? {
      return BadParameter(generated.index, generated.problem);
    }
    var values := ValuesOf(generated.params);
    assert P.AllInOrder(tpl.parameters, draws) && AreValues(tpl.parameters, draws, values);
    hide AreValues, P.AllInOrder;
    if !tpl.vm.Decoded? {
      return BadVm;
    }
    r := ProcessObject(tpl.vm.entries, tpl.message, values, decode, convertible);
  }

  method ProcessObject(entries: map<string, Json>, message: string, values: map<string, string>,
                       decode: string -> Option<Json>, convertible: Json -> bool)
    returns (r: Processed)
    ensures OutcomeWith(entries, message, values, decode, convertible, r)
    ensures !r.BadParameter? && !r.BadVm?
  {
    hide Spells, Image, Visitable, Blames, Substitute, Stripped;
    var root, cells := CopyRoot(entries);
    RemoveHardcodedNamespace(root, Obj(entries), cells);
    var e, t, cells', _ := VisitMap(Substituting(values, decode), root, Obj(Stripped(entries)), cells);
    if e.Some? {
      return BadTree(e.value);
    }
    var vm := ReadBack(VObj(root), t, cells');
    if !convertible(vm) {
      return NotConvertible;
    }
    var msg := SubstituteParameters(message, values);
    r := if msg.Undefined? then UndefinedInMessage(msg.key) else Done(vm, msg.text);
  }

  /** What the process endpoint answers: merge the supplied values, validate, process. */
  datatype Answer = Conflict | Unprocessable(errors: set<string>) | InvalidVm | Answered(result: Processed)

  /** Which answer a template and the supplied values get. */
  ghost predicate IsAnswer(tpl: Template, supplied: map<string, string>, draws: P.Draws, decode: string -> Option<Json>,
                           convertible: Json -> bool, a: Answer) {
    if !(supplied.Keys <= P.Names(tpl.parameters)) then a.Conflict?
    else if !tpl.vm.Decoded? then a.InvalidVm?
    else if !(TemplateReferences(tpl) <= P.Names(tpl.parameters)) then
      a == Unprocessable(TemplateReferences(tpl) - P.Names(tpl.parameters))
    else a.Answered? && IsOutcome(tpl.(parameters := P.Merged(tpl.parameters, supplied)), draws, decode, convertible,
                                  a.result)
  }

  method ProcessTemplate(tpl: Template, supplied: map<string, string>, draws: P.Draws,
                         decode: string -> Option<Json>, convertible: Json -> bool) returns (a: Answer)
    ensures IsAnswer(tpl, supplied, draws, decode, convertible, a)
  {
    hide TemplateReferences, IsOutcome;
    var merged := P.MergeParameters(tpl.parameters, supplied);
    if merged.None? {
      return Conflict;
    }
    P.MergedKeepsNames(tpl.parameters, supplied);
    var tpl' := tpl.(parameters := merged.value);
    SameReferences(tpl, tpl');
    var v := ValidateParameterReferences(tpl');
    if v.Invalid? {
      return InvalidVm;
    }
    assert forall key :: key in TemplateReferences(tpl) ==> key in P.Names(tpl.parameters) || key in v.errors;
    if v.errors != {} {
      return Unprocessable(v.errors);
    }
    var r := Process(tpl', draws, decode, convertible);
    a := Answered(r);
  }

  /** Validator soundness: a template that passes merging and validation never fails with an undefined parameter,
      whatever values are supplied or generated. */
  lemma ValidatedNeverUndefined(tpl: Template, supplied: map<string, string>, draws: P.Draws,
                                decode: string -> Option<Json>,
                                convertible: Json -> bool, a: Answer)
    requires IsAnswer(tpl, supplied, draws, decode, convertible, a) && a.Answered?
    ensures !a.result.IsUndefined()
  {
    hide TemplateReferences, IsOutcome;
    if a.result.IsUndefined() {
      var tpl' := tpl.(parameters := P.Merged(tpl.parameters, supplied));
      P.MergedKeepsNames(tpl.parameters, supplied);
      SameReferences(tpl, tpl');
      UndefinedIsReferredTo(tpl', draws, decode, convertible, a.result);
      assert false;
    }
  }

  lemma SameReferences(tpl: Template, tpl': Template)
    requires tpl'.vm == tpl.vm && tpl'.message == tpl.message
    ensures tpl.vm.Decoded? ==> TemplateReferences(tpl') == TemplateReferences(tpl)
  {
  }
}
