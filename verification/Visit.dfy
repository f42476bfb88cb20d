/** The visitor as the engine runs it: slices and maps are shared cells that are rewritten in place. */
module Visit {
  import opened Wrappers
  import opened Text
  import opened Substitution
  import opened Json

  datatype Value =
    | VNull
    | VBool(b: bool)
    | VNumber(n: real)
    | VStr(s: string)
    | VArr(slice: Slice)
    | VObj(dict: Dict)

  class Slice {
    var items: seq<Value>
    ghost var reprs: seq<set<object>>

    constructor (items: seq<Value>, ghost reprs: seq<set<object>>)
      ensures this.items == items && this.reprs == reprs
    {
      this.items, this.reprs := items, reprs;
    }
  }

  class Dict {
    var entries: map<string, Value>
    ghost var reprs: map<string, set<object>>

    constructor (entries: map<string, Value>, ghost reprs: map<string, set<object>>)
      ensures this.entries == entries && this.reprs == reprs
    {
      this.entries, this.reprs := entries, reprs;
    }
  }

  /** v spells the tree t with the cells of r, and shares no cell between two places of the tree. */
  ghost predicate Spells(v: Value, t: Json, r: set<object>)
    reads r
    decreases t
  {
    match v
    case VNull => t == Null
    case VBool(b) => t == Bool(b)
    case VNumber(n) => t == Number(n)
    case VStr(s) => t == Str(s)
    case VArr(slice) =>
      && slice in r && t.Arr?
      && |slice.items| == |slice.reprs| == |t.items|
      && (forall i :: 0 <= i < |t.items| ==> slice.reprs[i] <= r && slice !in slice.reprs[i])
      && (forall i, j :: 0 <= i < j < |t.items| ==> slice.reprs[i] !! slice.reprs[j])
      && (forall i :: 0 <= i < |t.items| ==> Spells(slice.items[i], t.items[i], slice.reprs[i]))
    case VObj(dict) =>
      && dict in r && t.Obj?
      && dict.entries.Keys == dict.reprs.Keys == t.entries.Keys
      && (forall k :: k in t.entries ==> dict.reprs[k] <= r && dict !in dict.reprs[k])
      && (forall k, l :: k in t.entries && l in t.entries && k != l ==> dict.reprs[k] !! dict.reprs[l])
      && (forall k :: k in t.entries ==> Spells(dict.entries[k], t.entries[k], dict.reprs[k]))
  }

  /** Decoded data arrives in cells of its own. */
  method Materialize(t: Json) returns (v: Value, ghost r: set<object>)
    ensures fresh(r) && Spells(v, t, r)
    decreases t
  {
    match t
    case Null => v, r := VNull, {};
    case Bool(b) => v, r := VBool(b), {};
    case Number(n) => v, r := VNumber(n), {};
    case Str(s) => v, r := VStr(s), {};
    case Arr(ts) =>
      var items: seq<Value> := [];
      ghost var reprs: seq<set<object>> := [];
      r := {};
      for i := 0 to |ts|
        invariant |items| == |reprs| == i && fresh(r)
        invariant forall j :: 0 <= j < i ==> reprs[j] <= r && Spells(items[j], ts[j], reprs[j])
        invariant forall j, k :: 0 <= j < k < i ==> reprs[j] !! reprs[k]
      {
        var item, repr := Materialize(ts[i]);
        items, reprs, r := items + [item], reprs + [repr], r + repr;
      }
      var slice := new Slice(items, reprs);
      v, r := VArr(slice), r + {slice};
    case Obj(ts) =>
      var entries: map<string, Value> := map[];
      ghost var reprs: map<string, set<object>> := map[];
      r := {};
      var todo := ts.Keys;
      while todo != {}
        invariant todo <= ts.Keys && fresh(r)
        invariant entries.Keys == reprs.Keys == ts.Keys - todo
        invariant forall k :: k in entries ==> reprs[k] <= r && Spells(entries[k], ts[k], reprs[k])
        invariant forall k, l :: k in entries && l in entries && k != l ==> reprs[k] !! reprs[l]
      {
        var k :| k in todo;
        var entry, repr := Materialize(ts[k]);
        entries, reprs, r, todo := entries[k := entry], reprs[k := repr], r + repr, todo - {k};
      }
      var dict := new Dict(entries, reprs);
      v, r := VObj(dict), r + {dict};
  }

  /** An undefined-parameter error always stems from some string of the tree. */
  ghost predicate Blames(v: Visitor, t: Json, e: Error) {
    e.UndefinedParameter? ==> exists s :: s in Strings(t) && v.transform(s) == Undefined(e.key)
  }

  /** Visits a value held by a slice or a map, and returns what is to be stored in its stead.
      The ghost results are the tree the new value spells, its cells, and the strings transformed. */
  method VisitElement(vis: Visitor, v: Value, ghost t: Json, ghost r: set<object>)
    returns (res: Result<Value, Error>, ghost t': Json, ghost r': set<object>, calls: multiset<string>)
    requires Spells(v, t, r)
    modifies r
    ensures res.Ok? <==> Visitable(vis, t)
    ensures res.Ok? ==> fresh(r' - r) && Spells(res.value, t', r') && Image(vis, t, t') && calls == Strings(t)
    ensures res.Err? ==> Blames(vis, t, res.error)
    decreases t, 1
  {
    t', r', calls := t, {}, multiset{};
    match v
    case VStr(s) =>
      calls := multiset{s};
      match vis.transform(s) {
        case Undefined(key) =>
          res := Err(UndefinedParameter(key));
        case Substituted(text, true) =>
          res, t' := Ok(VStr(text)), Str(text);
        case Substituted(text, false) =>
          match vis.decode(text) {
            case None =>
              res, t' := Ok(VStr(text)), Str(text);
            case Some(Null) =>
              res := Err(NullValue);
            case Some(data) =>
              var value, repr := Materialize(data);
              res, t', r' := Ok(value), data, repr;
          }
      }
    case VArr(slice) =>
      var e;
      e, t', r', calls := VisitSlice(vis, slice, t, r);
      res := if e.Some? then Err(e.value) else Ok(v);
    case VObj(dict) =>
      var e;
      e, t', r', calls := VisitMap(vis, dict, t, r);
      res := if e.Some? then Err(e.value) else Ok(v);
    case _ =>
      res := Ok(v);
  }

  method VisitSlice(vis: Visitor, slice: Slice, ghost t: Json, ghost r: set<object>)
    returns (e: Option<Error>, ghost t': Json, ghost r': set<object>, calls: multiset<string>)
    requires Spells(VArr(slice), t, r)
    modifies r
    ensures e.None? <==> Visitable(vis, t)
    ensures e.None? ==> fresh(r' - r) && Spells(VArr(slice), t', r') && Image(vis, t, t') && calls == Strings(t)
    ensures e.Some? ==> Blames(vis, t, e.value)
    decreases t, 0
  {
    hide *;
    SliceStart(vis, slice, t, r);
    t', r', calls := t, r, multiset{};
    for i := 0 to |slice.items|
      invariant t'.Arr? && VisitedUpTo(vis, t.items, t'.items, i)
      invariant fresh(r' - r) && Spells(VArr(slice), t', r')
      invariant |slice.items| == |t.items| == |t'.items|
      invariant calls == ItemStrings(t, i)
    {
      NextIsUntouched(vis, t, t', i);
      var failed, item, repr, more := VisitItem(vis, slice, i, t', r');
      if failed.Some? {
        ItemFailed(vis, t, i, failed.value);
        return failed, t, r, calls;
      }
      VisitedOneMore(vis, t.items, t'.items, i, item);
      t', r', calls := Arr(t'.items[i := item]), repr, calls + more;
      SliceStart(vis, slice, t', r');
    }
    AllVisited(vis, t, t');
    e := None;
  }

  lemma SliceStart(vis: Visitor, slice: Slice, t: Json, r: set<object>)
    requires Spells(VArr(slice), t, r)
    ensures t.Arr? && |slice.items| == |t.items| && VisitedUpTo(vis, t.items, t.items, 0)
            && ItemStrings(t, 0) == multiset{}
  {
  }

  lemma NextIsUntouched(vis: Visitor, t: Json, t': Json, i: nat)
    requires t.Arr? && t'.Arr? && i < |t.items| && VisitedUpTo(vis, t.items, t'.items, i)
    ensures t'.items[i] == t.items[i] && t.items[i] < t
    ensures ItemStrings(t, i + 1) == ItemStrings(t, i) + Strings(t.items[i])
  {
  }

  lemma AllVisited(vis: Visitor, t: Json, t': Json)
    requires t.Arr? && t'.Arr? && VisitedUpTo(vis, t.items, t'.items, |t.items|)
    ensures Visitable(vis, t) && Image(vis, t, t') && Strings(t) == ItemStrings(t, |t.items|)
  {
  }

  lemma ItemFailed(vis: Visitor, t: Json, i: nat, e: Error)
    requires t.Arr? && i < |t.items| && !Visitable(vis, t.items[i]) && Blames(vis, t.items[i], e)
    ensures !Visitable(vis, t) && Blames(vis, t, e)
  {
    ItemStringsInclude(t, |t.items|, i);
  }

  /** The items in front of i are visited, the others are untouched. */
  ghost predicate VisitedUpTo(vis: Visitor, ts: seq<Json>, ts': seq<Json>, i: nat) {
    && i <= |ts| == |ts'|
    && (forall j :: 0 <= j < i ==> Visitable(vis, ts[j]) && Image(vis, ts[j], ts'[j]))
    && (forall j :: i <= j < |ts| ==> ts'[j] == ts[j])
  }

  lemma VisitedOneMore(vis: Visitor, ts: seq<Json>, ts': seq<Json>, i: nat, x: Json)
    requires VisitedUpTo(vis, ts, ts', i) && i < |ts| && Visitable(vis, ts[i]) && Image(vis, ts[i], x)
    ensures VisitedUpTo(vis, ts, ts'[i := x], i + 1)
  {
  }

  /** One round of the loop over a slice: visit an item and store the result at its index. */
  method VisitItem(vis: Visitor, slice: Slice, i: nat, ghost t: Json, ghost r: set<object>)
    returns (e: Option<Error>, ghost item: Json, ghost r': set<object>, calls: multiset<string>)
    requires Spells(VArr(slice), t, r) && i < |t.items|
    modifies r
    ensures e.None? <==> Visitable(vis, t.items[i])
    ensures e.None? ==> && fresh(r' - r) && Spells(VArr(slice), Arr(t.items[i := item]), r')
                        && Image(vis, t.items[i], item) && calls == Strings(t.items[i])
    ensures e.Some? ==> Blames(vis, t.items[i], e.value)
    decreases t.items[i], 2
  {
    var v;
    ghost var repr;
    v, item, repr, calls := VisitElement(vis, slice.items[i], t.items[i], slice.reprs[i]);
    r' := r + repr;
    if v.Err? {
      return Some(v.error), item, r', calls;
    }
    slice.items := slice.items[i := v.value];
    slice.reprs := slice.reprs[i := repr];
    e := None;
  }

  lemma {:induction false} ItemStringsInclude(t: Json, n: nat, i: nat)
    requires t.Arr? && i < n <= |t.items|
    ensures Strings(t.items[i]) <= ItemStrings(t, n)
  {
    if i < n - 1 {
      ItemStringsInclude(t, n - 1, i);
    }
  }

  /** Values under keys that spell trees with disjoint sets of cells. */
  ghost predicate Family(vs: map<string, Value>, ts: map<string, Json>, rs: map<string, set<object>>, r: set<object>)
    reads r
  {
    && vs.Keys == ts.Keys == rs.Keys
    && (forall k :: k in ts ==> rs[k] <= r && Spells(vs[k], ts[k], rs[k]))
    && (forall k, l :: k in ts && l in ts && k != l ==> rs[k] !! rs[l])
  }

  lemma TakeOut(vs: map<string, Value>, ts: map<string, Json>, rs: map<string, set<object>>, r: set<object>, k: string)
    requires Family(vs, ts, rs, r) && k in ts
    ensures rs[k] <= r && Spells(vs[k], ts[k], rs[k])
    ensures Family(vs - {k}, ts - {k}, rs - {k}, r - rs[k])
  {
  }

  lemma PutIn(vs: map<string, Value>, ts: map<string, Json>, rs: map<string, set<object>>, r: set<object>,
              k: string, v: Value, t: Json, rv: set<object>)
    requires Family(vs, ts, rs, r) && Spells(v, t, rv) && rv !! r
    ensures Family(vs[k := v], ts[k := t], rs[k := rv], r + rv)
  {
  }

  function Only<T>(m: map<string, T>, keys: set<string>): map<string, T> { map k | k in m && k in keys :: m[k] }

  /** The ghost side of a map under visit: the cells of the entries still to come, and the trees and cells of the
      updates. */
  datatype Progress = Progress(
    rs: map<string, set<object>>, rest: set<object>,
    ts': map<string, Json>, rs': map<string, set<object>>, spent: set<object>)

  ghost predicate Holds(vs: map<string, Value>, t: Json, todo: set<string>, updates: map<string, Value>, p: Progress)
    requires t.Obj?
    reads p.rest, p.spent
  {
    && Family(Only(vs, todo), Only(t.entries, todo), p.rs, p.rest)
    && Family(updates, p.ts', p.rs', p.spent)
    && p.rest !! p.spent
  }

  /** What the loop has established about the keys it is done with. */
  ghost predicate Rewritten(vis: Visitor, t: Json, todo: set<string>, deletes: set<string>, ts': map<string, Json>)
    requires t.Obj?
  {
    var done := t.entries.Keys - todo;
    && todo <= t.entries.Keys
    && (forall k :: k in done ==> VisitedKey(vis, k).Ok? && Visitable(vis, t.entries[k]))
    && (forall k :: k in done ==> VisitedKey(vis, k).value == k || k in deletes)
    && ts'.Keys == (set k | k in done :: VisitedKey(vis, k).value)
    && (forall k' :: k' in ts' ==> ComesFrom(vis, t, k', ts'[k']))
  }

  ghost predicate ComesFrom(vis: Visitor, t: Json, k': string, x: Json)
    requires t.Obj?
  {
    exists k :: k in t.entries && VisitedKey(vis, k) == Ok(k') && Image(vis, t.entries[k], x)
  }

  method VisitMap(vis: Visitor, dict: Dict, ghost t: Json, ghost r: set<object>)
    returns (e: Option<Error>, ghost t': Json, ghost r': set<object>, calls: multiset<string>)
    requires Spells(VObj(dict), t, r)
    modifies r
    ensures e.None? <==> Visitable(vis, t)
    ensures e.None? ==> fresh(r' - r) && Spells(VObj(dict), t', r') && Image(vis, t, t') && calls == Strings(t)
    ensures e.Some? ==> Blames(vis, t, e.value)
    decreases t, 0
  {
    hide *;
    MapStart(vis, dict, t, r);
    t', r', calls := t, r, multiset{};
    var vs := dict.entries;
    var todo := vs.Keys;
    var deletes: set<string>, updates: map<string, Value> := {}, map[];
    ghost var p := Progress(dict.reprs, r - {dict}, map[], map[], {});
    while todo != {}
      invariant dict in r && dict.entries == vs && vs.Keys == t.entries.Keys && todo <= vs.Keys
      invariant Holds(vs, t, todo, updates, p)
      invariant p.rest <= r && fresh(p.spent - r) && dict !in p.rest && dict !in p.spent
      invariant Rewritten(vis, t, todo, deletes, p.ts')
      invariant calls == EntryStrings(t, t.entries.Keys - todo)
    {
      var k :| k in todo;
      var failed, key, value;
      var more;
      ghost var ts', x := p.ts', Null;
      EntryIsSmaller(t, k);
      failed, key, value, x, p, more := VisitEntry(vis, vs, k, t, todo, updates, p);
      if failed.Some? {
        EntryFailed(vis, t, k, failed.value);
        return failed, t, r, calls;
      }
      RewrittenOneMore(vis, t, todo, deletes, ts', k, x);
      CalledOneMore(t, todo, calls, k, more);
      updates := updates[key := value];
      if key != k {
        deletes := deletes + {k};
      }
      todo := todo - {k};
      calls := calls + more;
    }
    AllRewritten(vis, t, deletes, p.ts');
    UpdatesHold(vs, t, updates, p);
    assert t.entries.Keys - {} == t.entries.Keys;
    StoreUpdates(dict, deletes, updates, p);
    e, t', r' := None, Obj(p.ts'), p.spent + {dict};
  }

  method StoreUpdates(dict: Dict, deletes: set<string>, updates: map<string, Value>, ghost p: Progress)
    requires dict !in p.spent && dict.entries.Keys <= deletes + updates.Keys && Family(updates, p.ts', p.rs', p.spent)
    modifies dict
    ensures Spells(VObj(dict), Obj(p.ts'), p.spent + {dict})
  {
    hide *;
    Rewrite(dict, deletes, updates);
    dict.reprs := p.rs';
    Assemble(dict, updates, p);
  }

  lemma EntryIsSmaller(t: Json, k: string)
    requires t.Obj? && k in t.entries
    ensures t.entries[k] < t
  {
  }

  lemma MapStart(vis: Visitor, dict: Dict, t: Json, r: set<object>)
    requires Spells(VObj(dict), t, r)
    ensures t.Obj? && dict in r && dict.entries.Keys == t.entries.Keys
    ensures Holds(dict.entries, t, t.entries.Keys, map[], Progress(dict.reprs, r - {dict}, map[], map[], {}))
    ensures Rewritten(vis, t, t.entries.Keys, {}, map[])
    ensures EntryStrings(t, t.entries.Keys - t.entries.Keys) == multiset{}
  {
    assert Only(dict.entries, t.entries.Keys) == dict.entries && Only(t.entries, t.entries.Keys) == t.entries;
  }

  lemma UpdatesHold(vs: map<string, Value>, t: Json, updates: map<string, Value>, p: Progress)
    requires t.Obj? && Holds(vs, t, {}, updates, p)
    ensures Family(updates, p.ts', p.rs', p.spent) && updates.Keys == p.ts'.Keys
  {
  }

  lemma Assemble(dict: Dict, updates: map<string, Value>, p: Progress)
    requires dict.entries == updates && dict.reprs == p.rs' && dict !in p.spent
    requires Family(updates, p.ts', p.rs', p.spent)
    ensures Spells(VObj(dict), Obj(p.ts'), p.spent + {dict})
  {
  }

  lemma EntryFailed(vis: Visitor, t: Json, k: string, e: Error)
    requires t.Obj? && k in t.entries && !(VisitedKey(vis, k).Ok? && Visitable(vis, t.entries[k]))
    requires Blames(vis, t.entries[k], e) || (e.UndefinedParameter? && vis.transform(k) == Undefined(e.key))
    ensures !Visitable(vis, t) && Blames(vis, t, e)
  {
    EntryStringsAnyOrder(t, t.entries.Keys, k);
    assert k in Strings(t) && Strings(t.entries[k]) <= Strings(t);
  }

  lemma KeysImageOneMore(vis: Visitor, done: set<string>, k: string)
    requires VisitedKey(vis, k).Ok? && forall l :: l in done ==> VisitedKey(vis, l).Ok?
    ensures (set l | l in done + {k} :: VisitedKey(vis, l).value)
            == (set l | l in done :: VisitedKey(vis, l).value) + {VisitedKey(vis, k).value}
  {
    hide VisitedKey;
  }

  lemma RewrittenOneMore(vis: Visitor, t: Json, todo: set<string>, deletes: set<string>, ts: map<string, Json>,
                         k: string, x: Json)
    requires t.Obj? && k in todo && Rewritten(vis, t, todo, deletes, ts)
    requires VisitedKey(vis, k).Ok? && Visitable(vis, t.entries[k]) && Image(vis, t.entries[k], x)
    ensures Rewritten(vis, t, todo - {k}, if VisitedKey(vis, k).value == k then deletes else deletes + {k},
                      ts[VisitedKey(vis, k).value := x])
  {
    hide VisitedKey, Visitable, Image;
    var done, done', k' := t.entries.Keys - todo, t.entries.Keys - (todo - {k}), VisitedKey(vis, k).value;
    assert done' == done + {k};
    KeysImageOneMore(vis, done, k);
    assert ComesFrom(vis, t, k', x);
    hide ComesFrom;
  }

  lemma CalledOneMore(t: Json, todo: set<string>, calls: multiset<string>, k: string, more: multiset<string>)
    requires t.Obj? && k in todo && todo <= t.entries.Keys && calls == EntryStrings(t, t.entries.Keys - todo)
    requires more == multiset{k} + Strings(t.entries[k])
    ensures calls + more == EntryStrings(t, t.entries.Keys - (todo - {k}))
  {
    var done' := t.entries.Keys - (todo - {k});
    assert done' - {k} == t.entries.Keys - todo;
    EntryStringsAnyOrder(t, done', k);
  }

  lemma AllRewritten(vis: Visitor, t: Json, deletes: set<string>, ts': map<string, Json>)
    requires t.Obj? && Rewritten(vis, t, {}, deletes, ts')
    ensures Visitable(vis, t) && Image(vis, t, Obj(ts')) && Strings(t) == EntryStrings(t, t.entries.Keys)
    ensures t.entries.Keys <= deletes + ts'.Keys
  {
    assert t.entries.Keys - {} == t.entries.Keys;
    assert NewKeys(vis, t.entries) == set k | k in t.entries.Keys :: VisitedKey(vis, k).value;
    forall k | k in t.entries ensures k in deletes + ts'.Keys {
      assert VisitedKey(vis, k).value in ts'.Keys;
    }
  }

  /** Deleting the renamed keys first and then setting the updates leaves exactly the updates. */
  method Rewrite(dict: Dict, deletes: set<string>, updates: map<string, Value>)
    requires dict.entries.Keys <= deletes + updates.Keys
    modifies dict`entries
    ensures dict.entries == updates
  {
    var todo := deletes;
    while todo != {}
      invariant dict.entries.Keys == old(dict.entries.Keys) - (deletes - todo)
    {
      var k :| k in todo;
      dict.entries := dict.entries - {k};
      todo := todo - {k};
    }
    todo := updates.Keys;
    while todo != {}
      invariant todo <= updates.Keys && updates.Keys - todo <= dict.entries.Keys <= updates.Keys
      invariant forall k :: k in updates && k !in todo ==> dict.entries[k] == updates[k]
    {
      var k :| k in todo;
      dict.entries := dict.entries[k := updates[k]];
      todo := todo - {k};
    }
  }

  method VisitEntry(vis: Visitor, vs: map<string, Value>, k: string, ghost t: Json, ghost todo: set<string>,
                    ghost updates: map<string, Value>, ghost p: Progress)
    returns (e: Option<Error>, key: string, value: Value, ghost x: Json, ghost p': Progress, calls: multiset<string>)
    requires t.Obj? && vs.Keys == t.entries.Keys && k in todo && todo <= vs.Keys && Holds(vs, t, todo, updates, p)
    modifies p.rest
    ensures e.None? <==> VisitedKey(vis, k).Ok? && Visitable(vis, t.entries[k])
    ensures e.None? ==> && VisitedKey(vis, k) == Ok(key)
                        && Holds(vs, t, todo - {k}, updates[key := value], p')
                        && p'.rest <= p.rest && fresh(p'.spent - p.spent - p.rest)
                        && Image(vis, t.entries[k], x) && p'.ts' == p.ts'[key := x]
                        && calls == multiset{k} + Strings(t.entries[k])
    ensures e.Some? ==> || Blames(vis, t.entries[k], e.value)
                        || (e.value.UndefinedParameter? && vis.transform(k) == Undefined(e.value.key))
    decreases t.entries[k], 2
  {
    p', calls, key, value, x := p, multiset{k}, k, vs[k], Null;
    var newKey := VisitedKey(vis, k);
    if newKey.Err? {
      return Some(newKey.error), key, value, x, p', calls;
    }
    key := newKey.value;
    assert k in Only(vs, todo) && Only(vs, todo)[k] == vs[k] && Only(t.entries, todo)[k] == t.entries[k];
    TakeOut(Only(vs, todo), Only(t.entries, todo), p.rs, p.rest, k);
    assert Only(vs, todo) - {k} == Only(vs, todo - {k}) && Only(t.entries, todo) - {k} == Only(t.entries, todo - {k});
    var v;
    var more;
    ghost var repr;
    v, x, repr, more := VisitElement(vis, vs[k], t.entries[k], p.rs[k]);
    if v.Err? {
      return Some(v.error), key, value, x, p', calls;
    }
    value := v.value;
    PutIn(updates, p.ts', p.rs', p.spent, key, value, x, repr);
    p' := Progress(p.rs - {k}, p.rest - p.rs[k], p.ts'[key := x], p.rs'[key := repr], p.spent + repr);
    calls := calls + more;
    e := None;
  }

  // ---------------------------------------------------------------- the two visitors of the engine

  function Substituting(values: map<string, string>, decode: string -> Option<Json>): Visitor {
    Visitor(s => Substitute(s, values), decode)
  }

  /** In a tree, a typed reference becomes the data its value decodes to, or the value itself as a string if it
      decodes to nothing; a value that decodes to null cannot take its place. */
  lemma TypedReferenceDecodes(key: string, values: map<string, string>, decode: string -> Option<Json>, t': Json)
    requires key != "" && AllWord(key) && key in values
    ensures Image(Substituting(values, decode), Str("${{" + key + "}}"), t')
            <==> decode(values[key]) != Some(Null)
                 && t' == (if decode(values[key]).None? then Str(values[key]) else decode(values[key]).value)
    ensures Visitable(Substituting(values, decode), Str("${{" + key + "}}")) <==> decode(values[key]) != Some(Null)
  {
    TypedReferenceIsUnquoted("", key, values);
    hide Substitute;
  }

  /** In key position only a string can take the place of a typed reference. */
  lemma TypedKeyMustBeString(key: string, values: map<string, string>, decode: string -> Option<Json>)
    requires key != "" && AllWord(key) && key in values
    ensures var r, data := VisitedKey(Substituting(values, decode), "${{" + key + "}}"), decode(values[key]);
            && (data.None? ==> r == Ok(values[key]))
            && (data.Some? && data.value.Str? ==> r == Ok(data.value.s))
            && (data.Some? && data.value.Null? ==> r == Err(NullValue))
            && (data.Some? && !data.value.Str? && !data.value.Null? ==> r == Err(NotAssignable))
  {
    TypedReferenceIsUnquoted("", key, values);
    hide Substitute;
  }

  function Collecting(): Visitor { Visitor(s => Substituted(s, true), s => None) }

  /** All parameters a tree refers to, in values and in keys. */
  ghost function References(t: Json): set<string> { KeysIn(Strings(t)) }

  ghost function KeysIn(strings: multiset<string>): set<string> {
    set s, key | s in strings && key in Collected(s) :: key
  }

  /** The collecting visitor fails nowhere and leaves every tree as it is. */
  lemma {:induction false} CollectingChangesNothing(t: Json, t': Json)
    ensures Visitable(Collecting(), t)
    ensures Image(Collecting(), t, t') <==> t' == t
    decreases t
  {
    var v := Collecting();
    match t
    case Arr(items) =>
      forall i | 0 <= i < |items| ensures Visitable(v, items[i]) {
        CollectingChangesNothing(items[i], items[i]);
      }
      if t'.Arr? && |t'.items| == |items| {
        forall i | 0 <= i < |items| ensures Image(v, items[i], t'.items[i]) <==> t'.items[i] == items[i] {
          CollectingChangesNothing(items[i], t'.items[i]);
        }
      }
      CollectingItems(t, t');
    case Obj(entries) =>
      forall k | k in entries ensures Visitable(v, entries[k]) {
        CollectingChangesNothing(entries[k], entries[k]);
      }
      if t'.Obj? {
        forall k | k in entries && k in t'.entries
          ensures Image(v, entries[k], t'.entries[k]) <==> t'.entries[k] == entries[k]
        {
          CollectingChangesNothing(entries[k], t'.entries[k]);
        }
      }
      CollectingEntries(t, t');
    case _ =>
  }

  lemma CollectingItems(t: Json, t': Json)
    requires t.Arr? && forall i :: 0 <= i < |t.items| ==> Visitable(Collecting(), t.items[i])
    requires t'.Arr? && |t'.items| == |t.items| ==>
               forall i :: 0 <= i < |t.items| ==>
                 (Image(Collecting(), t.items[i], t'.items[i]) <==> t'.items[i] == t.items[i])
    ensures Visitable(Collecting(), t) && (Image(Collecting(), t, t') <==> t' == t)
  {
    if t'.Arr? && |t'.items| == |t.items| {
      assert t' == t <==> forall i :: 0 <= i < |t.items| ==> t'.items[i] == t.items[i];
    }
    hide Collecting;
  }

  lemma KeysStay(key: string)
    ensures VisitedKey(Collecting(), key) == Ok(key)
  {
  }

  lemma CollectingEntries(t: Json, t': Json)
    requires t.Obj? && forall k :: k in t.entries ==> Visitable(Collecting(), t.entries[k])
    requires t'.Obj? ==> forall k :: k in t.entries && k in t'.entries ==>
               (Image(Collecting(), t.entries[k], t'.entries[k]) <==> t'.entries[k] == t.entries[k])
    ensures Visitable(Collecting(), t) && (Image(Collecting(), t, t') <==> t' == t)
  {
    hide Collecting, VisitedKey;
    forall k ensures VisitedKey(Collecting(), k) == Ok(k) { KeysStay(k); }
    if t'.Obj? {
      assert NewKeys(Collecting(), t.entries) == t.entries.Keys;
      assert t'.entries.Keys == t.entries.Keys && (forall k :: k in t.entries ==> t'.entries[k] == t.entries[k]) ==>
               t'.entries == t.entries;
    }
  }

  lemma KeysOneMore(strings: multiset<string>, s: string)
    requires s in strings
    ensures KeysIn(strings) == Collected(s) + KeysIn(strings - multiset{s})
  {
    hide Collected;
  }

  method CollectKeys(strings: multiset<string>) returns (params: set<string>)
    ensures params == KeysIn(strings)
  {
    hide Collected;
    assert KeysIn(multiset{}) == {};
    hide KeysIn;
    params := {};
    var todo := strings;
    while todo != multiset{}
      invariant params + KeysIn(todo) == KeysIn(strings)
    {
      var s :| s in todo;
      var keys := CollectReferencedParameters(s);
      KeysOneMore(todo, s);
      params := params + keys;
      todo := todo - multiset{s};
    }
  }

  method CollectAllReferencedParameters(dict: Dict, ghost t: Json, ghost r: set<object>)
    returns (params: set<string>, ghost r': set<object>)
    requires Spells(VObj(dict), t, r)
    modifies r
    ensures params == References(t)
    ensures fresh(r' - r) && Spells(VObj(dict), t, r')
  {
    hide *;
    var e, calls;
    ghost var t';
    CollectingChangesNothing(t, t);
    e, t', r', calls := VisitMap(Collecting(), dict, t, r);
    CollectingChangesNothing(t, t');
    params := CollectKeys(calls);
    ReferencesAreKeys(t);
  }

  lemma ReferencesAreKeys(t: Json)
    ensures References(t) == KeysIn(Strings(t))
  {
  }
}
