/** JSON-like trees and what visiting every string of one means. */
module Json {
  import opened Wrappers
  import opened Substitution

  datatype Json =
    | Null
    | Bool(b: bool)
    | Number(n: real)
    | Str(s: string)
    | Arr(items: seq<Json>)
    | Obj(entries: map<string, Json>)

  datatype Error = UndefinedParameter(key: string) | NullValue | NotAssignable

  /** What a visit is parametrised by: the string transformer, and how unquoted text decodes as JSON. */
  datatype Visitor = Visitor(transform: string -> Outcome, decode: string -> Option<Json>)

  // ---------------------------------------------------------------- strings

  /** A string in value position: any decoded value but null may take its place. */
  function VisitedString(v: Visitor, s: string): Result<Json, Error> {
    match v.transform(s)
    case Undefined(key) => Err(UndefinedParameter(key))
    case Substituted(text, true) => Ok(Str(text))
    case Substituted(text, false) =>
      match v.decode(text)
      case None => Ok(Str(text))
      case Some(Null) => Err(NullValue)
      case Some(data) => Ok(data)
  }

  /** A string in key position: only a string may take its place. */
  function VisitedKey(v: Visitor, key: string): Result<string, Error> {
    match VisitedString(v, key)
    case Err(e) => Err(e)
    case Ok(Str(s)) => Ok(s)
    case Ok(_) => Err(NotAssignable)
  }

  // ---------------------------------------------------------------- trees

  /** Every string and key of the tree can be transformed. */
  ghost predicate Visitable(v: Visitor, t: Json)
    decreases t
  {
    match t
    case Str(s) => VisitedString(v, s).Ok?
    case Arr(items) => forall i :: 0 <= i < |items| ==> Visitable(v, items[i])
    case Obj(entries) => forall k :: k in entries ==> VisitedKey(v, k).Ok? && Visitable(v, entries[k])
    case _ => true
  }

  /** t' is t with every string and key transformed once. Where the new keys of several entries collide,
      any one of those entries may provide the value, as the iteration order of the map decides. */
  ghost predicate Image(v: Visitor, t: Json, t': Json)
    decreases t
  {
    match t
    case Str(s) => VisitedString(v, s) == Ok(t')
    case Arr(items) =>
      && t'.Arr? && |t'.items| == |items|
      && forall i :: 0 <= i < |items| ==> Image(v, items[i], t'.items[i])
    case Obj(entries) =>
      && t'.Obj?
      && (forall k :: k in entries ==> VisitedKey(v, k).Ok?)
      && t'.entries.Keys == NewKeys(v, entries)
      && (forall k' :: k' in t'.entries ==>
            exists k :: k in entries && VisitedKey(v, k) == Ok(k') && Image(v, entries[k], t'.entries[k']))
    case _ => t' == t
  }

  ghost predicate InjectiveKeys(v: Visitor, t: Json)
    decreases t
  {
    match t
    case Arr(items) => forall i :: 0 <= i < |items| ==> InjectiveKeys(v, items[i])
    case Obj(entries) =>
      && (forall k, l :: k in entries && l in entries && k != l ==> VisitedKey(v, k) != VisitedKey(v, l))
      && (forall k :: k in entries ==> InjectiveKeys(v, entries[k]))
    case _ => true
  }

  ghost function NewKeys(v: Visitor, entries: map<string, Json>): set<string>
    requires forall k :: k in entries ==> VisitedKey(v, k).Ok?
  {
    set k | k in entries :: VisitedKey(v, k).value
  }

  /** The entry a new key comes from. */
  ghost function OldKey(v: Visitor, entries: map<string, Json>, k': string): (k: string)
    requires exists k :: k in entries && VisitedKey(v, k) == Ok(k')
    ensures k in entries && VisitedKey(v, k) == Ok(k')
  {
    var k :| k in entries && VisitedKey(v, k) == Ok(k'); k
  }

  /** The recursive functional map, for key transforms that never make two keys collide. */
  ghost function MapTree(v: Visitor, t: Json): (r: Json)
    requires Visitable(v, t) && InjectiveKeys(v, t)
    decreases t
  {
    match t
    case Str(s) => VisitedString(v, s).value
    case Arr(items) => Arr(seq(|items|, i requires 0 <= i < |items| => MapTree(v, items[i])))
    case Obj(entries) => Obj(map k' | k' in NewKeys(v, entries) :: MapTree(v, entries[OldKey(v, entries, k')]))
    case _ => t
  }

  lemma MapTreeEntries(v: Visitor, t: Json)
    requires t.Obj? && Visitable(v, t) && InjectiveKeys(v, t)
    ensures MapTree(v, t).Obj? && MapTree(v, t).entries.Keys == NewKeys(v, t.entries)
    ensures forall k, k' :: k in t.entries && VisitedKey(v, k) == Ok(k') ==>
              k' in NewKeys(v, t.entries) && MapTree(v, t).entries[k'] == MapTree(v, t.entries[k])
  {
    forall k, k' | k in t.entries && VisitedKey(v, k) == Ok(k')
      ensures k' in NewKeys(v, t.entries) && MapTree(v, t).entries[k'] == MapTree(v, t.entries[k])
    {
      assert OldKey(v, t.entries, k') == k;
    }
  }

  /** When no two keys collide, the outcome of a visit is the functional map of the tree, and nothing else. */
  lemma {:induction false} ImageIsMapTree(v: Visitor, t: Json, t': Json)
    requires Visitable(v, t) && InjectiveKeys(v, t)
    ensures Image(v, t, t') <==> t' == MapTree(v, t)
    decreases t
  {
    match t
    case Arr(items) =>
      if t'.Arr? && |t'.items| == |items| {
        forall i | 0 <= i < |items| ensures Image(v, items[i], t'.items[i]) <==> t'.items[i] == MapTree(v, items[i]) {
          ImageIsMapTree(v, items[i], t'.items[i]);
        }
        assert t' == MapTree(v, t) <==> forall i :: 0 <= i < |items| ==> t'.items[i] == MapTree(v, items[i]);
      }
    case Obj(entries) =>
      if t'.Obj? {
        forall k | k in entries && VisitedKey(v, k).value in t'.entries
          ensures Image(v, entries[k], t'.entries[VisitedKey(v, k).value])
                  <==> t'.entries[VisitedKey(v, k).value] == MapTree(v, entries[k])
        {
          ImageIsMapTree(v, entries[k], t'.entries[VisitedKey(v, k).value]);
        }
        assert EntriesAgree(v, t, t');
        if Image(v, t, t') {
          ObjImageIsMapTree(v, t, t');
        } else if t' == MapTree(v, t) {
          ObjMapTreeIsImage(v, t);
        }
      }
    case _ =>
  }

  /** The statement of ImageIsMapTree, for the values of an object's entries. */
  ghost predicate EntriesAgree(v: Visitor, t: Json, t': Json)
    requires t.Obj? && t'.Obj? && Visitable(v, t) && InjectiveKeys(v, t)
  {
    forall k :: k in t.entries && VisitedKey(v, k).value in t'.entries ==>
      (Image(v, t.entries[k], t'.entries[VisitedKey(v, k).value])
       <==> t'.entries[VisitedKey(v, k).value] == MapTree(v, t.entries[k]))
  }

  lemma ObjImageIsMapTree(v: Visitor, t: Json, t': Json)
    requires t.Obj? && t'.Obj? && Visitable(v, t) && InjectiveKeys(v, t) && EntriesAgree(v, t, t')
    requires Image(v, t, t')
    ensures t' == MapTree(v, t)
  {
    hide *;
    KeysAreMapped(v, t, t');
    var m := MapTree(v, t).entries;
    forall k' | k' in t'.entries ensures t'.entries[k'] == m[k'] {
      EntryIsMapped(v, t, t', k');
    }
    assert t'.entries == m;
  }

  lemma KeysAreMapped(v: Visitor, t: Json, t': Json)
    requires t.Obj? && t'.Obj? && Visitable(v, t) && InjectiveKeys(v, t) && Image(v, t, t')
    ensures MapTree(v, t).Obj? && t'.entries.Keys == MapTree(v, t).entries.Keys
  {
    MapTreeEntries(v, t);
    hide MapTree, VisitedKey;
  }

  lemma EntryIsMapped(v: Visitor, t: Json, t': Json, k': string)
    requires t.Obj? && t'.Obj? && Visitable(v, t) && InjectiveKeys(v, t) && EntriesAgree(v, t, t')
    requires Image(v, t, t') && k' in t'.entries
    ensures MapTree(v, t).Obj? && k' in MapTree(v, t).entries && t'.entries[k'] == MapTree(v, t).entries[k']
  {
    MapTreeEntries(v, t);
    hide VisitedKey, MapTree;
    var k :| k in t.entries && VisitedKey(v, k) == Ok(k') && Image(v, t.entries[k], t'.entries[k']);
    assert VisitedKey(v, k).value == k';
  }

  lemma ObjMapTreeIsImage(v: Visitor, t: Json)
    requires t.Obj? && Visitable(v, t) && InjectiveKeys(v, t) && EntriesAgree(v, t, MapTree(v, t))
    ensures Image(v, t, MapTree(v, t))
  {
    MapTreeEntries(v, t);
    var m := MapTree(v, t).entries;
    forall k' | k' in m
      ensures exists k :: k in t.entries && VisitedKey(v, k) == Ok(k') && Image(v, t.entries[k], m[k'])
    {
      var k := OldKey(v, t.entries, k');
      assert VisitedKey(v, k).value == k';
    }
  }

  ghost predicate StayApart(v: Visitor, keys: set<string>) {
    forall k, l :: k in keys && l in keys && k != l ==> VisitedKey(v, k) != VisitedKey(v, l)
  }

  /** Transforming a set of keys loses none if and only if no two of them collide. */
  lemma {:induction false} ImageSize(v: Visitor, keys: set<string>)
    requires forall k :: k in keys ==> VisitedKey(v, k).Ok?
    ensures var image := set k | k in keys :: VisitedKey(v, k).value;
            |image| <= |keys| && (|image| == |keys| <==> StayApart(v, keys))
    decreases keys
  {
    hide VisitedKey;
    var image := set k | k in keys :: VisitedKey(v, k).value;
    if keys == {} {
      assert image == {};
    } else {
      var x :| x in keys;
      var rest, x' := keys - {x}, VisitedKey(v, x).value;
      var others := set k | k in rest :: VisitedKey(v, k).value;
      ImageSize(v, rest);
      assert image == others + {x'};
      if x' in others {
        assert image == others;
        var l :| l in rest && VisitedKey(v, l).value == x';
        assert VisitedKey(v, l) == VisitedKey(v, x);
      } else {
        assert forall l :: l in rest ==> VisitedKey(v, l).value in others;
        assert StayApart(v, keys) <==> StayApart(v, rest);
      }
    }
  }

  /** A visit keeps the number of entries of an object if and only if no two of its keys collide; it never adds one. */
  lemma EntryCountIsConservedIff(v: Visitor, t: Json, t': Json)
    requires t.Obj? && Image(v, t, t')
    ensures |t'.entries| <= |t.entries|
    ensures |t'.entries| == |t.entries| <==> StayApart(v, t.entries.Keys)
  {
    hide VisitedKey, StayApart;
    ImageSize(v, t.entries.Keys);
    assert NewKeys(v, t.entries) == set k | k in t.entries.Keys :: VisitedKey(v, k).value;
    assert |t'.entries| == |t'.entries.Keys| && |t.entries| == |t.entries.Keys|;
  }

  lemma EitherEntrySurvives(v: Visitor, entries: map<string, Json>, k: string, l: string, n: string, z: Json)
    requires entries.Keys == {k, l} && VisitedKey(v, k) == VisitedKey(v, l) == Ok(n) && Image(v, entries[k], z)
    ensures Image(v, Obj(entries), Obj(map[n := z]))
  {
    hide VisitedKey;
    var t' := Obj(map[n := z]);
    assert NewKeys(v, entries) == {n} == t'.entries.Keys;
    assert k in entries && Image(v, entries[k], t'.entries[n]);
  }

  /** Two entries whose keys collide: one is lost, and the order in which the map is walked decides which. */
  lemma CollisionLosesAnEntry(v: Visitor, k: string, l: string, n: string, x: Json, y: Json, x': Json, y': Json)
    requires k != l && VisitedKey(v, k) == VisitedKey(v, l) == Ok(n) && Image(v, x, x') && Image(v, y, y')
    ensures var t := Obj(map[k := x, l := y]);
            && Image(v, t, Obj(map[n := x'])) && Image(v, t, Obj(map[n := y']))
            && forall t' :: Image(v, t, t') ==> t'.Obj? && |t'.entries| == 1
  {
    var entries := map[k := x, l := y];
    assert entries.Keys == {k, l} && entries[k] == x && entries[l] == y;
    forall t' | Image(v, Obj(entries), t') ensures t'.Obj? && |t'.entries| == 1 {
      hide VisitedKey;
      assert NewKeys(v, entries) == {n};
      assert |t'.entries| == |t'.entries.Keys|;
    }
    hide *;
    EitherEntrySurvives(v, entries, k, l, n, x');
    EitherEntrySurvives(v, entries, l, k, n, y');
  }

  // ---------------------------------------------------------------- the strings of a tree

  /** All strings and keys of the tree, with multiplicity. */
  ghost function Strings(t: Json): multiset<string>
    decreases t
  {
    match t
    case Str(s) => multiset{s}
    case Arr(items) => ItemStrings(t, |items|)
    case Obj(entries) => EntryStrings(t, entries.Keys)
    case _ => multiset{}
  }

  ghost function ItemStrings(t: Json, n: nat): multiset<string>
    requires t.Arr? && n <= |t.items|
    decreases t, n
  {
    if n == 0 then multiset{} else ItemStrings(t, n - 1) + Strings(t.items[n - 1])
  }

  ghost function EntryStrings(t: Json, keys: set<string>): multiset<string>
    requires t.Obj? && keys <= t.entries.Keys
    decreases t, keys
  {
    if keys == {} then multiset{}
    else var k :| k in keys; EntryStrings(t, keys - {k}) + multiset{k} + Strings(t.entries[k])
  }

  /** The entries may be taken in any order. */
  lemma {:induction false} EntryStringsAnyOrder(t: Json, keys: set<string>, k: string)
    requires t.Obj? && keys <= t.entries.Keys && k in keys
    ensures EntryStrings(t, keys) == EntryStrings(t, keys - {k}) + multiset{k} + Strings(t.entries[k])
    decreases keys
  {
    var l :| l in keys && EntryStrings(t, keys) == EntryStrings(t, keys - {l}) + multiset{l} + Strings(t.entries[l]);
    if l != k {
      EntryStringsAnyOrder(t, keys - {l}, k);
      EntryStringsAnyOrder(t, keys - {k}, l);
      assert keys - {l} - {k} == keys - {k} - {l};
    }
  }
}
