/** Parameter references in strings: finding, collecting and substituting them. */
module Substitution {
  import opened Text

  // ---------------------------------------------------------------- references

  /** The texts matched by \$\{([a-zA-Z0-9_]+)\}. */
  predicate IsRef(m: string) {
    |m| >= 4 && m[0] == '$' && m[1] == '{' && m[|m| - 1] == '}' && forall i :: 2 <= i < |m| - 1 ==> IsWord(m[i])
  }

  type Ref = m: string | IsRef(m) witness "${A}"

  function Key(m: Ref): string { m[2..|m| - 1] }

  function RefTo(key: string): string { "${" + key + "}" }

  lemma RefToIsRef(key: string)
    ensures IsRef(RefTo(key)) <==> key != "" && AllWord(key)
    ensures IsRef(RefTo(key)) ==> Key(RefTo(key)) == key
    ensures forall m: Ref :: Key(m) == key ==> m == RefTo(key)
  {
    assert forall i :: 0 <= i < |key| ==> key[i] == RefTo(key)[i + 2];
  }

  /** The texts matched by ^\$\{\{([a-zA-Z0-9_]+)\}\}$. */
  predicate IsTypedRef(s: string) {
    && |s| >= 6 && s[0] == '$' && s[1] == '{' && s[2] == '{' && s[|s| - 2] == '}' && s[|s| - 1] == '}'
    && forall i :: 3 <= i < |s| - 2 ==> IsWord(s[i])
  }

  function TypedKey(s: string): string
    requires IsTypedRef(s)
  {
    s[3..|s| - 2]
  }

  /** The length of the reference at the start of s, or 0 when there is none. */
  function RefLength(s: string): (n: nat)
    ensures n > 0 ==> 4 <= n <= |s| && IsRef(s[..n])
  {
    if |s| < 4 || s[0] != '$' || s[1] != '{' then 0
    else
      var e := WordEnd(s, 2);
      if e > 2 && e < |s| && s[e] == '}' then e + 1 else 0
  }

  lemma RefLengthIsUnique(s: string, j: nat)
    requires j <= |s| && IsRef(s[..j])
    ensures RefLength(s) == j
  {
  }

  /** All matches, leftmost first and without overlap. */
  function FindAll(s: string): seq<Ref> {
    if s == [] then []
    else
      var n := RefLength(s);
      if n > 0 then [s[..n]] + FindAll(s[n..]) else FindAll(s[1..])
  }

  /** References never overlap, so the scan finds every one of them: it is exact. */
  lemma {:induction false} FindAllIsExact(s: string, m: Ref)
    ensures m in FindAll(s) <==> Occurs(s, m)
    decreases s
  {
    if s != [] {
      var n := RefLength(s);
      var step := if n > 0 then n else 1;
      FindAllIsExact(s[step..], m);
      OccursBehind(s, m, step);
      NothingInside(s, m);
      assert m in FindAll(s) <==> (n > 0 && m == s[..n]) || m in FindAll(s[step..]);
    }
  }

  /** In front of where the scan resumes, a reference can only start at the very beginning. */
  lemma NothingInside(s: string, m: Ref)
    requires s != []
    ensures OccursAt(s, m, 0) <==> RefLength(s) > 0 && m == s[..RefLength(s)]
    ensures forall i :: 0 < i < RefLength(s) ==> !OccursAt(s, m, i)
  {
    if OccursAt(s, m, 0) {
      RefLengthIsUnique(s, |m|);
    }
    forall i | 0 < i < RefLength(s) ensures !OccursAt(s, m, i) {
      assert s[i] == s[..RefLength(s)][i] != '$';
      assert i + |m| <= |s| ==> s[i..i + |m|][0] == s[i];
    }
  }

  lemma OccursBehind(s: string, m: string, step: nat)
    requires step <= |s|
    ensures forall i :: step <= i ==> OccursAt(s, m, i) == OccursAt(s[step..], m, i - step)
    ensures Occurs(s[step..], m) <==> exists i :: step <= i && OccursAt(s, m, i)
  {
    forall j | OccursAt(s[step..], m, j) ensures OccursAt(s, m, j + step) {
      assert s[step..][j..j + |m|] == s[j + step..j + step + |m|];
    }
    forall i | step <= i && OccursAt(s, m, i) ensures OccursAt(s[step..], m, i - step) {
      assert s[step..][i - step..i - step + |m|] == s[i..i + |m|];
    }
  }

  // ---------------------------------------------------------------- substitution

  datatype Outcome = Substituted(text: string, asString: bool) | Undefined(key: string)

  /** Replacing the matches one after the other, each time at its first occurrence in the text so far. */
  function ReplaceInTurn(out: string, matches: seq<Ref>, values: map<string, string>): Outcome
    decreases matches
  {
    if matches == [] then Substituted(out, true)
    else
      var m := matches[0];
      if Key(m) !in values then Undefined(Key(m))
      else ReplaceInTurn(ReplaceFirst(out, m, values[Key(m)]), matches[1..], values)
  }

  function Substitute(s: string, values: map<string, string>): Outcome {
    if IsTypedRef(s) then
      if TypedKey(s) in values then Substituted(values[TypedKey(s)], false) else Undefined(TypedKey(s))
    else
      ReplaceInTurn(s, FindAll(s), values)
  }

  method SubstituteParameters(s: string, values: map<string, string>) returns (r: Outcome)
    ensures r == Substitute(s, values)
  {
    if IsTypedRef(s) {
      if TypedKey(s) in values {
        var out := ReplaceFirst(s, s, values[TypedKey(s)]);
        assert OccursAt(s, s, 0);
        return Substituted(out, false);
      }
      return Undefined(TypedKey(s));
    }
    var out := s;
    var matches := FindAll(s);
    for k := 0 to |matches|
      invariant ReplaceInTurn(s, matches, values) == ReplaceInTurn(out, matches[k..], values)
    {
      var m := matches[k];
      assert matches[k..][0] == m && matches[k..][1..] == matches[k + 1..];
      if Key(m) !in values {
        return Undefined(Key(m));
      }
      out := ReplaceFirst(out, m, values[Key(m)]);
    }
    r := Substituted(out, true);
  }

  // ---------------------------------------------------------------- collecting

  function Keys(matches: seq<Ref>): set<string> { set m | m in matches :: Key(m) }

  function Collected(s: string): set<string> {
    Keys(FindAll(s)) + if IsTypedRef(s) then {TypedKey(s)} else {}
  }

  method CollectReferencedParameters(s: string) returns (keys: set<string>)
    ensures keys == Collected(s)
  {
    keys := {};
    if IsTypedRef(s) {
      keys := keys + {TypedKey(s)};
    }
    var matches := FindAll(s);
    for k := 0 to |matches|
      invariant keys == Keys(matches[..k]) + if IsTypedRef(s) then {TypedKey(s)} else {}
    {
      keys := keys + {Key(matches[k])};
      KeysOfConcat(matches[..k], [matches[k]]);
      assert matches[..k + 1] == matches[..k] + [matches[k]];
    }
    assert matches[..|matches|] == matches;
  }

  lemma KeysOfConcat(ms: seq<Ref>, ns: seq<Ref>)
    ensures Keys(ms + ns) == Keys(ms) + Keys(ns)
  {
    assert forall m :: m in ms + ns <==> m in ms || m in ns;
  }

  /** A key is collected exactly when its reference text occurs in the string, or is the whole string in its typed
      form. */
  lemma CollectedIsExact(s: string, key: string)
    ensures key in Collected(s) <==>
            key != "" && AllWord(key) && (Occurs(s, RefTo(key)) || s == "${{" + key + "}}")
  {
    RefToIsRef(key);
    if IsRef(RefTo(key)) {
      FindAllIsExact(s, RefTo(key));
    }
    assert key in Keys(FindAll(s)) <==> IsRef(RefTo(key)) && RefTo(key) in FindAll(s);
    TypedKeyIsExact(s, key);
  }

  lemma TypedKeyIsExact(s: string, key: string)
    ensures IsTypedRef(s) && TypedKey(s) == key <==> key != "" && AllWord(key) && s == "${{" + key + "}}"
  {
    var t := "${{" + key + "}}";
    assert t[3..|t| - 2] == key;
    assert forall i :: 0 <= i < |key| ==> key[i] == t[i + 3];
    if IsTypedRef(s) {
      assert s == "${{" + TypedKey(s) + "}}";
    }
  }

  lemma {:induction false} NoDollarNoRefs(s: string)
    requires '$' !in s
    ensures FindAll(s) == []
    decreases s
  {
    if s != [] {
      NoDollarNoRefs(s[1..]);
    }
  }

  /** A typed reference holds no plain reference, so the two syntaxes never mix in one string. */
  lemma TypedRefHoldsNoRef(s: string)
    requires IsTypedRef(s)
    ensures FindAll(s) == []
  {
    NoDollarNoRefs(s[1..]);
  }

  // ---------------------------------------------------------------- what they have to do with each other

  lemma {:induction false} ReplacesIffDefined(out: string, matches: seq<Ref>, values: map<string, string>)
    ensures var r := ReplaceInTurn(out, matches, values);
            if Keys(matches) <= values.Keys then r.Substituted? && r.asString
            else r.Undefined? && r.key in Keys(matches) - values.Keys
    decreases matches
  {
    if matches != [] {
      var m := matches[0];
      assert matches == [m] + matches[1..];
      KeysOfConcat([m], matches[1..]);
      if Key(m) in values {
        ReplacesIffDefined(ReplaceFirst(out, m, values[Key(m)]), matches[1..], values);
      }
    }
  }

  /** Substitution succeeds exactly when every collected reference is defined; otherwise it names a missing one. */
  lemma SubstituteIffCollectedDefined(s: string, values: map<string, string>)
    ensures Substitute(s, values).Substituted? <==> Collected(s) <= values.Keys
    ensures Substitute(s, values).Undefined? ==> Substitute(s, values).key in Collected(s) - values.Keys
  {
    if IsTypedRef(s) {
      TypedRefHoldsNoRef(s);
    } else {
      ReplacesIffDefined(s, FindAll(s), values);
    }
  }

  /** A typed reference becomes its value and drops the quotes; nothing else ever does. */
  lemma TypedReferenceIsUnquoted(s: string, key: string, values: map<string, string>)
    requires key != "" && AllWord(key) && key in values
    ensures Substitute("${{" + key + "}}", values) == Substituted(values[key], false)
    ensures (forall k :: k != "" && AllWord(k) ==> s != "${{" + k + "}}") && Substitute(s, values).Substituted? ==>
              Substitute(s, values).asString
  {
    TypedKeyIsExact("${{" + key + "}}", key);
    if IsTypedRef(s) {
      TypedKeyIsExact(s, TypedKey(s));
    } else {
      ReplacesIffDefined(s, FindAll(s), values);
    }
  }

  /** The reference semantics: every reference of the original text replaced at once. */
  function OnePass(s: string, values: map<string, string>): string
    requires Keys(FindAll(s)) <= values.Keys
  {
    if s == [] then []
    else
      var n := RefLength(s);
      if n > 0 then
        KeysOfConcat([s[..n]], FindAll(s[n..]));
        values[Key(s[..n])] + OnePass(s[n..], values)
      else [s[0]] + OnePass(s[1..], values)
  }

  ghost predicate NoRefText(s: string) { forall m :: IsRef(m) ==> !Occurs(s, m) }

  /** Where the k-th match of `rest` sits once everything before it has been substituted, `done` being that part. */
  function OwnPositions(done: string, rest: string, values: map<string, string>): seq<int>
    requires Keys(FindAll(rest)) <= values.Keys
    decreases rest
  {
    if rest == [] then []
    else
      var n := RefLength(rest);
      if n > 0 then
        KeysOfConcat([rest[..n]], FindAll(rest[n..]));
        [|done|] + OwnPositions(done + values[Key(rest[..n])], rest[n..], values)
      else OwnPositions(done + [rest[0]], rest[1..], values)
  }

  /** Where the loop actually replaces, round by round. */
  function HitPositions(out: string, matches: seq<Ref>, values: map<string, string>): seq<int>
    requires Keys(matches) <= values.Keys
    decreases matches
  {
    if matches == [] then []
    else
      var m := matches[0];
      KeysOfConcat([m], matches[1..]);
      assert matches == [m] + matches[1..];
      [Index(out, m)] + HitPositions(ReplaceFirst(out, m, values[Key(m)]), matches[1..], values)
  }

  /** No match is spelled out by the text substituted in front of it. */
  ghost predicate Unshadowed(done: string, rest: string, values: map<string, string>)
    requires Keys(FindAll(rest)) <= values.Keys
    decreases rest
  {
    if rest == [] then true
    else
      var n := RefLength(rest);
      if n > 0 then
        KeysOfConcat([rest[..n]], FindAll(rest[n..]));
        !Occurs(done, rest[..n]) && Unshadowed(done + values[Key(rest[..n])], rest[n..], values)
      else Unshadowed(done + [rest[0]], rest[1..], values)
  }

  /** An occurrence that starts inside `done` also ends there, because '$' only opens a reference. */
  lemma HitIsOwnUnlessShadowed(done: string, m: Ref, tail: string)
    ensures Index(done + (m + tail), m) == |done| <==> !Occurs(done, m)
  {
    var s := done + (m + tail);
    forall i | 0 <= i < |done| ensures OccursAt(s, m, i) == OccursAt(done, m, i) {
      assert i + |m| <= |done| ==> s[i..i + |m|] == done[i..i + |m|];
      assert i + |m| > |done| && i + |m| <= |s| ==> s[i..i + |m|][|done| - i] == s[|done|] == '$';
    }
    assert s[|done|..|done| + |m|] == m;
    assert OccursAt(s, m, |done|);
    assert forall i :: OccursAt(done, m, i) ==> i < |done|;
  }

  lemma HitReplacesOwn(done: string, m: Ref, tail: string, v: string)
    requires !Occurs(done, m)
    ensures ReplaceFirst(done + (m + tail), m, v) == (done + v) + tail
  {
    HitIsOwnUnlessShadowed(done, m, tail);
    var s := done + (m + tail);
    assert s[..|done|] == done && s[|done| + |m|..] == tail;
  }

  /** The scan passes over a character that opens no reference. */
  lemma PassOver(done: string, rest: string, values: map<string, string>)
    requires rest != [] && RefLength(rest) == 0 && Keys(FindAll(rest)) <= values.Keys
    ensures FindAll(rest) == FindAll(rest[1..])
    ensures (done + [rest[0]]) + rest[1..] == done + rest
    ensures (done + [rest[0]]) + OnePass(rest[1..], values) == done + OnePass(rest, values)
  {
    ConcatAssociates(done, [rest[0]], rest[1..]);
    assert [rest[0]] + rest[1..] == rest;
    ConcatAssociates(done, [rest[0]], OnePass(rest[1..], values));
  }

  /** The scan takes the reference that rest opens with. */
  lemma TakeRef(done: string, rest: string, values: map<string, string>)
    requires RefLength(rest) > 0 && Keys(FindAll(rest)) <= values.Keys
    ensures var m, tail := rest[..RefLength(rest)], rest[RefLength(rest)..];
            && rest == m + tail && FindAll(rest) == [m] + FindAll(tail)
            && Key(m) in values && Keys(FindAll(tail)) <= values.Keys
            && (done + values[Key(m)]) + OnePass(tail, values) == done + OnePass(rest, values)
  {
    KeysOfConcat([rest[..RefLength(rest)]], FindAll(rest[RefLength(rest)..]));
  }

  /** Exactness: the loop hits each match at its own place in every round if and only if no match is shadowed. */
  lemma {:induction false} HitsOwnIffUnshadowed(done: string, rest: string, values: map<string, string>)
    requires Keys(FindAll(rest)) <= values.Keys
    ensures HitPositions(done + rest, FindAll(rest), values) == OwnPositions(done, rest, values)
            <==> Unshadowed(done, rest, values)
    decreases rest
  {
    if rest != [] {
      if RefLength(rest) == 0 {
        PassOver(done, rest, values);
        HitsOwnIffUnshadowed(done + [rest[0]], rest[1..], values);
      } else {
        HitsOwnAtRef(done, rest, values);
      }
    }
  }

  lemma {:induction false} HitsOwnAtRef(done: string, rest: string, values: map<string, string>)
    requires Keys(FindAll(rest)) <= values.Keys && RefLength(rest) > 0
    ensures HitPositions(done + rest, FindAll(rest), values) == OwnPositions(done, rest, values)
            <==> Unshadowed(done, rest, values)
    decreases rest, 0
  {
    var m, tail := rest[..RefLength(rest)], rest[RefLength(rest)..];
    TakeRef(done, rest, values);
    HitIsOwnUnlessShadowed(done, m, tail);
    var hits := HitPositions(done + rest, FindAll(rest), values);
    assert hits[0] == Index(done + rest, m);
    assert OwnPositions(done, rest, values)[0] == |done|;
    if !Occurs(done, m) {
      var v := values[Key(m)];
      HitReplacesOwn(done, m, tail, v);
      assert hits == [|done|] + HitPositions((done + v) + tail, FindAll(tail), values);
      HitsOwnIffUnshadowed(done + v, tail, values);
      SameTail(|done|, HitPositions((done + v) + tail, FindAll(tail), values), OwnPositions(done + v, tail, values));
    }
  }

  lemma SameTail(h: int, s: seq<int>, t: seq<int>)
    ensures [h] + s == [h] + t <==> s == t
  {
    assert s == ([h] + s)[1..] && t == ([h] + t)[1..];
  }

  /** While no match is shadowed, replacing in turn and replacing at once agree. */
  lemma {:induction false} UnshadowedAgrees(done: string, rest: string, values: map<string, string>)
    requires Keys(FindAll(rest)) <= values.Keys
    requires Unshadowed(done, rest, values)
    ensures ReplaceInTurn(done + rest, FindAll(rest), values) == Substituted(done + OnePass(rest, values), true)
    decreases rest
  {
    if rest != [] {
      if RefLength(rest) == 0 {
        PassOver(done, rest, values);
        UnshadowedAgrees(done + [rest[0]], rest[1..], values);
      } else {
        var m, tail := rest[..RefLength(rest)], rest[RefLength(rest)..];
        TakeRef(done, rest, values);
        UnshadowedAgrees(done + values[Key(m)], tail, values);
        HitReplacesOwn(done, m, tail, values[Key(m)]);
      }
    }
  }

  lemma OccursInPrefix(s: string, t: string, m: string)
    ensures Occurs(s, m) ==> Occurs(s + t, m)
  {
    forall i | OccursAt(s, m, i) ensures OccursAt(s + t, m, i) {
      assert (s + t)[i..i + |m|] == s[i..i + |m|];
    }
  }

  lemma {:induction false} NoLeftoverMeansUnshadowed(done: string, rest: string, values: map<string, string>)
    requires Keys(FindAll(rest)) <= values.Keys
    requires NoRefText(done + OnePass(rest, values))
    ensures Unshadowed(done, rest, values)
    decreases rest
  {
    if rest == [] {
      return;
    }
    var n := RefLength(rest);
    if n == 0 {
      assert (done + [rest[0]]) + OnePass(rest[1..], values) == done + OnePass(rest, values);
      NoLeftoverMeansUnshadowed(done + [rest[0]], rest[1..], values);
    } else {
      var m, tail := rest[..n], rest[n..];
      KeysOfConcat([m], FindAll(tail));
      var v := values[Key(m)];
      assert (done + v) + OnePass(tail, values) == done + OnePass(rest, values);
      NoLeftoverMeansUnshadowed(done + v, tail, values);
      OccursInPrefix(done, OnePass(rest, values), m);
    }
  }

  /** Sequential replace-first refines simultaneous substitution whenever the simultaneous result
      spells out no further reference. */
  lemma InTurnRefinesOnePass(s: string, values: map<string, string>)
    requires !IsTypedRef(s) && Keys(FindAll(s)) <= values.Keys
    requires NoRefText(OnePass(s, values))
    ensures Substitute(s, values) == Substituted(OnePass(s, values), true)
  {
    assert [] + s == s && [] + OnePass(s, values) == OnePass(s, values);
    NoLeftoverMeansUnshadowed([], s, values);
    UnshadowedAgrees([], s, values);
  }

  /** At once, two references in a row become their two values in a row. */
  lemma OnePassOfTwoRefs(a: Ref, b: Ref, values: map<string, string>)
    requires Key(a) in values && Key(b) in values
    ensures Keys(FindAll(a + b)) <= values.Keys
    ensures OnePass(a + b, values) == values[Key(a)] + values[Key(b)]
  {
    assert b == b + "" && FindAll("") == [];
    OnePassRefFirst(b, "", values);
    OnePassRefFirst(a, b, values);
  }

  lemma ScanOfTwoRefs(a: Ref, b: Ref)
    ensures FindAll(a + b) == [a] + [b]
  {
    assert b == b + "" && FindAll("") == [];
    ScanRefFirst(b, "");
    ScanRefFirst(a, b);
  }

  /** Without the guard the refinement fails: when the value of a first reference spells the second,
      the second round rewrites that value and leaves the second reference standing. */
  lemma ValuesCanShadowReferences(a: Ref, b: Ref, values: map<string, string>)
    requires Key(a) in values && Key(b) in values && values[Key(a)] == b
    ensures ReplaceInTurn(a + b, [a] + [b], values) == Substituted(values[Key(b)] + b, true)
  {
    InTurnStep(a + b, a, [b], values);
    ReplaceInFront(a, b, b);
    InTurnStep(b + b, b, [], values);
    ReplaceInFront(b, b, values[Key(b)]);
    assert [b] == [b] + [];
  }

  /** "${A}${B}" with A = "${B}" and B = "x" becomes "x${B}" in turn but "${B}x" at once. */
  lemma ShadowingWitness()
    ensures var a: Ref, b: Ref := "${A}", "${B}";
            var values := map[Key(a) := b, Key(b) := "x"];
            && FindAll(a + b) == [a] + [b] && Keys(FindAll(a + b)) <= values.Keys
            && ReplaceInTurn(a + b, [a] + [b], values) != Substituted(OnePass(a + b, values), true)
  {
    var a: Ref, b: Ref := "${A}", "${B}";
    var values := map[Key(a) := b, Key(b) := "x"];
    assert Key(a)[0] != Key(b)[0];
    ScanOfTwoRefs(a, b);
    ValuesCanShadowReferences(a, b, values);
    OnePassOfTwoRefs(a, b, values);
    assert ("x" + b)[0] != (b + "x")[0];
  }

  lemma InTurnStep(out: string, m: Ref, rest: seq<Ref>, values: map<string, string>)
    requires Key(m) in values
    ensures ReplaceInTurn(out, [m] + rest, values) == ReplaceInTurn(ReplaceFirst(out, m, values[Key(m)]), rest, values)
  {
    assert ([m] + rest)[1..] == rest;
  }

  lemma ScanRefFirst(m: Ref, tail: string)
    ensures RefLength(m + tail) == |m| && FindAll(m + tail) == [m] + FindAll(tail)
  {
    var s := m + tail;
    assert s[..|m|] == m && s[|m|..] == tail;
    RefLengthIsUnique(s, |m|);
  }

  lemma OnePassRefFirst(m: Ref, tail: string, values: map<string, string>)
    requires Key(m) in values && Keys(FindAll(tail)) <= values.Keys
    ensures Keys(FindAll(m + tail)) <= values.Keys
    ensures OnePass(m + tail, values) == values[Key(m)] + OnePass(tail, values)
  {
    ScanRefFirst(m, tail);
    KeysOfConcat([m], FindAll(tail));
    assert (m + tail)[..|m|] == m && (m + tail)[|m|..] == tail;
  }
}
