/** Template parameters: merging supplied values and filling in generated ones. */
module Parameters {
  import opened Wrappers

  datatype Parameter = Parameter(name: string, value: string, generate: string, from: string, required: bool)

  function Names(ps: seq<Parameter>): set<string> { set p | p in ps :: p.name }

  // ---------------------------------------------------------------- merging

  predicate FirstOfItsName(ps: seq<Parameter>, i: nat)
    requires i < |ps|
  {
    forall j :: 0 <= j < i ==> ps[j].name != ps[i].name
  }

  /** Every supplied value lands on the first parameter of its name; nothing else changes. */
  function Merged(ps: seq<Parameter>, values: map<string, string>): seq<Parameter> {
    seq(|ps|, i requires 0 <= i < |ps| =>
      if ps[i].name in values && FirstOfItsName(ps, i) then ps[i].(value := values[ps[i].name]) else ps[i])
  }

  /** The supplied values are taken in an arbitrary order, and the outcome does not depend on it. */
  method MergeParameters(ps: seq<Parameter>, values: map<string, string>) returns (r: Option<seq<Parameter>>)
    ensures r.Some? <==> values.Keys <= Names(ps)
    ensures r.Some? ==> r.value == Merged(ps, values) && |r.value| == |ps|
    ensures r.Some? ==> forall i :: 0 <= i < |ps| && ps[i].name in values
                          && (forall j :: 0 <= j < i ==> ps[j].name != ps[i].name)
                          ==> r.value[i] == ps[i].(value := values[ps[i].name])
    ensures r.Some? ==> forall i :: 0 <= i < |ps|
                          && (ps[i].name !in values || exists j :: 0 <= j < i && ps[j].name == ps[i].name)
                          ==> r.value[i] == ps[i]
  {
    var out := ps;
    var todo := values.Keys;
    assert out == Merged(ps, map[]);
    while todo != {}
      invariant todo <= values.Keys && values.Keys - todo <= Names(ps)
      invariant out == Merged(ps, map k | k in values && k !in todo :: values[k])
    {
      var k :| k in todo;
      var i := 0;
      while i < |out| && out[i].name != k
        invariant 0 <= i <= |out|
        invariant forall j :: 0 <= j < i ==> out[j].name != k
      {
        i := i + 1;
      }
      MergedKeepsNames(ps, map l | l in values && l !in todo :: values[l]);
      if i == |out| {
        assert k !in Names(ps);
        return None;
      }
      assert ps[i] in ps;
      MergedOneMore(ps, map l | l in values && l !in todo :: values[l], k, values[k], i);
      out := out[i := out[i].(value := values[k])];
      todo := todo - {k};
      assert (map l | l in values && l !in todo + {k} :: values[l])[k := values[k]]
          == map l | l in values && l !in todo :: values[l];
    }
    assert (map k | k in values && k !in {} :: values[k]) == values;
    r := Some(out);
  }

  lemma MergedKeepsNames(ps: seq<Parameter>, values: map<string, string>)
    ensures |Merged(ps, values)| == |ps|
    ensures forall i :: 0 <= i < |ps| ==> Merged(ps, values)[i].name == ps[i].name
    ensures Names(Merged(ps, values)) == Names(ps)
  {
    var ms := Merged(ps, values);
    forall p | p in ps ensures p.name in Names(ms) {
      var i :| 0 <= i < |ps| && ps[i] == p;
      assert ms[i] in ms;
    }
  }

  lemma MergedOneMore(ps: seq<Parameter>, values: map<string, string>, k: string, v: string, i: nat)
    requires i < |ps| && ps[i].name == k && k !in values && forall j :: 0 <= j < i ==> ps[j].name != k
    ensures Merged(ps, values[k := v]) == Merged(ps, values)[i := Merged(ps, values)[i].(value := v)]
  {
  }

  // ---------------------------------------------------------------- generating

  datatype Problem = EmptyName | Duplicate | UnknownGenerator | EmptyFrom | GeneratorFailed | MissingValue

  /** What running a generator on an input yields for the i-th parameter; it may fail, and it is random. */
  type Draws = (nat, string) -> Option<string>

  const EXPRESSION := "expression"

  function Filled(p: Parameter, i: nat, draws: Draws): Parameter {
    if p.value == "" && p.generate == EXPRESSION && p.from != "" && draws(i, p.from).Some?
    then p.(value := draws(i, p.from).value) else p
  }

  /** What is wrong with the i-th parameter, if the ones before it are in order. */
  function ProblemAt(ps: seq<Parameter>, i: nat, draws: Draws): Option<Problem>
    requires i < |ps|
  {
    var p := ps[i];
    if p.name == "" then Some(EmptyName)
    else if !FirstOfItsName(ps, i) then Some(Duplicate)
    else if p.value == "" && p.generate != "" && p.generate != EXPRESSION then Some(UnknownGenerator)
    else if p.value == "" && p.generate != "" && p.from == "" then Some(EmptyFrom)
    else if p.value == "" && p.generate != "" && draws(i, p.from).None? then Some(GeneratorFailed)
    else if Filled(p, i, draws).value == "" && p.required then Some(MissingValue)
    else None
  }

  datatype Generated = Values(params: map<string, Parameter>) | Rejected(index: nat, problem: Problem)

  /** Either every parameter is in order and the map holds each one, filled in, under its name,
      or the first parameter that is not is reported. */
  method GenerateParameterValues(ps: seq<Parameter>, draws: Draws) returns (r: Generated)
    ensures r.Values? ==>
              && (forall i :: 0 <= i < |ps| ==> ProblemAt(ps, i, draws).None?)
              && r.params.Keys == Names(ps)
              && (forall i :: 0 <= i < |ps| ==>
                    ps[i].name in r.params && r.params[ps[i].name] == Filled(ps[i], i, draws))
    ensures r.Rejected? ==>
              && r.index < |ps| && ProblemAt(ps, r.index, draws) == Some(r.problem)
              && (forall i :: 0 <= i < r.index ==> ProblemAt(ps, i, draws).None?)
  {
    var params: map<string, Parameter> := map[];
    for i := 0 to |ps|
      invariant params.Keys == Names(ps[..i])
      invariant forall j :: 0 <= j < i ==> ProblemAt(ps, j, draws).None?
      invariant forall j :: 0 <= j < i ==> ps[j].name in params && params[ps[j].name] == Filled(ps[j], j, draws)
    {
      hide ProblemAt, Filled;
      FirstIffNotVisited(ps, i);
      var problem, newParam := TakeParameter(ps, i, draws, params.Keys);
      if problem.Some? {
        return Rejected(i, problem.value);
      }
      NoneIsFirst(ps, i, draws);
      params := params[newParam.name := newParam];
      assert ps[..i + 1] == ps[..i] + [ps[i]];
    }
    assert ps[..|ps|] == ps;
    r := Values(params);
  }

  lemma FirstIffNotVisited(ps: seq<Parameter>, i: nat)
    requires i < |ps|
    ensures FirstOfItsName(ps, i) <==> ps[i].name !in Names(ps[..i])
  {
    assert forall j :: 0 <= j < i ==> ps[j] in ps[..i];
  }

  lemma NoneIsFirst(ps: seq<Parameter>, i: nat, draws: Draws)
    requires i < |ps| && ProblemAt(ps, i, draws).None?
    ensures forall j :: 0 <= j < i ==> ps[j].name != ps[i].name
    ensures Filled(ps[i], i, draws).name == ps[i].name
  {
  }

  method TakeParameter(ps: seq<Parameter>, i: nat, draws: Draws, visited: set<string>)
    returns (problem: Option<Problem>, newParam: Parameter)
    requires i < |ps| && (FirstOfItsName(ps, i) <==> ps[i].name !in visited)
    ensures problem == ProblemAt(ps, i, draws)
    ensures problem.None? ==> newParam == Filled(ps[i], i, draws)
  {
    newParam := ps[i];
    if newParam.name == "" {
      return Some(EmptyName), newParam;
    }
    if newParam.name in visited {
      return Some(Duplicate), newParam;
    }
    if newParam.value == "" && newParam.generate != "" {
      if newParam.generate != EXPRESSION {
        return Some(UnknownGenerator), newParam;
      }
      if newParam.from == "" {
        return Some(EmptyFrom), newParam;
      }
      var v := draws(i, newParam.from);
      if v.None? {
        return Some(GeneratorFailed), newParam;
      }
      newParam := newParam.(value := v.value);
    }
    if newParam.value == "" && newParam.required {
      return Some(MissingValue), newParam;
    }
    problem := None;
  }

  // ---------------------------------------------------------------- what is accepted

  predicate AllInOrder(ps: seq<Parameter>, draws: Draws) { forall i :: 0 <= i < |ps| ==> ProblemAt(ps, i, draws).None? }

  /** The ways to come by a value: it is given, it is drawn by the one known generator, or there is neither. */
  predicate Obtains(p: Parameter, i: nat, draws: Draws, v: string) {
    || (p.value != "" && v == p.value)
    || (p.value == "" && p.generate == EXPRESSION && p.from != "" && draws(i, p.from) == Some(v))
    || (p.value == "" && p.generate == "" && v == "")
  }

  /** Which problem is reported: what is wrong with the name comes first, then the generator, then the missing value. */
  lemma ProblemsMean(ps: seq<Parameter>, i: nat, draws: Draws)
    requires i < |ps|
    ensures var p, problem := ps[i], ProblemAt(ps, i, draws);
            && (problem == Some(EmptyName) <==> p.name == "")
            && (problem == Some(Duplicate) <==> p.name != "" && exists j :: 0 <= j < i && ps[j].name == p.name)
            && (problem.Some? && problem.value in {UnknownGenerator, EmptyFrom, GeneratorFailed} ==>
                p.value == "" && p.generate != "")
            && (problem == Some(UnknownGenerator) ==> p.generate != "expression")
            && (problem == Some(EmptyFrom) ==> p.generate == "expression" && p.from == "")
            && (problem == Some(GeneratorFailed) ==>
                p.generate == "expression" && p.from != "" && draws(i, p.from).None?)
            && (problem == Some(MissingValue) ==> p.required && p.value == "")
  {
  }

  lemma DistinctIffFirst(ps: seq<Parameter>)
    ensures (forall i, j :: 0 <= i < j < |ps| ==> ps[i].name != ps[j].name)
            <==> forall j :: 0 <= j < |ps| ==> FirstOfItsName(ps, j)
  {
    if forall j :: 0 <= j < |ps| ==> FirstOfItsName(ps, j) {
      forall i, j | 0 <= i < j < |ps| ensures ps[i].name != ps[j].name {
        assert FirstOfItsName(ps, j);
      }
    }
  }

  /** The parameter obtains a value, and not the empty one if it is required. */
  ghost predicate Provided(p: Parameter, i: nat, draws: Draws) {
    exists v :: Obtains(p, i, draws, v) && (p.required ==> v != "")
  }

  lemma InOrderIff(ps: seq<Parameter>, i: nat, draws: Draws)
    requires i < |ps|
    ensures ProblemAt(ps, i, draws).None? <==> ps[i].name != "" && FirstOfItsName(ps, i) && Provided(ps[i], i, draws)
    ensures forall v :: Obtains(ps[i], i, draws, v) ==> Filled(ps[i], i, draws).value == v
  {
    hide FirstOfItsName;
    if ProblemAt(ps, i, draws).None? {
      assert Obtains(ps[i], i, draws, Filled(ps[i], i, draws).value);
    }
  }

  /** Parameters are accepted if and only if they have names, no two the same, and each is provided for; and what a
      parameter obtains is the value it is filled in with. */
  lemma AcceptedIff(ps: seq<Parameter>, draws: Draws)
    ensures AllInOrder(ps, draws) <==>
              && (forall i :: 0 <= i < |ps| ==> ps[i].name != "")
              && (forall i, j :: 0 <= i < j < |ps| ==> ps[i].name != ps[j].name)
              && (forall i :: 0 <= i < |ps| ==> Provided(ps[i], i, draws))
    ensures forall i, v :: 0 <= i < |ps| && Obtains(ps[i], i, draws, v) ==> Filled(ps[i], i, draws).value == v
  {
    hide ProblemAt, Obtains, Filled, Provided, FirstOfItsName;
    forall i | 0 <= i < |ps|
      ensures ProblemAt(ps, i, draws).None? <==> ps[i].name != "" && FirstOfItsName(ps, i) && Provided(ps[i], i, draws)
      ensures forall v :: Obtains(ps[i], i, draws, v) ==> Filled(ps[i], i, draws).value == v
    {
      InOrderIff(ps, i, draws);
    }
    DistinctIffFirst(ps);
    if AllInOrder(ps, draws) {
      forall i | 0 <= i < |ps| ensures ps[i].name != "" && FirstOfItsName(ps, i) && Provided(ps[i], i, draws) {
        assert ProblemAt(ps, i, draws).None?;
      }
    }
  }
}
