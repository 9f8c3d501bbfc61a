/**
  `get_inputs`: for every failing property of a JBMC run, the arguments of
  the entry method with their Java types and values, and the reason the
  property failed.
 */
module Inputs {
  import opened Text
  import opened Trace
  import opened InputTypes
  import opened InputValues

  /** One entry of `inputs_list`: `{'type': ..., 'value': ...}`. */
  datatype Input = Input(typeName: string, value: Value)

  /** One element of the list `get_inputs` returns:
      `{'inputs': inputs_list, 'reason': reason}`. */
  datatype Counterexample = Counterexample(inputs: map<string, Input>, reason: string)

  /** The `result` elements whose status is `FAILURE`, in order. */
  function Failed(results: seq<ResultElement>): (r: seq<ResultElement>)
    ensures |r| <= |results|
    ensures forall x :: x in r <==> x in results && x.status == "FAILURE"
    decreases |results|
  {
    if results == [] then []
    else (if results[0].status == "FAILURE" then [results[0]] else []) + Failed(results[1..])
  }

  /** The filter keeps document order: the failures among `a + b` are
      those of `a` followed by those of `b`. */
  lemma {:induction false} FailedAppend(a: seq<ResultElement>, b: seq<ResultElement>)
    ensures Failed(a + b) == Failed(a) + Failed(b)
    decreases |a|
  {
    if a == [] {
      assert a + b == b;
    } else {
      assert (a + b)[0] == a[0] && (a + b)[1..] == a[1..] + b;
      FailedAppend(a[1..], b);
    }
  }

  /** An assignment to an argument of the entry method. */
  predicate IsArgument(rec: Record)
  {
    "arg" <= rec.baseName
  }

  /** An assignment to the argument named `b`. */
  predicate AssignsArgument(rec: Record, b: string)
  {
    IsArgument(rec) && rec.baseName == b
  }

  /** The inner loop of `get_inputs` over the steps still to come of the
      trace `trace`: each argument assignment gets its type, then its value,
      and replaces the entry of its base name. */
  function InputsFrom(trace: seq<Record>, fuel: nat, steps: seq<Record>, acc: map<string, Input>): Result<map<string, Input>>
    decreases |steps|
  {
    if steps == [] then Ok(acc)
    else if IsArgument(steps[0]) then
      var entry :- InputOf(trace, steps[0], fuel);
      InputsFrom(trace, fuel, steps[1..], acc[steps[0].baseName := entry])
    else InputsFrom(trace, fuel, steps[1..], acc)
  }

  /** The entry one argument assignment produces; the type is computed, and
      can fail, before the value. */
  function InputOf(trace: seq<Record>, rec: Record, fuel: nat): Result<Input>
  {
    var valueType :- InputType(rec.typeText);
    var actualValue :- InputValueOf(trace, rec, fuel);
    Ok(Input(valueType, actualValue))
  }

  /** The counterexample of one failing result. */
  function CounterexampleOf(result: ResultElement, fuel: nat): Result<Counterexample>
  {
    var inputs :- InputsFrom(result.steps, fuel, result.steps, map[]);
    Ok(Counterexample(inputs, result.reason))
  }

  /** The outer loop of `get_inputs` over the failing results still to
      come: the list grows by one counterexample per failing result, in
      order, unless one of them raises. */
  function CounterexamplesFrom(failed: seq<ResultElement>, fuel: nat, acc: seq<Counterexample>): (r: Result<seq<Counterexample>>)
    ensures r.Ok? ==> |r.value| == |acc| + |failed| && r.value[..|acc|] == acc
    ensures r.Ok? ==> forall i :: 0 <= i < |failed| ==>
      CounterexampleOf(failed[i], fuel) == Ok(r.value[|acc| + i]) && r.value[|acc| + i].reason == failed[i].reason
    ensures r.Err? <==> exists i :: 0 <= i < |failed| && CounterexampleOf(failed[i], fuel).Err?
    decreases |failed|
  {
    if failed == [] then Ok(acc)
    else
      var c := CounterexampleOf(failed[0], fuel);
      if c.Err? then Err(c.error)
      else
        var r := CounterexamplesFrom(failed[1..], fuel, acc + [c.value]);
        assert forall i :: 1 <= i < |failed| ==> failed[1..][i - 1] == failed[i];
        assert r.Ok? ==> r.value[|acc|] == (acc + [c.value])[|acc|];
        r
  }

  /** What `get_inputs` returns for the `result` elements of a JBMC run. */
  function Counterexamples(results: seq<ResultElement>, fuel: nat): Result<seq<Counterexample>>
  {
    CounterexamplesFrom(Failed(results), fuel, [])
  }

  /** get_inputs, once the XML is read into `result` elements. */
  method GetInputs(results: seq<ResultElement>, fuel: nat) returns (r: Result<seq<Counterexample>>)
    ensures r == Counterexamples(results, fuel)
  {
    var failedResults := Failed(results);
    var inputs: seq<Counterexample> := [];
    var i := 0;
    while i < |failedResults|
      invariant 0 <= i <= |failedResults|
      invariant Counterexamples(results, fuel) == CounterexamplesFrom(failedResults[i..], fuel, inputs)
    {
      var result := failedResults[i];
      assert failedResults[i..][0] == result && failedResults[i..][1..] == failedResults[i + 1..];
      var inputsList := ArgumentInputs(result.steps, fuel);
      if inputsList.Err? {
        return Err(inputsList.error);
      }
      inputs := inputs + [Counterexample(inputsList.value, result.reason)];
      i := i + 1;
    }
    return Ok(inputs);
  }

  /** The inner loop of get_inputs over the steps of one goto trace. */
  method ArgumentInputs(gotoTrace: seq<Record>, fuel: nat) returns (r: Result<map<string, Input>>)
    ensures r == InputsFrom(gotoTrace, fuel, gotoTrace, map[])
  {
    var inputsList: map<string, Input> := map[];
    var j := 0;
    while j < |gotoTrace|
      invariant 0 <= j <= |gotoTrace|
      invariant InputsFrom(gotoTrace, fuel, gotoTrace, map[]) == InputsFrom(gotoTrace, fuel, gotoTrace[j..], inputsList)
    {
      var trace := gotoTrace[j];
      assert gotoTrace[j..][0] == trace && gotoTrace[j..][1..] == gotoTrace[j + 1..];
      if IsArgument(trace) {
        var valueType := InputType(trace.typeText);
        if valueType.Err? {
          return Err(valueType.error);
        }
        var actualValue := InputValue(gotoTrace, trace, fuel);
        if actualValue.Err? {
          return Err(actualValue.error);
        }
        inputsList := inputsList[trace.baseName := Input(valueType.value, actualValue.value)];
      }
      j := j + 1;
    }
    return Ok(inputsList);
  }

  /** Following the inner loop over `a + b`. */
  lemma {:induction false} InputsFromAppend(trace: seq<Record>, fuel: nat, a: seq<Record>, b: seq<Record>, acc: map<string, Input>)
    ensures InputsFrom(trace, fuel, a + b, acc) ==
      match InputsFrom(trace, fuel, a, acc)
      case Ok(m) => InputsFrom(trace, fuel, b, m)
      case Err(e) => Err(e)
    decreases |a|
  {
    if a == [] {
      assert a + b == b;
    } else {
      assert (a + b)[0] == a[0] && (a + b)[1..] == a[1..] + b;
      if IsArgument(a[0]) {
        var entry := InputOf(trace, a[0], fuel);
        if entry.Ok? {
          InputsFromAppend(trace, fuel, a[1..], b, acc[a[0].baseName := entry.value]);
        }
      } else {
        InputsFromAppend(trace, fuel, a[1..], b, acc);
      }
    }
  }

  /** The arguments reported are exactly the base names of the argument
      assignments of the trace (with those already collected). */
  lemma {:induction false} InputsKeys(trace: seq<Record>, fuel: nat, steps: seq<Record>, acc: map<string, Input>)
    requires InputsFrom(trace, fuel, steps, acc).Ok?
    ensures forall b :: b in InputsFrom(trace, fuel, steps, acc).value <==>
      b in acc || exists j :: 0 <= j < |steps| && AssignsArgument(steps[j], b)
    decreases |steps|
  {
    if steps != [] {
      var acc' := if IsArgument(steps[0]) then acc[steps[0].baseName := InputOf(trace, steps[0], fuel).value] else acc;
      InputsKeys(trace, fuel, steps[1..], acc');
      forall b
        ensures (exists j :: 0 <= j < |steps| && AssignsArgument(steps[j], b)) <==>
          AssignsArgument(steps[0], b) ||
          (exists j :: 0 <= j < |steps[1..]| && AssignsArgument(steps[1..][j], b))
      {
        if exists j :: 0 <= j < |steps| && AssignsArgument(steps[j], b) {
          var j :| 0 <= j < |steps| && AssignsArgument(steps[j], b);
          if j > 0 {
            assert steps[1..][j - 1] == steps[j];
          }
        }
        if exists j :: 0 <= j < |steps[1..]| && AssignsArgument(steps[1..][j], b) {
          var j :| 0 <= j < |steps[1..]| && AssignsArgument(steps[1..][j], b);
          assert steps[j + 1] == steps[1..][j];
        }
      }
    }
  }

  /** Records that assign other names leave an entry as it was. */
  lemma {:induction false} InputsKeepOthers(trace: seq<Record>, fuel: nat, steps: seq<Record>, acc: map<string, Input>, b: string)
    requires forall j :: 0 <= j < |steps| ==> !(AssignsArgument(steps[j], b))
    requires InputsFrom(trace, fuel, steps, acc).Ok? && b in acc
    ensures b in InputsFrom(trace, fuel, steps, acc).value && InputsFrom(trace, fuel, steps, acc).value[b] == acc[b]
    decreases |steps|
  {
    if steps != [] {
      assert !AssignsArgument(steps[0], b);
      assert forall j :: 0 <= j < |steps[1..]| ==> steps[1..][j] == steps[j + 1];
      var acc' := if IsArgument(steps[0]) then acc[steps[0].baseName := InputOf(trace, steps[0], fuel).value] else acc;
      InputsKeepOthers(trace, fuel, steps[1..], acc', b);
    }
  }

  /** An argument assigned several times is reported with the type and
      value of its last assignment. */
  lemma InputsLastWins(trace: seq<Record>, fuel: nat, before: seq<Record>, rec: Record, after: seq<Record>)
    requires IsArgument(rec)
    requires forall j :: 0 <= j < |after| ==> !AssignsArgument(after[j], rec.baseName)
    requires InputsFrom(trace, fuel, before + [rec] + after, map[]).Ok?
    ensures InputOf(trace, rec, fuel).Ok?
    ensures var m := InputsFrom(trace, fuel, before + [rec] + after, map[]).value;
      rec.baseName in m && m[rec.baseName] == InputOf(trace, rec, fuel).value
  {
    InputsFromAppend(trace, fuel, before + [rec], after, map[]);
    InputsFromAppend(trace, fuel, before, [rec], map[]);
    var m := InputsFrom(trace, fuel, before, map[]).value;
    assert [rec][0] == rec && [rec][1..] == [];
    var m' := m[rec.baseName := InputOf(trace, rec, fuel).value];
    assert InputsFrom(trace, fuel, [rec], m) == Ok(m');
    InputsKeepOthers(trace, fuel, after, m', rec.baseName);
  }

  /** An argument whose type descriptor is of no supported shape makes the
      whole call fail, whatever else the trace holds. */
  lemma {:induction false} UnsupportedArgumentAborts(trace: seq<Record>, fuel: nat, steps: seq<Record>, acc: map<string, Input>, k: nat)
    requires k < |steps| && IsArgument(steps[k])
    requires InputType(steps[k].typeText).Err?
    ensures InputsFrom(trace, fuel, steps, acc).Err?
    decreases |steps|
  {
    if k > 0 {
      assert steps[1..][k - 1] == steps[k];
      if IsArgument(steps[0]) && InputOf(trace, steps[0], fuel).Ok? {
        UnsupportedArgumentAborts(trace, fuel, steps[1..], acc[steps[0].baseName := InputOf(trace, steps[0], fuel).value], k - 1);
      } else if !IsArgument(steps[0]) {
        UnsupportedArgumentAborts(trace, fuel, steps[1..], acc, k - 1);
      }
    }
  }

  /** A run without failing results yields an empty list; every failing
      result yields exactly one counterexample, in document order, carrying
      its reason. */
  lemma CounterexamplesShape(results: seq<ResultElement>, fuel: nat)
    requires Counterexamples(results, fuel).Ok?
    ensures var r := Counterexamples(results, fuel).value;
      && |r| == |Failed(results)|
      && forall i :: 0 <= i < |r| ==> r[i].reason == Failed(results)[i].reason && Failed(results)[i].status == "FAILURE"
  {
    var f := Failed(results);
    var r := CounterexamplesFrom(f, fuel, []).value;
    forall i | 0 <= i < |r| ensures r[i].reason == f[i].reason && f[i].status == "FAILURE" {
      assert f[i] in f;
    }
  }
}
