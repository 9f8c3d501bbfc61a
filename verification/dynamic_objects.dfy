/**
  `get_dynamic_obj_value`: rebuilding an object from the assignments to its
  heap name, following `&` references to other objects.
 */
module DynamicObjects {
  import opened Text
  import opened Trace
  import opened NestedMaps

  const ClassIdentifierSuffix := ".@java.lang.Object.@class_identifier"
  const MonitorCountSuffix := ".@java.lang.Object.cproverMonitorCount"
  const ClassKey := "__class"

  predicate IsQuote(c: char)
  {
    c == '"'
  }

  /** `text.strip('"').split('::')[-1]`: the unqualified class name. */
  function ClassTag(text: string): string
  {
    Last(Split(StripBy(text, IsQuote), "::"))
  }

  /** `lhs.split('.')[1:]`: the field path below the object's own name. */
  function KeyPath(lhs: string): seq<string>
  {
    Split(lhs, ".")[1..]
  }

  /** The object `get_dynamic_obj_value(name, trace)` returns, or the
      exception it raises; `fuel` bounds how many `&` references are followed. */
  function ObjectValue(trace: seq<Record>, name: string, fuel: nat): Result<map<string, Value>>
    decreases fuel, 2, 0
  {
    ObjectFrom(trace, name, fuel, RecordsOf(trace, name), map[])
  }

  /** The loop of `get_dynamic_obj_value` over the records `recs` still to
      come, with `acc` the dict built so far. */
  function ObjectFrom(trace: seq<Record>, name: string, fuel: nat, recs: seq<Record>, acc: map<string, Value>): Result<map<string, Value>>
    decreases fuel, 1, |recs|
  {
    if recs == [] then Ok(acc)
    else
      var acc' :- Apply(trace, name, fuel, recs[0], acc);
      ObjectFrom(trace, name, fuel, recs[1..], acc')
  }

  /** One turn of that loop: a class identifier sets `__class`, a monitor
      count is skipped, any other record is stored at its field path. */
  function Apply(trace: seq<Record>, name: string, fuel: nat, rec: Record, acc: map<string, Value>): Result<map<string, Value>>
    decreases fuel, 0, 1
  {
    if rec.lhs == name + ClassIdentifierSuffix then Ok(acc[ClassKey := Lit(ClassTag(rec.value))])
    else if rec.lhs == name + MonitorCountSuffix then Ok(acc)
    else
      var value :- FieldValue(trace, rec.value, fuel);
      SetAtPath(acc, KeyPath(rec.lhs), value)
  }

  /** A field's value: the object an `&` reference names, or the text itself. */
  function FieldValue(trace: seq<Record>, text: string, fuel: nat): Result<Value>
    decreases fuel, 0, 0
  {
    if "&" <= text then
      if fuel == 0 then Err(OutOfFuel)
      else
        var fields :- ObjectValue(trace, text[1..], fuel - 1);
        Ok(Obj(fields))
    else Ok(Lit(text))
  }

  /** get_dynamic_obj_value: folds the records of `name` into a nested dict. */
  method DynamicObjValue(trace: seq<Record>, name: string, fuel: nat) returns (r: Result<map<string, Value>>)
    ensures r == ObjectValue(trace, name, fuel)
    decreases fuel, 1
  {
    var assignments := RecordsOf(trace, name);
    var val: map<string, Value> := map[];
    var i := 0;
    while i < |assignments|
      invariant 0 <= i <= |assignments|
      invariant ObjectValue(trace, name, fuel) == ObjectFrom(trace, name, fuel, assignments[i..], val)
    {
      assert assignments[i..][0] == assignments[i] && assignments[i..][1..] == assignments[i + 1..];
      var step := ApplyRecord(trace, name, fuel, assignments[i], val);
      if step.Err? {
        return Err(step.error);
      }
      val := step.value;
      i := i + 1;
    }
    return Ok(val);
  }

  /** One turn of the loop of get_dynamic_obj_value, on the dict `val`. */
  method ApplyRecord(trace: seq<Record>, name: string, fuel: nat, assignment: Record, val: map<string, Value>)
    returns (r: Result<map<string, Value>>)
    ensures r == Apply(trace, name, fuel, assignment, val)
    decreases fuel, 0
  {
    if assignment.lhs == name + ClassIdentifierSuffix {
      return Ok(val[ClassKey := Lit(ClassTag(assignment.value))]);
    }
    if assignment.lhs == name + MonitorCountSuffix {
      return Ok(val);
    }
    var value: Value;
    if "&" <= assignment.value {
      if fuel == 0 {
        return Err(OutOfFuel);
      }
      var inner := DynamicObjValue(trace, assignment.value[1..], fuel - 1);
      if inner.Err? {
        return Err(inner.error);
      }
      value := Obj(inner.value);
    } else {
      value := Lit(assignment.value);
    }
    assert FieldValue(trace, assignment.value, fuel) == Ok(value);
    r := NestedSet(val, KeyPath(assignment.lhs), value);
  }

  /** A quoted, `::`-qualified class identifier yields its last segment. */
  lemma ClassTagOfQualifiedName(package: string, className: string)
    requires ':' !in package && '"' !in package && package != []
    requires ':' !in className && '"' !in className && className != []
    ensures ClassTag("\"" + package + "::" + className + "\"") == className
  {
    QuotesStripped(package, className);
    SplitQualified(package, className);
    assert Last([package, className]) == className;
  }

  lemma QuotesStripped(package: string, className: string)
    requires '"' !in package && package != []
    requires '"' !in className && className != []
    ensures StripBy("\"" + package + "::" + className + "\"", IsQuote) == package + "::" + className
  {
    var x := package + "::" + className;
    assert "\"" + package + "::" + className + "\"" == ['"'] + x + ['"'];
    assert x[0] == package[0] && x[|x| - 1] == className[|className| - 1];
    assert !IsQuote(package[0]) by { assert package[0] in package; }
    assert !IsQuote(className[|className| - 1]) by { assert className[|className| - 1] in className; }
    StripByWrapped('"', x, IsQuote);
  }

  lemma SplitQualified(package: string, className: string)
    requires ':' !in package && ':' !in className
    ensures Split(package + "::" + className, "::") == [package, className]
  {
    SplitAtFirst(package, "::", className);
    SplitWithoutSeparator(className, "::");
  }

  /** Folding `a + b` is folding `a`, then `b` from where `a` left off. */
  lemma {:induction false} ObjectFromAppend(trace: seq<Record>, name: string, fuel: nat, a: seq<Record>, b: seq<Record>, acc: map<string, Value>)
    ensures ObjectFrom(trace, name, fuel, a + b, acc) ==
      match ObjectFrom(trace, name, fuel, a, acc)
      case Ok(m) => ObjectFrom(trace, name, fuel, b, m)
      case Err(e) => Err(e)
    decreases |a|
  {
    if a == [] {
      assert a + b == b;
    } else {
      assert (a + b)[0] == a[0] && (a + b)[1..] == a[1..] + b;
      var step := Apply(trace, name, fuel, a[0], acc);
      if step.Ok? {
        ObjectFromAppend(trace, name, fuel, a[1..], b, step.value);
      }
    }
  }

  /** A record leaves what is stored at `path` alone: it is a monitor count,
      a class identifier when `path` is not under `__class`, or a field whose
      path parts ways with `path`. */
  predicate Spares(name: string, rec: Record, path: seq<string>)
    requires path != []
  {
    if rec.lhs == name + ClassIdentifierSuffix then path[0] != ClassKey
    else rec.lhs == name + MonitorCountSuffix || Diverge(path, KeyPath(rec.lhs))
  }

  /** A record that spares `path` leaves the value found there as it was. */
  lemma ApplySpares(trace: seq<Record>, name: string, fuel: nat, rec: Record, acc: map<string, Value>, path: seq<string>)
    requires path != [] && Spares(name, rec, path)
    requires Apply(trace, name, fuel, rec, acc).Ok?
    ensures Lookup(Apply(trace, name, fuel, rec, acc).value, path) == Lookup(acc, path)
  {
    if rec.lhs == name + ClassIdentifierSuffix {
      assert Lookup(acc[ClassKey := Lit(ClassTag(rec.value))], path) == Lookup(acc, path);
    } else if rec.lhs != name + MonitorCountSuffix {
      SetAtPathKeepsOthers(acc, KeyPath(rec.lhs), FieldValue(trace, rec.value, fuel).value, path);
    }
  }

  /** Records that spare `path` leave the value found there as it was. */
  lemma {:induction false} SparedPath(trace: seq<Record>, name: string, fuel: nat, recs: seq<Record>, acc: map<string, Value>, path: seq<string>)
    requires path != []
    requires forall k :: 0 <= k < |recs| ==> Spares(name, recs[k], path)
    requires ObjectFrom(trace, name, fuel, recs, acc).Ok?
    ensures Lookup(ObjectFrom(trace, name, fuel, recs, acc).value, path) == Lookup(acc, path)
    decreases |recs|
  {
    if recs != [] {
      assert Spares(name, recs[0], path);
      assert forall k :: 0 <= k < |recs[1..]| ==> recs[1..][k] == recs[k + 1];
      ApplySpares(trace, name, fuel, recs[0], acc, path);
      SparedPath(trace, name, fuel, recs[1..], Apply(trace, name, fuel, recs[0], acc).value, path);
    }
  }

  /** Last write wins for a field: when no later record touches its path,
      the object holds the value of the last record for that path there. */
  lemma FieldLastWins(trace: seq<Record>, name: string, fuel: nat, before: seq<Record>, field: Record, after: seq<Record>)
    requires RecordsOf(trace, name) == before + [field] + after
    requires field.lhs != name + ClassIdentifierSuffix && field.lhs != name + MonitorCountSuffix
    requires KeyPath(field.lhs) != []
    requires forall k :: 0 <= k < |after| ==> Spares(name, after[k], KeyPath(field.lhs))
    requires ObjectValue(trace, name, fuel).Ok?
    ensures FieldValue(trace, field.value, fuel).Ok?
    ensures Lookup(ObjectValue(trace, name, fuel).value, KeyPath(field.lhs)) == Some(FieldValue(trace, field.value, fuel).value)
  {
    var path := KeyPath(field.lhs);
    ObjectFromAppend(trace, name, fuel, before + [field], after, map[]);
    ObjectFromAppend(trace, name, fuel, before, [field], map[]);
    var m := ObjectFrom(trace, name, fuel, before, map[]).value;
    var value := FieldValue(trace, field.value, fuel).value;
    var m' := SetAtPath(m, path, value).value;
    assert ObjectFrom(trace, name, fuel, before + [field], map[]) == Ok(m') by {
      assert ObjectFrom(trace, name, fuel, [field], m) == Apply(trace, name, fuel, field, m);
    }
    SetAtPathStores(m, path, value);
    SparedPath(trace, name, fuel, after, m', path);
  }

  /** Last write wins for the class tag: when no later record is a class
      identifier or a field under `__class`, the object's `__class` is the
      tag of the last class identifier. */
  lemma ClassTagLastWins(trace: seq<Record>, name: string, fuel: nat, before: seq<Record>, classId: Record, after: seq<Record>)
    requires RecordsOf(trace, name) == before + [classId] + after
    requires classId.lhs == name + ClassIdentifierSuffix
    requires forall k :: 0 <= k < |after| ==> Spares(name, after[k], [ClassKey])
    requires ObjectValue(trace, name, fuel).Ok?
    ensures var m := ObjectValue(trace, name, fuel).value;
      ClassKey in m && m[ClassKey] == Lit(ClassTag(classId.value))
  {
    ClassIdThenSpared(trace, name, fuel, before, classId, after, map[]);
  }

  lemma ClassIdThenSpared(trace: seq<Record>, name: string, fuel: nat, before: seq<Record>, classId: Record, after: seq<Record>, acc: map<string, Value>)
    requires classId.lhs == name + ClassIdentifierSuffix
    requires forall k :: 0 <= k < |after| ==> Spares(name, after[k], [ClassKey])
    requires ObjectFrom(trace, name, fuel, before + [classId] + after, acc).Ok?
    ensures Lookup(ObjectFrom(trace, name, fuel, before + [classId] + after, acc).value, [ClassKey]) == Some(Lit(ClassTag(classId.value)))
  {
    var whole := before + [classId] + after;
    assert whole == before + ([classId] + after);
    ObjectFromAppend(trace, name, fuel, before, [classId] + after, acc);
    assert ObjectFrom(trace, name, fuel, before, acc).Ok?;
    var m := ObjectFrom(trace, name, fuel, before, acc).value;
    var m' := m[ClassKey := Lit(ClassTag(classId.value))];
    assert ObjectFrom(trace, name, fuel, whole, acc) == ObjectFrom(trace, name, fuel, after, m') by {
      assert ([classId] + after)[0] == classId && ([classId] + after)[1..] == after;
      assert Apply(trace, name, fuel, classId, m) == Ok(m');
    }
    LookupStored(m, ClassKey, Lit(ClassTag(classId.value)));
    SparedPath(trace, name, fuel, after, m', [ClassKey]);
  }

  /** The top-level keys of a rebuilt object: `__class` when a class
      identifier was seen, and the first segment of every stored field path;
      monitor counts add nothing. */
  lemma {:induction false} ObjectKeys(trace: seq<Record>, name: string, fuel: nat, recs: seq<Record>, acc: map<string, Value>)
    requires ObjectFrom(trace, name, fuel, recs, acc).Ok?
    ensures forall key :: key in ObjectFrom(trace, name, fuel, recs, acc).value <==>
      key in acc || exists rec :: rec in recs && AddsKey(name, rec, key)
    decreases |recs|
  {
    if recs != [] {
      var rec := recs[0];
      var m := ObjectFrom(trace, name, fuel, recs, acc).value;
      assert forall x :: x in recs <==> x == rec || x in recs[1..];
      var acc' := Apply(trace, name, fuel, rec, acc).value;
      if rec.lhs != name + ClassIdentifierSuffix && rec.lhs != name + MonitorCountSuffix {
        SetAtPathFrame(acc, KeyPath(rec.lhs), FieldValue(trace, rec.value, fuel).value);
      }
      assert forall key :: key in acc' <==> key in acc || AddsKey(name, rec, key);
      ObjectKeys(trace, name, fuel, recs[1..], acc');
    }
  }

  /** The top-level key a record adds to the object of `name`. */
  predicate AddsKey(name: string, rec: Record, key: string)
  {
    if rec.lhs == name + ClassIdentifierSuffix then key == ClassKey
    else rec.lhs != name + MonitorCountSuffix && KeyPath(rec.lhs) != [] && KeyPath(rec.lhs)[0] == key
  }

  /** More fuel never changes an object that could already be rebuilt. */
  lemma {:induction false} ObjectValueFuel(trace: seq<Record>, name: string, fuel: nat, more: nat)
    requires ObjectValue(trace, name, fuel).Ok?
    ensures ObjectValue(trace, name, fuel + more) == ObjectValue(trace, name, fuel)
    decreases fuel, 2, 0
  {
    ObjectFromFuel(trace, name, fuel, more, RecordsOf(trace, name), map[]);
  }

  lemma {:induction false} ObjectFromFuel(trace: seq<Record>, name: string, fuel: nat, more: nat, recs: seq<Record>, acc: map<string, Value>)
    requires ObjectFrom(trace, name, fuel, recs, acc).Ok?
    ensures ObjectFrom(trace, name, fuel + more, recs, acc) == ObjectFrom(trace, name, fuel, recs, acc)
    decreases fuel, 1, |recs|
  {
    if recs != [] {
      var rec := recs[0];
      if rec.lhs != name + ClassIdentifierSuffix && rec.lhs != name + MonitorCountSuffix {
        FieldValueFuel(trace, rec.value, fuel, more);
      }
      ObjectFromFuel(trace, name, fuel, more, recs[1..], Apply(trace, name, fuel, rec, acc).value);
    }
  }

  lemma {:induction false} FieldValueFuel(trace: seq<Record>, text: string, fuel: nat, more: nat)
    requires FieldValue(trace, text, fuel).Ok?
    ensures FieldValue(trace, text, fuel + more) == FieldValue(trace, text, fuel)
    decreases fuel, 0, 0
  {
    if "&" <= text {
      ObjectValueFuel(trace, text[1..], fuel - 1, more);
      assert fuel + more - 1 == fuel - 1 + more;
    }
  }
}
