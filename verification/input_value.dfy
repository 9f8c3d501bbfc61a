/**
  `get_input_value`: the value of one argument, chosen by the shape of its
  type descriptor.
 */
module InputValues {
  import opened Text
  import opened Trace
  import opened TypeChecker
  import opened DynamicObjects
  import opened ArrayInputs
  import opened StringInputs

  /** The value `get_input_value` gives the argument assigned by `rec`: the
      text `null` for a null reference, the text itself for a primitive, and
      otherwise the string literal, the array or the object rebuilt from the
      heap records of `trace`. */
  function InputValueOf(trace: seq<Record>, rec: Record, fuel: nat): (r: Result<Value>)
    ensures rec.value == "null" ==> r == Ok(Lit("null"))
    ensures rec.value != "null" ==> match Classify(rec.typeText)
      case PrimitiveKind => r == Ok(Lit(rec.value))
      case StringKind => r == StringInput(trace, rec.value, fuel)
      case ArrayKind => r == ArrayInput(trace, rec.value, fuel)
      case ClassKind => r.Ok? <==> ObjectValue(trace, DropFirst(rec.value), fuel).Ok?
      case Unsupported => r == Err(NotImplemented(rec.typeText))
    ensures r.Ok? && rec.value != "null" && Classify(rec.typeText) == ClassKind ==> r.value.Obj?
  {
    DispatchOrdersAgree(rec.typeText);
    if rec.value == "null" then Ok(Lit("null"))
    else if IsPrimitiveType(rec.typeText) then Ok(Lit(rec.value))
    else if IsStringType(rec.typeText) then StringInput(trace, rec.value, fuel)
    else if IsArrayType(rec.typeText) then ArrayInput(trace, rec.value, fuel)
    else if IsClassType(rec.typeText) then
      var fields :- ObjectValue(trace, DropFirst(rec.value), fuel);
      Ok(Obj(fields))
    else Err(NotImplemented(rec.typeText))
  }

  /** get_input_value, dispatching to the methods that rebuild each shape
      (get_class_input_value is the call to DynamicObjValue). */
  method InputValue(trace: seq<Record>, rec: Record, fuel: nat) returns (r: Result<Value>)
    ensures r == InputValueOf(trace, rec, fuel)
  {
    if rec.value == "null" {
      return Ok(Lit("null"));
    }
    if IsPrimitiveType(rec.typeText) {
      return Ok(Lit(rec.value));
    }
    if IsStringType(rec.typeText) {
      r := StringInputValue(trace, rec.value, fuel);
      return;
    }
    if IsArrayType(rec.typeText) {
      r := ArrayInputValue(trace, rec.value, fuel);
      return;
    }
    if IsClassType(rec.typeText) {
      var fields := DynamicObjValue(trace, DropFirst(rec.value), fuel);
      if fields.Err? {
        return Err(fields.error);
      }
      return Ok(Obj(fields.value));
    }
    return Err(NotImplemented(rec.typeText));
  }

  /** An object argument `&name` is the dict rebuilt from the records of
      the heap object `name`. */
  lemma ClassInputOfObject(trace: seq<Record>, rec: Record, name: string, fuel: nat)
    requires IsClassType(rec.typeText) && !IsStringType(rec.typeText)
    requires rec.value == "&" + name
    requires ObjectValue(trace, name, fuel).Ok?
    ensures InputValueOf(trace, rec, fuel) == Ok(Obj(ObjectValue(trace, name, fuel).value))
  {
    assert DropFirst(rec.value) == name;
    assert rec.value != "null" by {
      assert rec.value[0] == '&';
    }
    ArrayAndClassPartitionStructs(rec.typeText);
    PrimitiveIsNotStructured(rec.typeText);
  }
}
