/**
  String arguments: `get_string_value`, which finds the brace literal of
  the character array behind a heap name, and `get_string_input_value`,
  which reaches that array through the string object's `.data` field and
  reads its quoted characters back into a Java string literal.
 */
module StringInputs {
  import opened Text
  import opened Trace
  import opened Csv
  import opened InputTypes

  /** The text `get_string_value(name, trace)` returns first: the last brace
      literal assigned to the name, or what the last reference it was
      assigned leads to (None when nothing is found). `fuel` bounds the
      chases through `&` and `dynamic_object`. */
  function StringPayload(trace: seq<Record>, name: string, fuel: nat): Result<Option<string>>
    decreases fuel, 2, 0
  {
    StringBaseFrom(trace, name, fuel, RecordsOf(trace, name), None)
  }

  /** The loop of `get_string_value` over the records still to come. */
  function StringBaseFrom(trace: seq<Record>, name: string, fuel: nat, recs: seq<Record>, slot: Option<string>): Result<Option<string>>
    decreases fuel, 1, |recs|
  {
    if recs == [] then Ok(slot)
    else
      var next :- StringBaseStep(trace, name, fuel, recs[0], slot);
      StringBaseFrom(trace, name, fuel, recs[1..], next)
  }

  /** One turn of it. */
  function StringBaseStep(trace: seq<Record>, name: string, fuel: nat, rec: Record, slot: Option<string>): Result<Option<string>>
    decreases fuel, 0, 0
  {
    if rec.lhs != name then Ok(slot)
    else if "{" <= rec.value then Ok(Some(rec.value))
    else if "&" <= rec.value || "dynamic_object" <= rec.value then
      if fuel == 0 then Err(OutOfFuel)
      else
        var target := if "&" <= rec.value then RemovePointerCast(rec.value[1..]) else rec.value;
        StringPayload(trace, target, fuel - 1)
    else Ok(slot)
  }

  /** get_string_value (the type text it also returns is dropped by its
      only caller). */
  method StringValue(trace: seq<Record>, name: string, fuel: nat) returns (r: Result<Option<string>>)
    ensures r == StringPayload(trace, name, fuel)
    decreases fuel, 1
  {
    var assignments := RecordsOf(trace, name);
    var arrayValue: Option<string> := None;
    var i := 0;
    while i < |assignments|
      invariant 0 <= i <= |assignments|
      invariant StringBaseFrom(trace, name, fuel, assignments, None) == StringBaseFrom(trace, name, fuel, assignments[i..], arrayValue)
    {
      assert assignments[i..][0] == assignments[i] && assignments[i..][1..] == assignments[i + 1..];
      var step := StringRecord(trace, name, fuel, assignments[i], arrayValue);
      if step.Err? {
        return Err(step.error);
      }
      arrayValue := step.value;
      i := i + 1;
    }
    return Ok(arrayValue);
  }

  /** One turn of the loop of get_string_value. */
  method StringRecord(trace: seq<Record>, name: string, fuel: nat, assignment: Record, arrayValue: Option<string>)
    returns (r: Result<Option<string>>)
    ensures r == StringBaseStep(trace, name, fuel, assignment, arrayValue)
    decreases fuel, 0
  {
    if assignment.lhs != name {
      return Ok(arrayValue);
    }
    if "{" <= assignment.value {
      return Ok(Some(assignment.value));
    }
    if "&" <= assignment.value || "dynamic_object" <= assignment.value {
      if fuel == 0 {
        return Err(OutOfFuel);
      }
      var target := if "&" <= assignment.value then RemovePointerCast(assignment.value[1..]) else assignment.value;
      r := StringValue(trace, target, fuel - 1);
      return;
    }
    return Ok(arrayValue);
  }

  /** The `value` entry a `.data` record gives the dict `val` of
      `get_string_input_value`: the text itself, or through a reference the
      text `get_string_value` finds. */
  function DataOf(trace: seq<Record>, rec: Record, fuel: nat): Result<Option<string>>
  {
    if "&" <= rec.value then StringPayload(trace, RemovePointerCast(rec.value[1..]), fuel)
    else if "dynamic_object" <= rec.value then StringPayload(trace, rec.value, fuel)
    else Ok(Some(rec.value))
  }

  /** The record sets the `value` entry (brace literals are skipped). */
  predicate SetsData(name: string, rec: Record)
  {
    !("{" <= rec.value) && rec.lhs == name + ".data"
  }

  /** The loop of `get_string_input_value` over the records still to come:
      the outer None is a missing `value` entry, the inner one a `value`
      entry holding None. The `length` entry it also records is never read,
      so it is not kept here. */
  function DataFrom(trace: seq<Record>, name: string, fuel: nat, recs: seq<Record>, data: Option<Option<string>>): Result<Option<Option<string>>>
    decreases |recs|
  {
    if recs == [] then Ok(data)
    else if SetsData(name, recs[0]) then
      var d :- DataOf(trace, recs[0], fuel);
      DataFrom(trace, name, fuel, recs[1..], Some(d))
    else DataFrom(trace, name, fuel, recs[1..], data)
  }

  /** The characters of a JBMC character-array literal: the text between
      the braces, stripped, read as one csv row quoted with `'`, and joined. */
  function Decode(literal: string): string
  {
    Join(Row(Strip(Inner(literal)), '\'', true), "")
  }

  /** The Java string literal `get_string_input_value` returns for a string
      argument whose value text is `valueText`. */
  function StringInput(trace: seq<Record>, valueText: string, fuel: nat): (r: Result<Value>)
    ensures r.Ok? ==> r.value.Lit? && |r.value.text| >= 2
    ensures r.Ok? ==> r.value.text[0] == '"' && r.value.text[|r.value.text| - 1] == '"'
  {
    var name := DropFirst(valueText);
    var data :- DataFrom(trace, name, fuel, RecordsOf(trace, name), None);
    match data
    case None => Err(KeyError("value"))
    case Some(None) => Err(TypeError)
    case Some(Some(text)) => Ok(Lit("\"" + Decode(text) + "\""))
  }

  /** get_string_input_value. */
  method StringInputValue(trace: seq<Record>, valueText: string, fuel: nat) returns (r: Result<Value>)
    ensures r == StringInput(trace, valueText, fuel)
  {
    var name := DropFirst(valueText);
    var assignments := RecordsOf(trace, name);
    var value: Option<Option<string>> := None;
    var i := 0;
    while i < |assignments|
      invariant 0 <= i <= |assignments|
      invariant DataFrom(trace, name, fuel, assignments, None) == DataFrom(trace, name, fuel, assignments[i..], value)
    {
      var assignment := assignments[i];
      assert assignments[i..][0] == assignment && assignments[i..][1..] == assignments[i + 1..];
      if !("{" <= assignment.value) && assignment.lhs == name + ".data" {
        var d := DataValue(trace, assignment, fuel);
        if d.Err? {
          return Err(d.error);
        }
        value := Some(d.value);
      }
      i := i + 1;
    }
    if value.None? {
      return Err(KeyError("value"));
    }
    if value.value.None? {
      return Err(TypeError);
    }
    return Ok(Lit("\"" + Decode(value.value.value) + "\""));
  }

  /** The `.data` branch of the loop of get_string_input_value. */
  method DataValue(trace: seq<Record>, assignment: Record, fuel: nat) returns (r: Result<Option<string>>)
    ensures r == DataOf(trace, assignment, fuel)
  {
    if "&" <= assignment.value {
      r := StringValue(trace, RemovePointerCast(assignment.value[1..]), fuel);
    } else if "dynamic_object" <= assignment.value {
      r := StringValue(trace, assignment.value, fuel);
    } else {
      r := Ok(Some(assignment.value));
    }
  }

  /** The literal JBMC writes for a character array, `{ 'a', 'b', 'c' }`,
      or the same without blanks, `{'a','b','c'}`. */
  function CharArrayLiteral(cs: string, gap: string): string
  {
    "{" + gap + QuotedChars(cs, '\'', gap) + gap + "}"
  }

  /** Decoding a character-array literal gives back its characters, when
      none of them is the quote character. */
  lemma DecodeCharArray(cs: string, gap: string)
    requires '\'' !in cs && AllBlank(gap)
    ensures Decode(CharArrayLiteral(cs, gap)) == cs
  {
    var q := QuotedChars(cs, '\'', gap);
    assert Inner(CharArrayLiteral(cs, gap)) == gap + q + gap by {
      InnerOfBraces(gap + q + gap);
    }
    assert Strip(gap + q + gap) == q by {
      QuotedCharsEnds(cs, gap);
      BlanksAreSpaces(gap);
      StripPadded(gap, q, gap);
    }
    assert Row(q, '\'', true) == Singletons(cs) by {
      RowOfQuotedChars(cs, '\'', gap);
    }
    JoinSingletons(cs);
  }

  /** The text between the braces of `{...}`. */
  lemma InnerOfBraces(body: string)
    ensures Inner("{" + body + "}") == body
  {
    var s := "{" + body + "}";
    assert s[1..|s| - 1] == body;
  }

  /** A blank is one of the characters `strip()` removes. */
  lemma BlanksAreSpaces(gap: string)
    requires AllBlank(gap)
    ensures forall k :: 0 <= k < |gap| ==> IsSpace(gap[k])
  {
    forall k | 0 <= k < |gap| ensures IsSpace(gap[k]) {
      assert IsBlank(gap[k]);
    }
  }

  /** The quoted characters start and end with the quote. */
  lemma {:induction false} QuotedCharsEnds(cs: string, gap: string)
    ensures var q := QuotedChars(cs, '\'', gap);
      q == [] || (q[0] == '\'' && q[|q| - 1] == '\'')
    decreases |cs|
  {
    if |cs| > 1 {
      QuotedCharsEnds(cs[1..], gap);
    }
  }

  /** Following the loop of get_string_value over `a + b`. */
  lemma {:induction false} StringBaseFromAppend(trace: seq<Record>, name: string, fuel: nat, a: seq<Record>, b: seq<Record>, slot: Option<string>)
    ensures StringBaseFrom(trace, name, fuel, a + b, slot) ==
      match StringBaseFrom(trace, name, fuel, a, slot)
      case Ok(s) => StringBaseFrom(trace, name, fuel, b, s)
      case Err(e) => Err(e)
    decreases |a|
  {
    if a == [] {
      assert a + b == b;
    } else {
      assert (a + b)[0] == a[0] && (a + b)[1..] == a[1..] + b;
      var step := StringBaseStep(trace, name, fuel, a[0], slot);
      if step.Ok? {
        StringBaseFromAppend(trace, name, fuel, a[1..], b, step.value);
      }
    }
  }

  /** Records that do not assign the name a literal or a reference leave
      the text as it was. */
  lemma {:induction false} StringBaseKept(trace: seq<Record>, name: string, fuel: nat, recs: seq<Record>, slot: Option<string>)
    requires forall j :: 0 <= j < |recs| ==> !WritesBase(name, recs[j])
    ensures StringBaseFrom(trace, name, fuel, recs, slot) == Ok(slot)
    decreases |recs|
  {
    if recs != [] {
      assert !WritesBase(name, recs[0]);
      assert forall j :: 0 <= j < |recs[1..]| ==> recs[1..][j] == recs[j + 1];
      StringBaseKept(trace, name, fuel, recs[1..], slot);
    }
  }

  /** The text found is the last brace literal assigned to the name, when
      nothing assigns the name after it. */
  lemma StringLastLiteral(trace: seq<Record>, name: string, fuel: nat, before: seq<Record>, rec: Record, after: seq<Record>)
    requires rec.lhs == name && "{" <= rec.value
    requires forall j :: 0 <= j < |after| ==> !WritesBase(name, after[j])
    requires StringBaseFrom(trace, name, fuel, before, None).Ok?
    ensures StringBaseFrom(trace, name, fuel, before + [rec] + after, None) == Ok(Some(rec.value))
  {
    StringBaseFromAppend(trace, name, fuel, before + [rec], after, None);
    StringBaseFromAppend(trace, name, fuel, before, [rec], None);
    var s := StringBaseFrom(trace, name, fuel, before, None).value;
    assert StringBaseFrom(trace, name, fuel, [rec], s) == Ok(Some(rec.value)) by {
      assert [rec][0] == rec && [rec][1..] == [];
    }
    StringBaseKept(trace, name, fuel, after, Some(rec.value));
  }

  /** Following the loop of get_string_input_value over `a + b`. */
  lemma {:induction false} DataFromAppend(trace: seq<Record>, name: string, fuel: nat, a: seq<Record>, b: seq<Record>, data: Option<Option<string>>)
    ensures DataFrom(trace, name, fuel, a + b, data) ==
      match DataFrom(trace, name, fuel, a, data)
      case Ok(d) => DataFrom(trace, name, fuel, b, d)
      case Err(e) => Err(e)
    decreases |a|
  {
    if a == [] {
      assert a + b == b;
    } else {
      assert (a + b)[0] == a[0] && (a + b)[1..] == a[1..] + b;
      if SetsData(name, a[0]) {
        var d := DataOf(trace, a[0], fuel);
        if d.Ok? {
          DataFromAppend(trace, name, fuel, a[1..], b, Some(d.value));
        }
      } else {
        DataFromAppend(trace, name, fuel, a[1..], b, data);
      }
    }
  }

  /** Records that do not set the `value` entry (brace literals, `.length`
      and any other field) change nothing: in particular `.length` never
      shortens the string. */
  lemma {:induction false} DataKept(trace: seq<Record>, name: string, fuel: nat, recs: seq<Record>, data: Option<Option<string>>)
    requires forall j :: 0 <= j < |recs| ==> !SetsData(name, recs[j])
    ensures DataFrom(trace, name, fuel, recs, data) == Ok(data)
    decreases |recs|
  {
    if recs != [] {
      assert !SetsData(name, recs[0]);
      assert forall j :: 0 <= j < |recs[1..]| ==> recs[1..][j] == recs[j + 1];
      DataKept(trace, name, fuel, recs[1..], data);
    }
  }

  /** The `value` entry comes from the last record that sets it. */
  lemma DataLastWins(trace: seq<Record>, name: string, fuel: nat, before: seq<Record>, rec: Record, after: seq<Record>)
    requires SetsData(name, rec)
    requires forall j :: 0 <= j < |after| ==> !SetsData(name, after[j])
    requires DataFrom(trace, name, fuel, before, None).Ok? && DataOf(trace, rec, fuel).Ok?
    ensures DataFrom(trace, name, fuel, before + [rec] + after, None) == Ok(Some(DataOf(trace, rec, fuel).value))
  {
    DataFromAppend(trace, name, fuel, before + [rec], after, None);
    DataFromAppend(trace, name, fuel, before, [rec], None);
    var d := DataFrom(trace, name, fuel, before, None).value;
    assert DataFrom(trace, name, fuel, [rec], d) == Ok(Some(DataOf(trace, rec, fuel).value)) by {
      assert [rec][0] == rec && [rec][1..] == [];
    }
    DataKept(trace, name, fuel, after, Some(DataOf(trace, rec, fuel).value));
  }

  /** A string object whose `.data` leads to a character-array literal is
      rebuilt as the Java string literal of those characters. */
  lemma StringInputOfCharArray(trace: seq<Record>, valueText: string, fuel: nat, cs: string, gap: string)
    requires '\'' !in cs && AllBlank(gap)
    requires DataFrom(trace, DropFirst(valueText), fuel, RecordsOf(trace, DropFirst(valueText)), None) == Ok(Some(Some(CharArrayLiteral(cs, gap))))
    ensures StringInput(trace, valueText, fuel) == Ok(Lit("\"" + cs + "\""))
  {
    DecodeCharArray(cs, gap);
  }
}
