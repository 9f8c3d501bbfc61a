/**
  Array arguments: `get_array_value`, which reads the element list of a
  heap array from its brace literal and patches it with the per-index
  assignments, and `get_array_input_value`, which finds that list through
  the array object's `.data` field and cuts it to `.length`.
 */
module ArrayInputs {
  import opened Text
  import opened Trace
  import opened Csv
  import opened InputTypes
  import opened DynamicObjects

  /** What `array_value` holds after the first loop of `get_array_value`:
      nothing yet (None), a brace literal, or the list a chase returned. */
  datatype Slot = Unset | Literal(text: string) | Chased

  /** What `get_array_value` returns: the element list and the type text. */
  datatype Payload = Payload(elements: seq<Value>, typeText: string)

  /** The list `get_array_value(name, trace)` returns, or the exception it
      raises. `fuel` bounds the chases through `&` and `dynamic_object`. */
  function ArrayPayload(trace: seq<Record>, name: string, fuel: nat): Result<Payload>
    decreases fuel, 2, 0
  {
    var recs := RecordsOf(trace, name);
    var slot :- BaseFrom(trace, name, fuel, recs, Unset);
    match slot
    case Unset => Err(TypeError)
    case Chased => Err(CsvError)
    case Literal(text) =>
      var patched :- PatchFrom(name, recs, Lits(Row(Inner(text), '"', false)));
      var resolved :- ResolveFrom(trace, fuel, patched, 0);
      Ok(Payload(resolved, Last(recs).typeText))
  }

  /** The first loop of `get_array_value` over the records still to come. */
  function BaseFrom(trace: seq<Record>, name: string, fuel: nat, recs: seq<Record>, slot: Slot): Result<Slot>
    decreases fuel, 1, |recs|
  {
    if recs == [] then Ok(slot)
    else
      var next :- BaseStep(trace, name, fuel, recs[0], slot);
      BaseFrom(trace, name, fuel, recs[1..], next)
  }

  /** One turn of it: an assignment to the name itself stores a brace
      literal, or chases a reference to another heap array. */
  function BaseStep(trace: seq<Record>, name: string, fuel: nat, rec: Record, slot: Slot): Result<Slot>
    decreases fuel, 0, 0
  {
    if rec.lhs != name then Ok(slot)
    else if "{" <= rec.value then Ok(Literal(rec.value))
    else if "&" <= rec.value || "dynamic_object" <= rec.value then
      if fuel == 0 then Err(OutOfFuel)
      else
        var chased :- ArrayPayload(trace, ChaseTarget(rec.value), fuel - 1);
        Ok(Chased)
    else Ok(slot)
  }

  /** A reference value names the array it leads to: `&` is dropped along
      with any pointer cast, a `dynamic_object` name is used as it is. */
  function ChaseTarget(value: string): string
  {
    if "&" <= value then RemovePointerCast(value[1..]) else value
  }

  /** The csv tokens as a list of text values. */
  function Lits(tokens: seq<string>): (r: seq<Value>)
    ensures |r| == |tokens| && forall k :: 0 <= k < |r| ==> r[k] == Lit(tokens[k])
  {
    seq(|tokens|, k requires 0 <= k < |tokens| => Lit(tokens[k]))
  }

  /** `lhs.split(name + "[")[1].split("L")[0]`: the index text of `name[iL]`. */
  function IndexText(name: string, lhs: string): string
    requires name + "[" <= lhs
  {
    SplitAfterLeadingSeparator(lhs, name + "[");
    Split(Split(lhs, name + "[")[1], "L")[0]
  }

  /** Python's reading of a list index: a negative one counts from the end. */
  function Wrap(index: int, n: nat): (k: int)
    requires -(n as int) <= index < n
    ensures 0 <= k < n
  {
    if index < 0 then index + n else index
  }

  /** The second loop of `get_array_value`: every `name[i]` record, in
      order, overwrites slot `i` of the list. */
  function PatchFrom(name: string, recs: seq<Record>, xs: seq<Value>): (r: Result<seq<Value>>)
    ensures r.Ok? ==> |r.value| == |xs|
    decreases |recs|
  {
    if recs == [] then Ok(xs)
    else
      var next :- Patch(name, recs[0], xs);
      PatchFrom(name, recs[1..], next)
  }

  function Patch(name: string, rec: Record, xs: seq<Value>): (r: Result<seq<Value>>)
    ensures r.Ok? ==> |r.value| == |xs|
  {
    if !(name + "[" <= rec.lhs) then Ok(xs)
    else
      var text := IndexText(name, rec.lhs);
      match ParseInt(text)
      case None => Err(ValueError(text))
      case Some(index) =>
        if -|xs| <= index < |xs| then Ok(xs[Wrap(index, |xs|) := Lit(rec.value)])
        else Err(IndexError)
  }

  /** The third loop of `get_array_value`, from position `i` on: an element
      that is an `&` reference is replaced by the object it names. */
  function ResolveFrom(trace: seq<Record>, fuel: nat, xs: seq<Value>, i: nat): Result<seq<Value>>
    requires i <= |xs|
    decreases |xs| - i
  {
    if i == |xs| then Ok(xs)
    else
      var v :- ResolveElement(trace, fuel, xs[i]);
      ResolveFrom(trace, fuel, xs[i := v], i + 1)
  }

  function ResolveElement(trace: seq<Record>, fuel: nat, x: Value): Result<Value>
  {
    match x
    case Lit(text) => FieldValue(trace, text, fuel)
    case _ => Ok(x)
  }

  /** get_array_value: the brace literal, patched, with references resolved. */
  method ArrayValue(trace: seq<Record>, name: string, fuel: nat) returns (r: Result<Payload>)
    ensures r == ArrayPayload(trace, name, fuel)
    decreases fuel, 1
  {
    var assignments := RecordsOf(trace, name);
    var arrayValue := Unset;
    var i := 0;
    while i < |assignments|
      invariant 0 <= i <= |assignments|
      invariant BaseFrom(trace, name, fuel, assignments, Unset) == BaseFrom(trace, name, fuel, assignments[i..], arrayValue)
    {
      assert assignments[i..][0] == assignments[i] && assignments[i..][1..] == assignments[i + 1..];
      var step := BaseRecord(trace, name, fuel, assignments[i], arrayValue);
      if step.Err? {
        return Err(step.error);
      }
      arrayValue := step.value;
      i := i + 1;
    }
    if arrayValue.Unset? {
      return Err(TypeError);
    } else if arrayValue.Chased? {
      return Err(CsvError);
    }
    var tokens := Row(Inner(arrayValue.text), '"', false);
    var elements := new Value[|tokens|](k requires 0 <= k < |tokens| => Lit(tokens[k]));
    assert elements[..] == Lits(tokens);
    var patched := PatchInPlace(name, assignments, elements);
    if patched.Err? {
      return Err(patched.error);
    }
    var resolved := ResolveInPlace(trace, fuel, elements);
    if resolved.Err? {
      return Err(resolved.error);
    }
    assert assignments != [];
    return Ok(Payload(elements[..], Last(assignments).typeText));
  }

  /** The second loop of get_array_value, patching the list in place. */
  method PatchInPlace(name: string, assignments: seq<Record>, elements: array<Value>) returns (r: Result<seq<Value>>)
    modifies elements
    ensures r == PatchFrom(name, assignments, old(elements[..]))
    ensures r.Ok? ==> elements[..] == r.value
  {
    var i := 0;
    while i < |assignments|
      invariant 0 <= i <= |assignments|
      invariant PatchFrom(name, assignments, old(elements[..])) == PatchFrom(name, assignments[i..], elements[..])
    {
      var assignment := assignments[i];
      assert assignments[i..][0] == assignment && assignments[i..][1..] == assignments[i + 1..];
      if name + "[" <= assignment.lhs {
        var indexText := IndexText(name, assignment.lhs);
        var index := ParseInt(indexText);
        if index.None? {
          return Err(ValueError(indexText));
        }
        var k := index.value;
        if !(-elements.Length <= k < elements.Length) {
          return Err(IndexError);
        }
        if k < 0 {
          k := k + elements.Length;
        }
        elements[k] := Lit(assignment.value);
      }
      i := i + 1;
    }
    return Ok(elements[..]);
  }

  /** The third loop of get_array_value, resolving references in place. */
  method ResolveInPlace(trace: seq<Record>, fuel: nat, elements: array<Value>) returns (r: Result<seq<Value>>)
    modifies elements
    ensures r == ResolveFrom(trace, fuel, old(elements[..]), 0)
    ensures r.Ok? ==> elements[..] == r.value
  {
    var j := 0;
    while j < elements.Length
      invariant 0 <= j <= elements.Length
      invariant ResolveFrom(trace, fuel, old(elements[..]), 0) == ResolveFrom(trace, fuel, elements[..], j)
    {
      var element := elements[j];
      if element.Lit? && "&" <= element.text {
        if fuel == 0 {
          return Err(OutOfFuel);
        }
        var inner := DynamicObjValue(trace, element.text[1..], fuel - 1);
        if inner.Err? {
          assert ResolveElement(trace, fuel, element) == Err(inner.error);
          return Err(inner.error);
        }
        assert ResolveElement(trace, fuel, element) == Ok(Obj(inner.value));
        elements[j] := Obj(inner.value);
      } else {
        assert ResolveElement(trace, fuel, element) == Ok(element);
        assert elements[..][j := element] == elements[..];
      }
      j := j + 1;
    }
    return Ok(elements[..]);
  }

  /** One turn of the first loop of get_array_value. */
  method BaseRecord(trace: seq<Record>, name: string, fuel: nat, assignment: Record, arrayValue: Slot) returns (r: Result<Slot>)
    ensures r == BaseStep(trace, name, fuel, assignment, arrayValue)
    decreases fuel, 0
  {
    if assignment.lhs != name {
      return Ok(arrayValue);
    }
    if "{" <= assignment.value {
      return Ok(Literal(assignment.value));
    }
    if "&" <= assignment.value || "dynamic_object" <= assignment.value {
      if fuel == 0 {
        return Err(OutOfFuel);
      }
      var chased := ArrayValue(trace, ChaseTarget(assignment.value), fuel - 1);
      BaseStepChases(trace, name, fuel, assignment, arrayValue);
      if chased.Err? {
        return Err(chased.error);
      }
      return Ok(Chased);
    }
    return Ok(arrayValue);
  }

  /** A reference to another array is chased, and only its failure shows. */
  lemma BaseStepChases(trace: seq<Record>, name: string, fuel: nat, rec: Record, slot: Slot)
    requires rec.lhs == name && !("{" <= rec.value) && ("&" <= rec.value || "dynamic_object" <= rec.value) && fuel > 0
    ensures var chased := ArrayPayload(trace, ChaseTarget(rec.value), fuel - 1);
      BaseStep(trace, name, fuel, rec, slot) == if chased.Err? then Err(chased.error) else Ok(Chased)
  {
  }

  /** The dict `val` of `get_array_input_value`: its `value`, `length` and
      `type` entries, each possibly missing. */
  datatype ArrayFields = ArrayFields(value: Option<Value>, length: Option<string>, typeText: Option<string>)

  const NoFields := ArrayFields(None, None, None)

  /** The value `get_array_input_value` returns for an array argument whose
      value text is `valueText`: the element type name and the element list
      (or the text of `.data`) cut to `int(.length)`. */
  function ArrayInput(trace: seq<Record>, valueText: string, fuel: nat): (r: Result<Value>)
    ensures r.Ok? ==> r.value.Arr? && |r.value.elems| == 2 && r.value.elems[0].Lit?
    ensures r.Ok? ==> var t := r.value.elems[0].text; |t| >= 2 && t[|t| - 2..] == "[]"
  {
    var name := DropFirst(valueText);
    var val :- FieldsFrom(trace, name, fuel, RecordsOf(trace, name), NoFields);
    if val.value.None? then Err(KeyError("value"))
    else if val.length.None? then Err(KeyError("length"))
    else match ParseInt(val.length.value)
      case None => Err(ValueError(val.length.value))
      case Some(n) =>
        var truncated :- Truncate(val.value.value, n);
        if val.typeText.None? then Err(KeyError("type"))
        else
          var elementType :- ArrayInputType(val.typeText.value);
          Ok(Arr([Lit(elementType), truncated]))
  }

  /** `v[0:n]` on a text or a list; a dict cannot be sliced. */
  function Truncate(v: Value, n: int): (r: Result<Value>)
    ensures r.Ok? <==> !v.Obj?
    ensures v.Lit? ==> r == Ok(Lit(SlicePrefix(v.text, n)))
    ensures v.Arr? ==> r == Ok(Arr(SlicePrefix(v.elems, n)))
  {
    match v
    case Lit(text) => Ok(Lit(SlicePrefix(text, n)))
    case Arr(elems) => Ok(Arr(SlicePrefix(elems, n)))
    case Obj(_) => Err(TypeError)
  }

  /** The loop of `get_array_input_value` over the records still to come. */
  function FieldsFrom(trace: seq<Record>, name: string, fuel: nat, recs: seq<Record>, val: ArrayFields): Result<ArrayFields>
    decreases |recs|
  {
    if recs == [] then Ok(val)
    else
      var next :- FieldsStep(trace, name, fuel, recs[0], val);
      FieldsFrom(trace, name, fuel, recs[1..], next)
  }

  /** One turn of it: brace literals are skipped; `.length` records the
      length text; `.data` records the text itself or, through a heap
      reference, the list and type `get_array_value` returns. */
  function FieldsStep(trace: seq<Record>, name: string, fuel: nat, rec: Record, val: ArrayFields): Result<ArrayFields>
  {
    if "{" <= rec.value then Ok(val)
    else
      var val' := if rec.lhs == name + ".length" then val.(length := Some(rec.value)) else val;
      if rec.lhs != name + ".data" then Ok(val')
      else if "&" <= rec.value || "dynamic_object" <= rec.value then
        var payload :- ArrayPayload(trace, ChaseTarget(rec.value), fuel);
        Ok(val'.(value := Some(Arr(payload.elements)), typeText := Some(payload.typeText)))
      else Ok(val'.(value := Some(Lit(rec.value))))
  }

  /** get_array_input_value. */
  method ArrayInputValue(trace: seq<Record>, valueText: string, fuel: nat) returns (r: Result<Value>)
    ensures r == ArrayInput(trace, valueText, fuel)
  {
    var name := DropFirst(valueText);
    var assignments := RecordsOf(trace, name);
    var val := NoFields;
    var i := 0;
    while i < |assignments|
      invariant 0 <= i <= |assignments|
      invariant FieldsFrom(trace, name, fuel, assignments, NoFields) == FieldsFrom(trace, name, fuel, assignments[i..], val)
    {
      var assignment := assignments[i];
      assert assignments[i..][0] == assignment && assignments[i..][1..] == assignments[i + 1..];
      if !("{" <= assignment.value) {
        if assignment.lhs == name + ".length" {
          val := val.(length := Some(assignment.value));
        }
        if assignment.lhs == name + ".data" {
          if "&" <= assignment.value || "dynamic_object" <= assignment.value {
            var payload := ArrayValue(trace, ChaseTarget(assignment.value), fuel);
            if payload.Err? {
              return Err(payload.error);
            }
            val := val.(value := Some(Arr(payload.value.elements)), typeText := Some(payload.value.typeText));
          } else {
            val := val.(value := Some(Lit(assignment.value)));
          }
        }
      }
      i := i + 1;
    }
    if val.value.None? {
      return Err(KeyError("value"));
    }
    if val.length.None? {
      return Err(KeyError("length"));
    }
    var length := ParseInt(val.length.value);
    if length.None? {
      return Err(ValueError(val.length.value));
    }
    var truncated := Truncate(val.value.value, length.value);
    if truncated.Err? {
      return Err(truncated.error);
    }
    if val.typeText.None? {
      return Err(KeyError("type"));
    }
    var elementType := ArrayInputType(val.typeText.value);
    if elementType.Err? {
      return Err(elementType.error);
    }
    return Ok(Arr([Lit(elementType.value), truncated.value]));
  }

  /** The index text of `name[<i>L]` is read back as `i` by `int()`. */
  lemma IndexTextOf(name: string, index: int, rest: string)
    requires '[' !in rest
    ensures var lhs := name + "[" + IntToDecimal(index) + "L" + rest;
      name + "[" <= lhs && ParseInt(IndexText(name, lhs)) == Some(index)
  {
    var digits := IntToDecimal(index);
    var sep := name + "[";
    var lhs := sep + digits + "L" + rest;
    assert name + "[" + digits + "L" + rest == lhs;
    assert lhs[|sep|..] == digits + "L" + rest;
    assert Split(lhs, sep) == [""] + Split(digits + "L" + rest, sep);
    assert '[' !in digits + "L" + rest by {
      DecimalCharacters(index);
    }
    assert sep[|sep| - 1] == '[';
    SplitWithoutSeparatorChar(digits + "L" + rest, sep, '[');
    assert 'L' !in digits by {
      DecimalCharacters(index);
    }
    assert digits + "L" + rest == digits + ("L" + rest);
    SplitHead(digits, "L", "L" + rest);
    ParseIntOfDecimal(index);
  }

  /** Decimal text is made of digits and at most a leading minus sign. */
  lemma DecimalCharacters(n: int)
    ensures forall k :: 0 <= k < |IntToDecimal(n)| ==> IsDigit(IntToDecimal(n)[k]) || IntToDecimal(n)[k] == '-'
  {
  }

  /** Patching `a + b` is patching with `a`, then with `b`. */
  lemma {:induction false} PatchFromAppend(name: string, a: seq<Record>, b: seq<Record>, xs: seq<Value>)
    ensures PatchFrom(name, a + b, xs) ==
      match PatchFrom(name, a, xs)
      case Ok(ys) => PatchFrom(name, b, ys)
      case Err(e) => Err(e)
    decreases |a|
  {
    if a == [] {
      assert a + b == b;
    } else {
      assert (a + b)[0] == a[0] && (a + b)[1..] == a[1..] + b;
      var step := Patch(name, a[0], xs);
      if step.Ok? {
        PatchFromAppend(name, a[1..], b, step.value);
      }
    }
  }

  /** The record patches slot `k` of a list of length `n`. */
  predicate Hits(name: string, rec: Record, n: nat, k: nat)
  {
    && name + "[" <= rec.lhs
    && ParseInt(IndexText(name, rec.lhs)).Some?
    && var index := ParseInt(IndexText(name, rec.lhs)).value;
      -(n as int) <= index < n && Wrap(index, n) == k
  }

  /** A slot no record patches keeps its element. */
  lemma {:induction false} PatchUntouched(name: string, recs: seq<Record>, xs: seq<Value>, k: nat)
    requires k < |xs|
    requires forall j :: 0 <= j < |recs| ==> !Hits(name, recs[j], |xs|, k)
    requires PatchFrom(name, recs, xs).Ok?
    ensures PatchFrom(name, recs, xs).value[k] == xs[k]
    decreases |recs|
  {
    if recs != [] {
      var next := Patch(name, recs[0], xs).value;
      assert !Hits(name, recs[0], |xs|, k);
      assert next[k] == xs[k];
      assert forall j :: 0 <= j < |recs[1..]| ==> recs[1..][j] == recs[j + 1];
      PatchUntouched(name, recs[1..], next, k);
    }
  }

  /** Later patches win: a slot holds the value of the last record that
      patches it. */
  lemma PatchLastWins(name: string, before: seq<Record>, rec: Record, after: seq<Record>, xs: seq<Value>, k: nat)
    requires k < |xs| && Hits(name, rec, |xs|, k)
    requires forall j :: 0 <= j < |after| ==> !Hits(name, after[j], |xs|, k)
    requires PatchFrom(name, before + [rec] + after, xs).Ok?
    ensures PatchFrom(name, before + [rec] + after, xs).value[k] == Lit(rec.value)
  {
    PatchFromAppend(name, before + [rec], after, xs);
    PatchFromAppend(name, before, [rec], xs);
    var ys := PatchFrom(name, before, xs).value;
    PatchHit(name, rec, ys, k);
    PatchUntouched(name, after, PatchFrom(name, [rec], ys).value, k);
  }

  /** A record that hits a slot stores its value there. */
  lemma PatchHit(name: string, rec: Record, xs: seq<Value>, k: nat)
    requires k < |xs| && Hits(name, rec, |xs|, k)
    ensures PatchFrom(name, [rec], xs).Ok? && |PatchFrom(name, [rec], xs).value| == |xs|
    ensures PatchFrom(name, [rec], xs).value[k] == Lit(rec.value)
  {
    assert [rec][0] == rec && [rec][1..] == [];
  }

  /** A patch whose index is a number within the list overwrites that slot
      with the record's text and changes nothing else. */
  lemma PatchWrites(name: string, rec: Record, xs: seq<Value>, index: nat)
    requires name + "[" <= rec.lhs && ParseInt(IndexText(name, rec.lhs)) == Some(index) && index < |xs|
    ensures Patch(name, rec, xs) == Ok(xs[index := Lit(rec.value)])
  {
    assert Wrap(index, |xs|) == index;
  }

  /** The record is a well-formed patch for a list of length `n`. */
  predicate PatchInRange(name: string, rec: Record, n: nat)
  {
    name + "[" <= rec.lhs ==>
      && ParseInt(IndexText(name, rec.lhs)).Some?
      && -(n as int) <= ParseInt(IndexText(name, rec.lhs)).value < n
  }

  /** Patching succeeds exactly when every patch index is a number within
      the list's bounds. */
  lemma {:induction false} PatchSucceeds(name: string, recs: seq<Record>, xs: seq<Value>)
    ensures PatchFrom(name, recs, xs).Ok? <==> forall j :: 0 <= j < |recs| ==> PatchInRange(name, recs[j], |xs|)
    decreases |recs|
  {
    if recs != [] {
      assert forall j :: 0 <= j < |recs[1..]| ==> recs[1..][j] == recs[j + 1];
      var step := Patch(name, recs[0], xs);
      if step.Ok? {
        PatchSucceeds(name, recs[1..], step.value);
        assert (forall j :: 0 <= j < |recs| ==> PatchInRange(name, recs[j], |xs|)) <==>
          (forall j :: 0 <= j < |recs[1..]| ==> PatchInRange(name, recs[1..][j], |xs|)) by {
          assert PatchInRange(name, recs[0], |xs|);
          forall j | 0 <= j < |recs[1..]| ensures recs[1..][j] == recs[j + 1] { }
        }
      } else {
        assert !PatchInRange(name, recs[0], |xs|);
      }
    }
  }

  /** Following the first loop of get_array_value over `a + b`. */
  lemma {:induction false} BaseFromAppend(trace: seq<Record>, name: string, fuel: nat, a: seq<Record>, b: seq<Record>, slot: Slot)
    ensures BaseFrom(trace, name, fuel, a + b, slot) ==
      match BaseFrom(trace, name, fuel, a, slot)
      case Ok(s) => BaseFrom(trace, name, fuel, b, s)
      case Err(e) => Err(e)
    decreases |a|
  {
    if a == [] {
      assert a + b == b;
    } else {
      assert (a + b)[0] == a[0] && (a + b)[1..] == a[1..] + b;
      var step := BaseStep(trace, name, fuel, a[0], slot);
      if step.Ok? {
        BaseFromAppend(trace, name, fuel, a[1..], b, step.value);
      }
    }
  }

  /** Records that do not assign the name leave the payload as it was. */
  lemma {:induction false} BaseKept(trace: seq<Record>, name: string, fuel: nat, recs: seq<Record>, slot: Slot)
    requires forall j :: 0 <= j < |recs| ==> !WritesBase(name, recs[j])
    ensures BaseFrom(trace, name, fuel, recs, slot) == Ok(slot)
    decreases |recs|
  {
    if recs != [] {
      assert !WritesBase(name, recs[0]);
      assert forall j :: 0 <= j < |recs[1..]| ==> recs[1..][j] == recs[j + 1];
      BaseKept(trace, name, fuel, recs[1..], slot);
    }
  }

  /** The base list comes from the last brace literal assigned to the name,
      when nothing assigns the name after it. */
  lemma BaseLastLiteral(trace: seq<Record>, name: string, fuel: nat, before: seq<Record>, rec: Record, after: seq<Record>)
    requires rec.lhs == name && "{" <= rec.value
    requires forall j :: 0 <= j < |after| ==> !WritesBase(name, after[j])
    requires BaseFrom(trace, name, fuel, before, Unset).Ok?
    ensures BaseFrom(trace, name, fuel, before + [rec] + after, Unset) == Ok(Literal(rec.value))
  {
    assert before + [rec] + after == before + ([rec] + after);
    BaseFromAppend(trace, name, fuel, before, [rec] + after, Unset);
    var s := BaseFrom(trace, name, fuel, before, Unset).value;
    assert ([rec] + after)[0] == rec && ([rec] + after)[1..] == after;
    assert BaseStep(trace, name, fuel, rec, s) == Ok(Literal(rec.value));
    BaseKept(trace, name, fuel, after, Literal(rec.value));
  }

  /** Resolution works element by element: it keeps the length, leaves the
      elements before `i` alone, and replaces each later element by what it
      resolves to; it succeeds exactly when every later element resolves. */
  lemma {:induction false} ResolvePointwise(trace: seq<Record>, fuel: nat, xs: seq<Value>, i: nat)
    requires i <= |xs|
    ensures ResolveFrom(trace, fuel, xs, i).Ok? <==> forall k :: i <= k < |xs| ==> ResolveElement(trace, fuel, xs[k]).Ok?
    ensures ResolveFrom(trace, fuel, xs, i).Ok? ==>
      var ys := ResolveFrom(trace, fuel, xs, i).value;
      && |ys| == |xs|
      && (forall k :: 0 <= k < i ==> ys[k] == xs[k])
      && (forall k :: i <= k < |xs| ==> ResolveElement(trace, fuel, xs[k]) == Ok(ys[k]))
    decreases |xs| - i
  {
    if i < |xs| {
      var v := ResolveElement(trace, fuel, xs[i]);
      if v.Ok? {
        var xs' := xs[i := v.value];
        ResolvePointwise(trace, fuel, xs', i + 1);
        assert forall k :: i < k < |xs| ==> xs'[k] == xs[k];
        if ResolveFrom(trace, fuel, xs', i + 1).Ok? {
          var ys := ResolveFrom(trace, fuel, xs', i + 1).value;
          assert ys[i] == v.value;
        }
      }
    }
  }

  /** Following the loop of get_array_input_value over `a + b`. */
  lemma {:induction false} FieldsFromAppend(trace: seq<Record>, name: string, fuel: nat, a: seq<Record>, b: seq<Record>, val: ArrayFields)
    ensures FieldsFrom(trace, name, fuel, a + b, val) ==
      match FieldsFrom(trace, name, fuel, a, val)
      case Ok(v) => FieldsFrom(trace, name, fuel, b, v)
      case Err(e) => Err(e)
    decreases |a|
  {
    if a == [] {
      assert a + b == b;
    } else {
      assert (a + b)[0] == a[0] && (a + b)[1..] == a[1..] + b;
      var step := FieldsStep(trace, name, fuel, a[0], val);
      if step.Ok? {
        FieldsFromAppend(trace, name, fuel, a[1..], b, step.value);
      }
    }
  }

  /** The record sets the `length` entry. */
  predicate SetsLength(name: string, rec: Record)
  {
    !("{" <= rec.value) && rec.lhs == name + ".length"
  }

  lemma {:induction false} LengthKept(trace: seq<Record>, name: string, fuel: nat, recs: seq<Record>, val: ArrayFields)
    requires forall j :: 0 <= j < |recs| ==> !SetsLength(name, recs[j])
    requires FieldsFrom(trace, name, fuel, recs, val).Ok?
    ensures FieldsFrom(trace, name, fuel, recs, val).value.length == val.length
    decreases |recs|
  {
    if recs != [] {
      assert !SetsLength(name, recs[0]);
      assert forall j :: 0 <= j < |recs[1..]| ==> recs[1..][j] == recs[j + 1];
      var next := FieldsStep(trace, name, fuel, recs[0], val).value;
      assert (name + ".length" == name + ".data") == false by {
        assert (name + ".length")[|name| + 1] == 'l' && (name + ".data")[|name| + 1] == 'd';
      }
      LengthKept(trace, name, fuel, recs[1..], next);
    }
  }

  /** The length used for truncation is the text of the last `.length`
      record that is not a brace literal, wherever `.data` comes. */
  lemma LengthLastWins(trace: seq<Record>, name: string, fuel: nat, before: seq<Record>, rec: Record, after: seq<Record>)
    requires SetsLength(name, rec)
    requires forall j :: 0 <= j < |after| ==> !SetsLength(name, after[j])
    requires FieldsFrom(trace, name, fuel, before + [rec] + after, NoFields).Ok?
    ensures FieldsFrom(trace, name, fuel, before + [rec] + after, NoFields).value.length == Some(rec.value)
  {
    assert before + [rec] + after == before + ([rec] + after);
    FieldsFromAppend(trace, name, fuel, before, [rec] + after, NoFields);
    var v := FieldsFrom(trace, name, fuel, before, NoFields).value;
    assert ([rec] + after)[0] == rec && ([rec] + after)[1..] == after;
    assert (name + ".length" == name + ".data") == false by {
      assert (name + ".length")[|name| + 1] == 'l' && (name + ".data")[|name| + 1] == 'd';
    }
    var v' := FieldsStep(trace, name, fuel, rec, v).value;
    assert v'.length == Some(rec.value);
    LengthKept(trace, name, fuel, after, v');
  }

  /** The record sets the `value` entry (and, through a reference, `type`). */
  predicate SetsValue(name: string, rec: Record)
  {
    !("{" <= rec.value) && rec.lhs == name + ".data"
  }

  /** The `.data` value is a reference to a heap array. */
  predicate IsReference(value: string)
  {
    "&" <= value || "dynamic_object" <= value
  }

  /** Records other than non-brace `.data` assignments leave `value` and
      `type` alone. */
  lemma {:induction false} ValueKept(trace: seq<Record>, name: string, fuel: nat, recs: seq<Record>, val: ArrayFields)
    requires forall j :: 0 <= j < |recs| ==> !SetsValue(name, recs[j])
    requires FieldsFrom(trace, name, fuel, recs, val).Ok?
    ensures FieldsFrom(trace, name, fuel, recs, val).value.value == val.value
    ensures FieldsFrom(trace, name, fuel, recs, val).value.typeText == val.typeText
    decreases |recs|
  {
    if recs != [] {
      assert !SetsValue(name, recs[0]);
      assert forall j :: 0 <= j < |recs[1..]| ==> recs[1..][j] == recs[j + 1];
      var next := FieldsStep(trace, name, fuel, recs[0], val).value;
      ValueKept(trace, name, fuel, recs[1..], next);
    }
  }

  /** The value of an array argument comes from the last non-brace `.data`
      record: the list and type of the array a reference leads to, or else
      the record's text itself. */
  lemma ValueLastWins(trace: seq<Record>, name: string, fuel: nat, before: seq<Record>, rec: Record, after: seq<Record>)
    requires SetsValue(name, rec)
    requires forall j :: 0 <= j < |after| ==> !SetsValue(name, after[j])
    requires FieldsFrom(trace, name, fuel, before + [rec] + after, NoFields).Ok?
    ensures var v := FieldsFrom(trace, name, fuel, before + [rec] + after, NoFields).value;
      if IsReference(rec.value) then
        && ArrayPayload(trace, ChaseTarget(rec.value), fuel).Ok?
        && v.value == Some(Arr(ArrayPayload(trace, ChaseTarget(rec.value), fuel).value.elements))
        && v.typeText == Some(ArrayPayload(trace, ChaseTarget(rec.value), fuel).value.typeText)
      else v.value == Some(Lit(rec.value))
  {
    FieldsFromAppend(trace, name, fuel, before + [rec], after, NoFields);
    FieldsFromAppend(trace, name, fuel, before, [rec], NoFields);
    var v0 := FieldsFrom(trace, name, fuel, before, NoFields).value;
    assert FieldsFrom(trace, name, fuel, [rec], v0) == FieldsStep(trace, name, fuel, rec, v0) by {
      assert [rec][0] == rec && [rec][1..] == [];
    }
    var v1 := FieldsStep(trace, name, fuel, rec, v0).value;
    ValueKept(trace, name, fuel, after, v1);
  }

  /** Where an array argument comes from: the last `.data` reference gives
      the list (its base literal, patched and resolved, as `ArrayPayload`
      states) and the type text, the last numeric `.length` cuts the list,
      and the element type is read from the type text. */
  lemma ArrayInputOfReference(trace: seq<Record>, valueText: string, fuel: nat,
                              before: seq<Record>, rec: Record, after: seq<Record>,
                              before': seq<Record>, lengthRec: Record, after': seq<Record>, n: nat)
    requires RecordsOf(trace, DropFirst(valueText)) == before + [rec] + after
    requires RecordsOf(trace, DropFirst(valueText)) == before' + [lengthRec] + after'
    requires SetsValue(DropFirst(valueText), rec) && IsReference(rec.value)
    requires forall j :: 0 <= j < |after| ==> !SetsValue(DropFirst(valueText), after[j])
    requires SetsLength(DropFirst(valueText), lengthRec) && lengthRec.value == IntToDecimal(n)
    requires forall j :: 0 <= j < |after'| ==> !SetsLength(DropFirst(valueText), after'[j])
    requires FieldsFrom(trace, DropFirst(valueText), fuel, RecordsOf(trace, DropFirst(valueText)), NoFields).Ok?
    ensures var p := ArrayPayload(trace, ChaseTarget(rec.value), fuel);
      && p.Ok?
      && ArrayInput(trace, valueText, fuel) ==
        match ArrayInputType(p.value.typeText)
        case Ok(t) => Ok(Arr([Lit(t), Arr(p.value.elements[..if n <= |p.value.elements| then n else |p.value.elements|])]))
        case Err(e) => Err(e)
  {
    var name := DropFirst(valueText);
    var p := ArrayPayload(trace, ChaseTarget(rec.value), fuel);
    assert p.Ok? && FieldsFrom(trace, name, fuel, RecordsOf(trace, name), NoFields) ==
      Ok(ArrayFields(Some(Arr(p.value.elements)), Some(IntToDecimal(n)), Some(p.value.typeText))) by {
      ValueLastWins(trace, name, fuel, before, rec, after);
      LengthLastWins(trace, name, fuel, before', lengthRec, after');
    }
    if ArrayInputType(p.value.typeText).Ok? {
      ArrayInputTruncates(trace, valueText, fuel, p.value.elements, n, p.value.typeText);
    } else {
      ArrayInputBadType(trace, valueText, fuel, p.value.elements, n, p.value.typeText);
    }
  }

  /** With a list for `.data` and a numeric `.length`, a type text with no
      element type in it fails the argument with that error. */
  lemma ArrayInputBadType(trace: seq<Record>, valueText: string, fuel: nat, xs: seq<Value>, n: nat, t: string)
    requires FieldsFrom(trace, DropFirst(valueText), fuel, RecordsOf(trace, DropFirst(valueText)), NoFields) ==
      Ok(ArrayFields(Some(Arr(xs)), Some(IntToDecimal(n)), Some(t)))
    requires ArrayInputType(t).Err?
    ensures ArrayInput(trace, valueText, fuel) == Err(ArrayInputType(t).error)
  {
    ParseIntOfDecimal(n);
    assert ParseInt(IntToDecimal(n)) == Some(n);
    assert Truncate(Arr(xs), n) == Ok(Arr(SlicePrefix(xs, n)));
  }

  /** With a list for `.data`, a numeric `.length` and a type, the array
      argument is the element type with the list cut to its first `length`
      elements (all of them when the list is shorter). */
  lemma ArrayInputTruncates(trace: seq<Record>, valueText: string, fuel: nat, xs: seq<Value>, n: nat, t: string)
    requires FieldsFrom(trace, DropFirst(valueText), fuel, RecordsOf(trace, DropFirst(valueText)), NoFields) ==
      Ok(ArrayFields(Some(Arr(xs)), Some(IntToDecimal(n)), Some(t)))
    requires ArrayInputType(t).Ok?
    ensures ArrayInput(trace, valueText, fuel) ==
      Ok(Arr([Lit(ArrayInputType(t).value), Arr(xs[..if n <= |xs| then n else |xs|])]))
  {
    ParseIntOfDecimal(n);
    var k := if n <= |xs| then n else |xs|;
    assert SlicePrefix(xs, n) == xs[..k];
    assert Truncate(Arr(xs), n) == Ok(Arr(xs[..k]));
  }
}
