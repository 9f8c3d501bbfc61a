/**
  Worked examples: small concrete inputs worked out in the model, each
  proved to give the value the reconstruction is meant to produce.
 */
module Scenarios {
  import opened Text
  import opened Trace
  import opened Csv
  import opened TypeChecker
  import opened InputTypes
  import opened DynamicObjects
  import opened ArrayInputs
  import opened StringInputs

  /** The brace literal `{1,2,3}` holds the elements `1`, `2` and `3`. */
  lemma ArrayLiteralScenario()
    ensures Row("1,2,3", '"', false) == ["1", "2", "3"]
  {
    RowWithoutQuotes("1,2,3", '"', false);
    SplitWithoutSeparator("3", ",");
    assert "2" + "," + "3" == "2,3" && "1" + "," + "2,3" == "1,2,3";
    SplitAtFirst("2", ",", "3");
    SplitAtFirst("1", ",", "2,3");
  }

  /** The index text of `d[1L]` reads as 1. */
  lemma IndexScenario()
    ensures ParseInt(IndexText("d", "d[1L]")) == Some(1)
  {
    assert IntToDecimal(1) == "1";
    IndexTextOf("d", 1, "]");
    assert "d" + "[" + "1" + "L" + "]" == "d[1L]";
  }

  /** The patch record `d[1L] = 9` writes slot 1 of a three-element list,
      and a length of 2 then keeps the first two elements. */
  lemma PatchScenario()
    ensures PatchFrom("d", [Record("d", "d[1L]", "9", "int")], Lits(["1", "2", "3"])) == Ok([Lit("1"), Lit("9"), Lit("3")])
    ensures SlicePrefix([Lit("1"), Lit("9"), Lit("3")], 2) == [Lit("1"), Lit("9")]
  {
    var rec := Record("d", "d[1L]", "9", "int");
    var xs := Lits(["1", "2", "3"]);
    assert Patch("d", rec, xs) == Ok(xs[1 := Lit("9")]) by {
      IndexScenario();
      assert "d" + "[" <= rec.lhs;
      PatchWrites("d", rec, xs, 1);
    }
    assert PatchFrom("d", [rec], xs) == Patch("d", rec, xs) by {
      assert [rec][0] == rec && [rec][1..] == [];
    }
    assert xs[1 := Lit("9")] == [Lit("1"), Lit("9"), Lit("3")] by {
      assert xs == [Lit("1"), Lit("2"), Lit("3")];
    }
  }

  /** The character array `{'a','b','c'}` decodes to `abc`. */
  lemma CharArrayScenario()
    ensures Decode("{'a','b','c'}") == "abc"
  {
    var q := QuotedChars("abc", '\'', "");
    assert "abc"[1..] == "bc" && "bc"[1..] == "c";
    assert QuotedChars("c", '\'', "") == "'c'";
    assert QuotedChars("bc", '\'', "") == "'b','c'";
    assert q == "'a','b','c'";
    assert CharArrayLiteral("abc", "") == "{'a','b','c'}";
    assert AllBlank("");
    assert '\'' !in "abc";
    DecodeCharArray("abc", "");
  }

  /** A whole trace for an `int[]` argument `arg0`: the heap array `d` gets
      the literal `{1,2,3}` and then `d[1L] = 9`; the argument's `.data`
      points at `d` and its `.length` is 2. */
  const LiteralRec := Record("d", "d", "{1,2,3}", "int")
  const PatchRec := Record("d", "d[1L]", "9", "int")
  const DataRec := Record("arg0", "arg0.data", "&d", "struct java::array[int] *")
  const LengthRec := Record("arg0", "arg0.length", "2", "int")
  const ArrayRun := [LiteralRec, PatchRec, DataRec, LengthRec]

  /** The patched list of `d`. */
  const Patched := [Lit("1"), Lit("9"), Lit("3")]

  /** The filter on a two-record trace. */
  lemma RecordsOfPair(a: Record, b: Record, name: string)
    ensures RecordsOf([a, b], name) == (if a.baseName == name then [a] else []) + (if b.baseName == name then [b] else [])
  {
    assert [a, b][1..] == [b] && [b][1..] == [];
  }

  lemma ArrayRunSplit()
    ensures ArrayRun == [LiteralRec, PatchRec] + [DataRec, LengthRec]
  {
  }

  /** The records of `d` are the literal and the patch, in that order. */
  lemma ArrayRunRecordsOfArray()
    ensures RecordsOf(ArrayRun, "d") == [LiteralRec, PatchRec]
  {
    ArrayRunSplit();
    RecordsOfAppend([LiteralRec, PatchRec], [DataRec, LengthRec], "d");
    RecordsOfPair(LiteralRec, PatchRec, "d");
    RecordsOfPair(DataRec, LengthRec, "d");
  }

  /** The records of `arg0` are `.data` and `.length`, in that order. */
  lemma ArrayRunRecordsOfArgument()
    ensures RecordsOf(ArrayRun, "arg0") == [DataRec, LengthRec]
  {
    ArrayRunSplit();
    RecordsOfAppend([LiteralRec, PatchRec], [DataRec, LengthRec], "arg0");
    RecordsOfPair(LiteralRec, PatchRec, "arg0");
    RecordsOfPair(DataRec, LengthRec, "arg0");
  }

  lemma LiteralRecStores(fuel: nat)
    ensures BaseStep(ArrayRun, "d", fuel, LiteralRec, Unset) == Ok(Literal("{1,2,3}"))
  {
    assert "{" <= LiteralRec.value;
  }

  lemma PatchRecKeepsBase(fuel: nat)
    ensures BaseStep(ArrayRun, "d", fuel, PatchRec, Literal("{1,2,3}")) == Ok(Literal("{1,2,3}"))
  {
    assert PatchRec.lhs != "d";
  }

  /** The base of `d` is its brace literal. */
  lemma ArrayRunBase(fuel: nat)
    ensures BaseFrom(ArrayRun, "d", fuel, [LiteralRec, PatchRec], Unset) == Ok(Literal("{1,2,3}"))
  {
    assert [LiteralRec, PatchRec][1..] == [PatchRec] && [PatchRec][1..] == [];
    LiteralRecStores(fuel);
    PatchRecKeepsBase(fuel);
    assert BaseFrom(ArrayRun, "d", fuel, [PatchRec], Literal("{1,2,3}")) == Ok(Literal("{1,2,3}"));
  }

  lemma LiteralRecPatchesNothing(xs: seq<Value>)
    ensures Patch("d", LiteralRec, xs) == Ok(xs)
  {
    assert !("d" + "[" <= LiteralRec.lhs);
  }

  /** Only the `d[1L]` record patches the list. */
  lemma ArrayRunPatch()
    ensures PatchFrom("d", [LiteralRec, PatchRec], Lits(["1", "2", "3"])) == Ok(Patched)
  {
    LiteralRecPatchesNothing(Lits(["1", "2", "3"]));
    assert [LiteralRec, PatchRec][1..] == [PatchRec];
    PatchScenario();
  }

  /** No element is a reference, so resolution keeps the list. */
  lemma ArrayRunResolve(fuel: nat)
    ensures ResolveFrom(ArrayRun, fuel, Patched, 0) == Ok(Patched)
  {
    forall k | 0 <= k < |Patched| ensures ResolveElement(ArrayRun, fuel, Patched[k]) == Ok(Patched[k]) {
      assert Patched[k].text[0] != "&"[0] by {
        assert k == 0 || k == 1 || k == 2;
      }
    }
    ResolvePointwise(ArrayRun, fuel, Patched, 0);
    var ys := ResolveFrom(ArrayRun, fuel, Patched, 0).value;
    assert ys == Patched;
  }

  /** `get_array_value("d", trace)` gives the patched list and the type of
      the last record of `d`. */
  lemma ArrayRunPayload(fuel: nat)
    ensures ArrayPayload(ArrayRun, "d", fuel) == Ok(Payload(Patched, "int"))
  {
    var recs := RecordsOf(ArrayRun, "d");
    ArrayRunRecordsOfArray();
    assert BaseFrom(ArrayRun, "d", fuel, recs, Unset) == Ok(Literal("{1,2,3}")) by {
      ArrayRunBase(fuel);
    }
    assert PatchFrom("d", recs, Lits(Row(Inner("{1,2,3}"), '"', false))) == Ok(Patched) by {
      assert Inner("{1,2,3}") == "1,2,3";
      ArrayLiteralScenario();
      ArrayRunPatch();
    }
    ArrayRunResolve(fuel);
    assert Last(recs).typeText == "int";
  }

  lemma DataRecTarget()
    ensures ChaseTarget(DataRec.value) == "d"
  {
    assert DataRec.value[1..] == "d";
    assert !(PointerCast <= "d") && '[' !in "d";
  }

  /** On any trace, the `.data` record stores the list and type of `d`. */
  lemma DataRecChases(trace: seq<Record>, fuel: nat, p: Payload)
    requires ArrayPayload(trace, "d", fuel) == Ok(p)
    ensures FieldsStep(trace, "arg0", fuel, DataRec, NoFields) ==
      Ok(ArrayFields(Some(Arr(p.elements)), None, Some(p.typeText)))
  {
    DataRecTarget();
    assert !("{" <= DataRec.value) && "&" <= DataRec.value by {
      assert DataRec.value[0] != "{"[0];
    }
    assert DataRec.lhs != "arg0" + ".length" && DataRec.lhs == "arg0" + ".data";
  }

  lemma LengthRecStores(fuel: nat, v: ArrayFields)
    ensures FieldsStep(ArrayRun, "arg0", fuel, LengthRec, v) == Ok(v.(length := Some("2")))
  {
    assert LengthRec.value[0] != "{"[0];
    assert LengthRec.lhs == "arg0" + ".length" && LengthRec.lhs != "arg0" + ".data";
  }

  /** The `.data` reference brings in that list and type, and `.length`
      its text. */
  lemma ArrayRunFields(fuel: nat)
    ensures FieldsFrom(ArrayRun, "arg0", fuel, [DataRec, LengthRec], NoFields) ==
      Ok(ArrayFields(Some(Arr(Patched)), Some("2"), Some("int")))
  {
    ArrayRunPayload(fuel);
    DataRecChases(ArrayRun, fuel, Payload(Patched, "int"));
    LengthRecStores(fuel, ArrayFields(Some(Arr(Patched)), None, Some("int")));
    assert [DataRec, LengthRec][1..] == [LengthRec] && [LengthRec][1..] == [];
    assert FieldsFrom(ArrayRun, "arg0", fuel, [LengthRec], ArrayFields(Some(Arr(Patched)), None, Some("int"))) ==
      Ok(ArrayFields(Some(Arr(Patched)), Some("2"), Some("int")));
  }

  /** The record loop of `get_array_input_value` for `arg0`. */
  lemma ArrayRunInputFields(fuel: nat)
    ensures FieldsFrom(ArrayRun, "arg0", fuel, RecordsOf(ArrayRun, "arg0"), NoFields) ==
      Ok(ArrayFields(Some(Arr(Patched)), Some(IntToDecimal(2)), Some("int")))
  {
    ArrayRunRecordsOfArgument();
    ArrayRunFields(fuel);
    assert IntToDecimal(2) == "2";
  }

  lemma IntArrayType()
    ensures ArrayInputType("int") == Ok("int[]")
  {
    ArrayInputTypeOfPrimitive("int");
    assert "int" + "[]" == "int[]";
  }

  /** The whole argument: element type `int[]` and the list `1, 9`. */
  lemma ArrayRunScenario(fuel: nat)
    ensures ArrayInput(ArrayRun, "&arg0", fuel) == Ok(Arr([Lit("int[]"), Arr([Lit("1"), Lit("9")])]))
  {
    assert DropFirst("&arg0") == "arg0";
    ArrayRunInputFields(fuel);
    IntArrayType();
    ArrayInputTruncates(ArrayRun, "&arg0", fuel, Patched, 2, "int");
    assert Patched[..2] == [Lit("1"), Lit("9")];
  }
}
