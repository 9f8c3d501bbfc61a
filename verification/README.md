# jbmc-counterexample: reconstruction of counterexample inputs

JBMC, the bounded model checker for Java bytecode, reports each violated property as a
`result` element with status `FAILURE`. The element holds a `goto_trace` of `assignment`
records. Each record has a `base_name` attribute and `full_lhs`, `full_lhs_value` and
`full_lhs_type` children.

`src/helpers/input_parser.py` turns such a trace back into the concrete arguments of the
method under test: every assignment whose base name starts with `arg` gets a Java type name
and a value. The value is one of:

- a primitive literal;
- a quoted string, decoded from a character-array literal;
- an array, read from a brace literal, patched by per-index records, with references
  resolved and the result cut to `.length`;
- an object, whose dotted field paths are folded into nested dicts by `nested_set`, with a
  `__class` tag.

References (`&name`, `((void *)name)`, `dynamic_object…`) are followed recursively. The
type descriptors are classified by `src/helpers/input_type_checker.py`.

The model follows the shape of the source:

- Each function that fills a dict or list in a loop (`get_inputs`, `get_string_value`,
  `get_string_input_value`, `get_array_value`, `get_array_input_value`,
  `get_dynamic_obj_value`, `nested_set`) is a Dafny `method` with loops.
  - Each is proved equal to a specification function.
  - That function is a fold over the remaining records, defined through a one-step function.
  - The lemmas about the folds state what the source promises: last write wins, untouched
    slots and keys keep their values, lengths are preserved, and when an operation succeeds.
- `get_array_value` patches and resolves its element list in place, in an `array<Value>`.
- The straight-line string functions and the type tests are functions.

Every Python exception is an `Err` value of `Trace.Error`, and nothing catches one: any
error raised while reconstructing any argument ends the whole call (see "Behaviour worth
noting" below). Chasing references recursively carries a `fuel` bound. When it runs
out, the result is `Err(OutOfFuel)`.

Python's library behaviour that the source relies on is written out in the model:

- `str.split` is non-overlapping and left to right (`Text.Split`).
- `strip` and `strip('"')` are `Text.Strip` and `Text.StripBy`.
- Slicing with negative bounds follows Python (`Text.Inner`, `Text.SlicePrefix`).
- `int()` accepts surrounding blanks and a sign (`Text.ParseInt`).
- `csv.reader` is modelled on one line, as CPython's field state machine, with the options
  the source passes (`Csv.Row`).
- Negative list indices wrap around (`ArrayInputs.Wrap`).

## Behaviour worth noting

- Errors are not caught per argument. `get_inputs` has no `try`, so an unsupported type
  descriptor or a malformed trace ends the whole call (`Inputs.UnsupportedArgumentAborts`).
- `get_input_type` tests string before primitive, and `get_input_value` tests primitive
  before string. The two orders agree because no descriptor is both
  (`TypeChecker.DispatchOrdersAgree`).
- A string's `.length` record is stored and never read, so strings are not cut
  (`StringInputs.DataKept`).
- Arrays:
  - `get_array_value` resolves every `&` element of the whole list, and only then does
    `get_array_input_value` cut the list to `.length` (`ArrayInputs.ArrayInputOfReference`).
  - A reference stored at the payload name itself yields a list, which `csv.reader`
    rejects (`Err(CsvError)`); it is not followed to a literal.
- An object reference `&name` is passed on as `name` without removing a pointer cast
  (`InputValues.ClassInputOfObject`).

## Model

| member | source | states |
|---|---|---|
| TypeChecker.Classify | src/helpers/input_type_checker.py:11-48 | the shape is the one the tests `IsStringType`, `IsPrimitiveType`, `IsArrayType` and `IsClassType` pick, and each shape holds exactly when its test holds: string iff the text starts with `struct java.lang.String`, primitive iff it is one of the six keywords, array iff it starts with `struct java::array`, class iff the class test holds and it is no string; unsupported iff it neither starts with `struct` nor is primitive |
| TypeChecker.StructPrefixes | src/helpers/input_type_checker.py:11-48 | array and string descriptors start with `struct`, and no string descriptor is an array descriptor |
| TypeChecker.ArrayAndClassPartitionStructs | src/helpers/input_type_checker.py:11-23 | no descriptor is both array and class, and array-or-class holds exactly for texts starting with `struct` |
| TypeChecker.StringIsClass | src/helpers/input_type_checker.py:23-48 | every string descriptor passes the class test and fails the array test |
| TypeChecker.PrimitiveIsNotStructured | src/helpers/input_type_checker.py:11-48 | a primitive keyword does not start with `struct` and is neither array, class nor string |
| TypeChecker.PrimitiveIsExact | src/helpers/input_type_checker.py:35-36 | the primitive test is membership, not a prefix test: a keyword followed by more text is not primitive |
| TypeChecker.DispatchOrdersAgree | src/helpers/input_parser.py:115-119 | testing primitive before string (get_input_value) and string before primitive (get_input_type) pick the same shape |
| InputTypes.CutAtBracket | src/helpers/input_parser.py:173 | the part before the first `[` has no `[`, is a prefix of the name, and is the whole name when it has no `[` |
| InputTypes.RemovePointerCast | src/helpers/input_parser.py:170-174 | the result never contains `[`; it is a prefix of the name after one leading `((void *)`, or of the name itself when there is none; a name with neither marker comes back unchanged |
| InputTypes.RemovePointerCastOfCast | src/helpers/input_parser.py:170-174 | `((void *)d` and `d` are reduced to the same name |
| InputTypes.RemovePointerCastOfIndexed | src/helpers/input_parser.py:170-174 | `d[index…` is reduced to `d` |
| InputTypes.ClassInputType | src/helpers/input_parser.py:90-92 | succeeds exactly when the descriptor has a space, with a result free of spaces; otherwise IndexError |
| InputTypes.ClassInputTypeIsSecondWord | src/helpers/input_parser.py:90-92 | the class name is the second space-separated word |
| InputTypes.ArrayInputType | src/helpers/input_parser.py:68-78 | every result ends in `[]`; it fails, with IndexError, exactly for a `struct` descriptor without a space |
| InputTypes.ElementTypeOfToken | src/helpers/input_parser.py:71-73 | the element type between `java::array[` and `]` is extracted intact |
| InputTypes.ArrayInputTypeOfElement | src/helpers/input_parser.py:68-78 | `struct java::array[T] …` yields `T[]` |
| InputTypes.ArrayInputTypeOfPrimitive | src/helpers/input_parser.py:76-78 | a primitive keyword `t` yields `t[]` |
| InputTypes.InputType | src/helpers/input_parser.py:44-56 | strings are `String` and primitives keep their keyword. An array descriptor gives exactly `ArrayInputType` of it, ending in `[]`. A class descriptor gives exactly `ClassInputType` of it, which succeeds iff the descriptor has a space. NotImplementedError is raised exactly for unsupported descriptors |
| NestedMaps.DictsOnPath | src/helpers/input_parser.py:348-350 | the `setdefault` walk yields one dict per key but the last, each the entry (or new empty dict) under its key in the one before, or fails with the exception `nested_set` raises |
| NestedMaps.NestedSet | src/helpers/input_parser.py:339-353 | the loops that walk down with `setdefault` and store the value compute `SetAtPath`, including its IndexError, TypeError and AttributeError cases |
| NestedMaps.SetAtPathStores | src/helpers/input_parser.py:349-353 | after a successful store the value is found at the path |
| NestedMaps.SetAtPathFrame | src/helpers/input_parser.py:349-353 | only the first key of the path is added or changed at the top level; every other key keeps its value |
| NestedMaps.SetAtPathKeepsOthers | src/helpers/input_parser.py:349-353 | whatever a path that parts ways with the stored path leads to is unchanged, at any depth |
| NestedMaps.SetAtPathSucceeds | src/helpers/input_parser.py:349-353 | the store succeeds exactly when the path is non-empty and meets no text value before its last key |
| NestedMaps.SetAtPathOnFreshKey | src/helpers/input_parser.py:349-351 | a path whose first key is missing creates a chain of new single-key dicts |
| DynamicObjects.DynamicObjValue | src/helpers/input_parser.py:312-336 | the loop over the object's records computes `ObjectValue`, the fold of the per-record step |
| DynamicObjects.ApplyRecord | src/helpers/input_parser.py:321-334 | one turn of that loop computes the step `Apply`: class tag, skipped monitor count, or a field stored with `nested_set` |
| DynamicObjects.ClassTagOfQualifiedName | src/helpers/input_parser.py:322 | the quoted `"package::Class"` becomes `Class` |
| DynamicObjects.ObjectFromAppend | src/helpers/input_parser.py:314-334 | folding the records `a + b` is folding `a`, then `b` |
| DynamicObjects.SparedPath | src/helpers/input_parser.py:314-334 | records that write neither the path nor anything on it leave what the path leads to unchanged |
| DynamicObjects.FieldLastWins | src/helpers/input_parser.py:328-334 | a field holds the value of its last assignment (resolved through `&`) when no later record touches its path |
| DynamicObjects.ClassTagLastWins | src/helpers/input_parser.py:321-323 | `__class` holds the tag of the last `@class_identifier` record |
| DynamicObjects.ObjectKeys | src/helpers/input_parser.py:321-334 | the top-level keys are exactly `__class` for a class-id record and the first path segment of every other record except the monitor count |
| DynamicObjects.ObjectValueFuel | src/helpers/input_parser.py:328-329 | a successful reconstruction does not change with more fuel |
| DynamicObjects.ObjectFromFuel | src/helpers/input_parser.py:314-334 | the same for the fold over the records |
| DynamicObjects.FieldValueFuel | src/helpers/input_parser.py:328-331 | the same for one field value |
| ArrayInputs.ArrayValue | src/helpers/input_parser.py:241-286 | the three loops (base literal, patches, resolution) compute `ArrayPayload`: TypeError without a base, CsvError when the base is a chased list, otherwise the patched and resolved elements with the type of the last record |
| ArrayInputs.BaseRecord | src/helpers/input_parser.py:254-261 | one turn of the first loop: a brace literal becomes the base, a reference is chased |
| ArrayInputs.PatchInPlace | src/helpers/input_parser.py:265-280 | the in-place patch loop computes `PatchFrom` on the initial elements, and the array holds the result |
| ArrayInputs.ResolveInPlace | src/helpers/input_parser.py:282-284 | the in-place resolution loop computes `ResolveFrom`, and the array holds the result |
| ArrayInputs.Wrap | src/helpers/input_parser.py:277-279 | an index in `[-n, n)` designates a slot in `[0, n)` |
| ArrayInputs.Patch | src/helpers/input_parser.py:274-279 | a successful patch keeps the list length |
| ArrayInputs.PatchFrom | src/helpers/input_parser.py:265-280 | a successful run of patches keeps the list length |
| ArrayInputs.PatchFromAppend | src/helpers/input_parser.py:265-280 | patching with `a + b` is patching with `a`, then `b` |
| ArrayInputs.PatchWrites | src/helpers/input_parser.py:274-279 | a patch whose index is a number within the list overwrites that slot with the record's text and changes no other slot |
| ArrayInputs.PatchUntouched | src/helpers/input_parser.py:274-279 | a slot that no record patches keeps its element |
| ArrayInputs.PatchLastWins | src/helpers/input_parser.py:265-280 | a slot holds the value of the last record that patches it |
| ArrayInputs.PatchSucceeds | src/helpers/input_parser.py:275-277 | patching succeeds exactly when every `name[` record has a numeric index within the list bounds |
| ArrayInputs.IndexTextOf | src/helpers/input_parser.py:275 | the text of `name[<i>L…` up to the `L` parses back to `i` |
| ArrayInputs.BaseFromAppend | src/helpers/input_parser.py:245-261 | the first loop over `a + b` is the loop over `a`, then `b` |
| ArrayInputs.BaseKept | src/helpers/input_parser.py:254-261 | records that assign the name neither a literal nor a reference leave the base unchanged |
| ArrayInputs.BaseLastLiteral | src/helpers/input_parser.py:254-256 | the base is the last brace literal assigned to the name |
| ArrayInputs.ResolvePointwise | src/helpers/input_parser.py:282-284 | resolution keeps the length, leaves earlier slots alone, replaces each later element by its resolution, and succeeds iff every later element resolves |
| ArrayInputs.Truncate | src/helpers/input_parser.py:237 | text and lists are cut to `[0:n]` |
| ArrayInputs.ArrayInput | src/helpers/input_parser.py:212-239 | a result is a pair of the element type, ending in `[]`, and the value |
| ArrayInputs.ArrayInputValue | src/helpers/input_parser.py:212-239 | the loop over `val` and the checks after it compute `ArrayInput`, with KeyError for a missing `value`, `length` or `type` and ValueError for a non-numeric length |
| ArrayInputs.FieldsFromAppend | src/helpers/input_parser.py:214-234 | the loop over `a + b` is the loop over `a`, then `b` |
| ArrayInputs.LengthKept | src/helpers/input_parser.py:221-225 | records other than non-brace `.length` records leave the length entry unchanged |
| ArrayInputs.LengthLastWins | src/helpers/input_parser.py:224-225 | the length is the last non-brace `.length` record, even when `.data` comes after it |
| ArrayInputs.ArrayInputTruncates | src/helpers/input_parser.py:236-239 | with a list, a numeric length `n` and a type, the value is the first `n` elements, or all of them if fewer |
| ArrayInputs.ValueKept | src/helpers/input_parser.py:220-234 | records other than non-brace `.data` assignments leave the `value` and `type` entries as they were |
| ArrayInputs.ValueLastWins | src/helpers/input_parser.py:227-234 | value and type come from the last non-brace `.data` record: the list and type of the array a `&` or `dynamic_object` reference leads to, or else the record's text |
| ArrayInputs.ArrayInputBadType | src/helpers/input_parser.py:236-239 | with a list and a numeric length, a type text without an element type fails the argument with the error `get_array_input_type` raises |
| ArrayInputs.ArrayInputOfReference | src/helpers/input_parser.py:212-239 | for a last `.data` reference and a last numeric `.length` `n`, the argument is the element type read from the referenced array's type text with the first `min(n, len)` elements of its list (`ArrayPayload`: base literal, patches, resolution), or that type's error |
| StringInputs.StringValue | src/helpers/input_parser.py:176-198 | the loop computes `StringPayload`: the last brace literal assigned to the name, or what the last reference leads to |
| StringInputs.StringRecord | src/helpers/input_parser.py:189-196 | one turn of that loop |
| StringInputs.StringBaseFromAppend | src/helpers/input_parser.py:180-196 | the loop over `a + b` is the loop over `a`, then `b` |
| StringInputs.StringBaseKept | src/helpers/input_parser.py:189-196 | records that assign the name neither a literal nor a reference change nothing |
| StringInputs.StringLastLiteral | src/helpers/input_parser.py:189-191 | the text is the last brace literal assigned to the name |
| StringInputs.DataValue | src/helpers/input_parser.py:156-163 | a `.data` record contributes its text, or through `&` or `dynamic_object` what get_string_value finds |
| StringInputs.StringInput | src/helpers/input_parser.py:141-168 | a result is a text starting and ending with `"` |
| StringInputs.StringInputValue | src/helpers/input_parser.py:141-168 | the loop and the decoding compute `StringInput`: KeyError without `.data`, TypeError when it leads nowhere |
| StringInputs.DataFromAppend | src/helpers/input_parser.py:143-163 | the loop over `a + b` is the loop over `a`, then `b` |
| StringInputs.DataKept | src/helpers/input_parser.py:150-163 | brace literals, `.length` and every other record except a non-brace `.data` change nothing, so the string is never cut to its length |
| StringInputs.DataLastWins | src/helpers/input_parser.py:156-163 | the value comes from the last non-brace `.data` record |
| StringInputs.DecodeCharArray | src/helpers/input_parser.py:165-166 | a character-array literal `{ 'a', 'b' }` or `{'a','b'}` decodes to its characters, commas and spaces included, when none is `'` |
| StringInputs.StringInputOfCharArray | src/helpers/input_parser.py:165-168 | a string whose `.data` leads to a character-array literal becomes `"` + its characters + `"` |
| InputValues.InputValueOf | src/helpers/input_parser.py:105-127 | `null` comes back as `null` before any dispatch; primitives keep their text; strings, arrays and objects are rebuilt; unsupported descriptors raise NotImplementedError |
| InputValues.InputValue | src/helpers/input_parser.py:105-127 | the dispatching method computes `InputValueOf` |
| InputValues.ClassInputOfObject | src/helpers/input_parser.py:299 | an object argument `&name` is the dict rebuilt for the heap object `name` |
| Inputs.Failed | src/helpers/input_parser.py:18 | the results kept are exactly those with status `FAILURE`; their order and multiplicity follow from `Inputs.FailedAppend` |
| Inputs.FailedAppend | src/helpers/input_parser.py:18 | the filter keeps document order: the failed results of `a + b` are those of `a` followed by those of `b` |
| Inputs.CounterexamplesFrom | src/helpers/input_parser.py:19-31 | one counterexample per failing result, in order, each built from that result and carrying its reason; it fails exactly when one of them fails |
| Inputs.GetInputs | src/helpers/input_parser.py:18-32 | the nested loops compute `Counterexamples` |
| Inputs.ArgumentInputs | src/helpers/input_parser.py:22-28 | the inner loop computes `InputsFrom` over the whole trace |
| Inputs.InputsFromAppend | src/helpers/input_parser.py:22-28 | the inner loop over `a + b` is the loop over `a`, then `b` |
| Inputs.InputsKeys | src/helpers/input_parser.py:22-28 | the entries are exactly the base names of assignments whose base name starts with `arg` |
| Inputs.InputsKeepOthers | src/helpers/input_parser.py:22-28 | assignments to other arguments leave an entry as it was |
| Inputs.InputsLastWins | src/helpers/input_parser.py:26-28 | a repeated argument gets the type and value of its last assignment |
| Inputs.UnsupportedArgumentAborts | src/helpers/input_parser.py:22-25 | one argument whose type is rejected makes the whole call fail |
| Inputs.CounterexamplesShape | src/helpers/input_parser.py:18-31 | as many counterexamples as failing results, in document order, each with that result's reason |
| Csv.RowOfQuotedChars | src/helpers/input_parser.py:165 | a `'`-quoted, comma-separated line of single characters reads back as those characters |
| Csv.RowWithoutQuotes | src/helpers/input_parser.py:264 | a line without quote characters reads as its comma-separated pieces |
| Text.ParseIntOfDecimal | src/helpers/input_parser.py:237 | `int()` reads the decimal text of any integer back as that integer |
| Text.SplitOnChar | src/helpers/input_parser.py:173 | no piece of a split on a character contains it, and there are at least two pieces exactly when it occurs |
| Text.SlicePrefix | src/helpers/input_parser.py:237 | `xs[0:n]` is a prefix of length `min(n, len)` for `n >= 0`, and drops `-n` elements from the end for `n < 0` |
| Trace.RecordsOf | src/helpers/input_parser.py:312 | the records kept are exactly those of the trace with the given base name, and there are no more of them than records; their order and multiplicity follow from `Trace.RecordsOfAppend` |
| Trace.RecordsOfAppend | src/helpers/input_parser.py:312 | the filter keeps trace order: the records of `a + b` with a base name are those of `a` followed by those of `b` |
| Trace.RecordsOfAround | src/helpers/input_parser.py:312 | a record with the base name sits in the filtered list between the kept records before it and those after it |
| Scenarios.ArrayLiteralScenario | src/helpers/input_parser.py:264 | the literal `{1,2,3}` holds the elements `1`, `2`, `3` |
| Scenarios.IndexScenario | src/helpers/input_parser.py:275 | the index text of `d[1L]` reads as 1 |
| Scenarios.PatchScenario | src/helpers/input_parser.py:274-279 | `d[1L] = 9` turns `1, 2, 3` into `1, 9, 3`, and length 2 keeps `1, 9` |
| Scenarios.CharArrayScenario | src/helpers/input_parser.py:165-166 | `{'a','b','c'}` decodes to `abc` |
| Scenarios.ArrayRunPayload | src/helpers/input_parser.py:241-286 | on the trace `d = {1,2,3}; d[1L] = 9; arg0.data = &d; arg0.length = 2`, the array `d` is `1, 9, 3` with type `int` |
| Scenarios.ArrayRunScenario | src/helpers/input_parser.py:212-239 | on the same trace, the argument `&arg0` is the element type `int[]` with the list `1, 9` |

## Left out

- XML parsing (`ET.fromstring`, `findall`, `find`, the loops over child tags) is not part
  of this model.
  - A trace is a sequence of records, and a result is a status, its assignment records and
    its failure reason.
  - A record lacking a child tag is not modelled. The source would reuse the previous
    record's text or raise UnboundLocalError.
  - A `FAILURE` result without `goto_trace` or `failure` is not modelled either.
- `src/jbmc-counterexample.py` and `src/helpers/jbmc_runner.py` (prompts, files, the
  spinner, subprocess calls) are not part of this model.
- Key order: `inputs_list` and the object dicts are maps, so their insertion order is not
  modelled.
- Aliasing:
  - `nested_set` and `get_dynamic_obj_value` mutate dicts in place. The model rebuilds them
    as values.
  - No dict is shared between two places in the source, so nothing observable is lost.
- `csv.reader`:
  - Line breaks inside a field, the field size limit and strict-mode errors are not
    modelled.
  - The only `csv.Error` modelled is the list handed to it by a chased array base.
- `int()`: underscores between digits and non-ASCII digits are not accepted by
  `Text.ParseInt`. Surrounding whitespace and a sign are.
- Recursion:
  - Reference chasing is bounded by `fuel`. A reference cycle ends in `Err(OutOfFuel)`,
    where Python raises RecursionError.
  - That more fuel never changes a successful result is proved for objects only, not for
    array and string payloads.
- `get_string_value` also returns the type text of the last record, which its only caller
  discards. It is not modelled.
- The string `.length` entry is recorded by the source but never read, so it is not kept.
- The text `array_value` rebuilt after each patch (input_parser.py line 280) is never read
  again, so it is not modelled.
- `double` and `float` values are carried as text. No floating-point value is formed.
- A patch index written without the `L` suffix (`name[1]`) yields the text `1]`, so
  `int()` raises ValueError, as the source does. JBMC writes `L` suffixes.
- InputValues.InputValueOf: for a class argument its contract only states success and the
  dict shape. The value itself is given by `InputValues.ClassInputOfObject`.
