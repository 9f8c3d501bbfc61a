/**
  The data the reconstruction works on and produces: the assignment
  records of a JBMC trace, the `result` elements that carry them, the
  values rebuilt from them, and the errors that stop the rebuilding.
 */
module Trace {

  /** One `assignment` element: its `base_name` attribute and the text of its
      `full_lhs`, `full_lhs_value` and `full_lhs_type` children. */
  datatype Record = Record(baseName: string, lhs: string, value: string, typeText: string)

  /** One `result` element: its `status`, and for a failing one the
      assignments of its `goto_trace`, in document order, and the `reason` of
      its `failure`. */
  datatype ResultElement = ResultElement(status: string, steps: seq<Record>, reason: string)

  /** A rebuilt value, shaped like the Python value the source builds: text
      (a literal, a quoted string, the text `null`), a list, or a dict. */
  datatype Value = Lit(text: string) | Arr(elems: seq<Value>) | Obj(fields: map<string, Value>)

  /** The exception that stops `get_inputs` (nothing in the source catches
      one), or the exhaustion of the bound placed on pointer chasing. */
  datatype Error =
    | NotImplemented(typeText: string)  // an unsupported type descriptor
    | KeyError(key: string)             // a missing entry of the source's scratch dict
    | IndexError                        // a list index or `split` piece out of range
    | ValueError(text: string)          // `int()` of text that is not a number
    | TypeError                         // slicing None, or item assignment into a str
    | AttributeError                    // `setdefault` called on a str
    | CsvError                          // `csv.reader` given a list where it wants text
    | OutOfFuel                         // the bound on pointer chasing ran out

  datatype Result<T> = Ok(value: T) | Err(error: Error)
  {
    predicate IsFailure() { Err? }

    function PropagateFailure<U>(): Result<U>
      requires Err?
    {
      Err(error)
    }

    function Extract(): T
      requires Ok?
    {
      value
    }
  }

  /** `[a for a in trace.findall('assignment') if a.get('base_name') == name]`. */
  function RecordsOf(trace: seq<Record>, name: string): (r: seq<Record>)
    ensures |r| <= |trace|
    ensures forall x :: x in r <==> x in trace && x.baseName == name
    decreases |trace|
  {
    if trace == [] then []
    else (if trace[0].baseName == name then [trace[0]] else []) + RecordsOf(trace[1..], name)
  }

  /** The filter keeps trace order: the records of `a + b` are those of
      `a` followed by those of `b`. */
  lemma {:induction false} RecordsOfAppend(a: seq<Record>, b: seq<Record>, name: string)
    ensures RecordsOf(a + b, name) == RecordsOf(a, name) + RecordsOf(b, name)
    decreases |a|
  {
    if a == [] {
      assert a + b == b;
    } else {
      assert (a + b)[0] == a[0] && (a + b)[1..] == a[1..] + b;
      RecordsOfAppend(a[1..], b, name);
    }
  }

  /** A record of `name` at some place in the trace sits, among the records
      of `name`, after those that come before it in the trace and before
      those that come after it: the last record of `name` in the trace is
      the last one `RecordsOf` yields. */
  lemma RecordsOfAround(before: seq<Record>, rec: Record, after: seq<Record>, name: string)
    requires rec.baseName == name
    ensures RecordsOf(before + [rec] + after, name) == RecordsOf(before, name) + [rec] + RecordsOf(after, name)
  {
    RecordsOfAppend(before + [rec], after, name);
    RecordsOfAppend(before, [rec], name);
    assert RecordsOf([rec], name) == [rec] by {
      assert [rec][0] == rec && [rec][1..] == [];
    }
  }

  /** The record assigns the heap name itself a brace literal or a
      reference to another heap object (the records `get_array_value` and
      `get_string_value` act on). */
  predicate WritesBase(name: string, rec: Record)
  {
    rec.lhs == name && ("{" <= rec.value || "&" <= rec.value || "dynamic_object" <= rec.value)
  }
}
