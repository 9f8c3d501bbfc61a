/**
  The classification of JBMC type descriptors (`full_lhs_type` text) into
  the four shapes of input the reconstruction knows: primitive, string,
  array and class.
 */
module TypeChecker {

  const StructPrefix := "struct"
  const ArrayPrefix := "struct java::array"
  const StringPrefix := "struct java.lang.String"

  /** The descriptor of one of JBMC's array wrapper structs. */
  predicate IsArrayType(typeText: string)
  {
    ArrayPrefix <= typeText
  }

  /** Any other struct descriptor: a class. */
  predicate IsClassType(typeText: string)
  {
    StructPrefix <= typeText && !IsArrayType(typeText)
  }

  /** One of the six primitive keywords, matched exactly. */
  predicate IsPrimitiveType(typeText: string)
  {
    typeText in {"int", "char", "short", "byte", "double", "float"}
  }

  /** The descriptor of `java.lang.String`. */
  predicate IsStringType(typeText: string)
  {
    StringPrefix <= typeText
  }

  /** The shapes `get_input_type` and `get_input_value` dispatch on. */
  datatype Kind = StringKind | PrimitiveKind | ArrayKind | ClassKind | Unsupported

  lemma StructPrefixes(t: string)
    ensures IsArrayType(t) ==> StructPrefix <= t
    ensures IsStringType(t) ==> StructPrefix <= t
    ensures IsStringType(t) ==> !IsArrayType(t)
  {
    if IsArrayType(t) {
      assert t[..|StructPrefix|] == ArrayPrefix[..|StructPrefix|];
    }
    if IsStringType(t) {
      assert t[..|StructPrefix|] == StringPrefix[..|StructPrefix|];
      assert t[11] == StringPrefix[11] == '.';
      assert ArrayPrefix[11] == ':';
    }
  }

  /** The shape of a descriptor, tested in the order `get_input_type` uses:
      string, primitive, array, class. */
  function Classify(t: string): (k: Kind)
    ensures k == StringKind <==> IsStringType(t)
    ensures k == PrimitiveKind <==> IsPrimitiveType(t)
    ensures k == ArrayKind <==> IsArrayType(t)
    ensures k == ClassKind <==> IsClassType(t) && !IsStringType(t)
    ensures k == Unsupported <==> !(StructPrefix <= t) && !IsPrimitiveType(t)
  {
    StructPrefixes(t);
    PrimitiveIsNotStructured(t);
    if IsStringType(t) then StringKind
    else if IsPrimitiveType(t) then PrimitiveKind
    else if IsArrayType(t) then ArrayKind
    else if IsClassType(t) then ClassKind
    else Unsupported
  }

  /** An array descriptor is never a class descriptor, and together the two
      cover exactly the descriptors that start with `struct`. */
  lemma ArrayAndClassPartitionStructs(t: string)
    ensures !(IsArrayType(t) && IsClassType(t))
    ensures IsArrayType(t) || IsClassType(t) <==> StructPrefix <= t
  {
    StructPrefixes(t);
  }

  /** Every string descriptor is also a class descriptor (and no array
      descriptor): a caller that tested for classes first would never see a
      string. */
  lemma StringIsClass(t: string)
    requires IsStringType(t)
    ensures IsClassType(t) && !IsArrayType(t)
  {
    StructPrefixes(t);
  }

  /** No primitive keyword is a structured descriptor of any kind. */
  lemma PrimitiveIsNotStructured(t: string)
    ensures IsPrimitiveType(t) ==> !(StructPrefix <= t)
    ensures IsPrimitiveType(t) ==> !IsArrayType(t) && !IsClassType(t) && !IsStringType(t)
  {
    StructPrefixes(t);
    if t == "double" {
      assert t[0] != StructPrefix[0];
    } else if IsPrimitiveType(t) {
      assert |t| < |StructPrefix|;
    }
  }

  /** The primitive test is an exact match: no longer text that begins with a
      primitive keyword is primitive. */
  lemma PrimitiveIsExact(t: string, more: string)
    requires IsPrimitiveType(t) && more != []
    ensures !IsPrimitiveType(t + more)
  {
    var u := t + more;
    assert u[0] == t[0] && |u| > |t|;
  }

  /** `get_input_value` tests primitive before string, `get_input_type` string
      before primitive; since no descriptor is both, both orders pick the same
      shape. */
  lemma DispatchOrdersAgree(t: string)
    ensures (IsPrimitiveType(t) && !IsStringType(t)) == (Classify(t) == PrimitiveKind)
    ensures (!IsPrimitiveType(t) && IsStringType(t)) == (Classify(t) == StringKind)
  {
    PrimitiveIsNotStructured(t);
  }
}
