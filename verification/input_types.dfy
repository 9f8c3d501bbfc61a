/**
  The Java type names written into a reconstructed counterexample
  (`get_input_type` and its helpers for arrays and classes), and the
  unwrapping of pointer-cast heap names.
 */
module InputTypes {
  import opened Text
  import opened Trace
  import opened TypeChecker

  const PointerCast := "((void *)"
  const ArrayToken := "java::array["

  /** `name.split("[")[0]`: the name before its first `[`. */
  function CutAtBracket(name: string): (r: string)
    ensures '[' !in r && r <= name
    ensures '[' !in name ==> r == name
  {
    SplitOnChar(name, '[');
    SplitHeadIsPrefix(name, "[");
    if '[' in name then Split(name, "[")[0]
    else
      SplitWithoutSeparator(name, "[");
      Split(name, "[")[0]
  }

  /** remove_dynamic_object_pointer_cast: drops one leading `((void *)` and
      cuts the name at its first `[`. */
  function RemovePointerCast(name: string): (r: string)
    ensures '[' !in r
    ensures PointerCast <= name ==> r <= name[|PointerCast|..]
    ensures !(PointerCast <= name) ==> r <= name
    ensures !(PointerCast <= name) && '[' !in name ==> r == name
  {
    if PointerCast <= name then
      SplitAfterLeadingSeparator(name, PointerCast);
      SplitHeadIsPrefix(name[|PointerCast|..], PointerCast);
      CutAtBracket(Split(name, PointerCast)[1])
    else
      CutAtBracket(name)
  }

  /** A cast heap name loses the cast and nothing else: `((void *)d` names
      the same object as `d`. */
  lemma RemovePointerCastOfCast(d: string)
    requires '(' !in d
    ensures RemovePointerCast(PointerCast + d) == RemovePointerCast(d)
  {
    var s := PointerCast + d;
    assert s[|PointerCast|..] == d;
    SplitWithoutSeparator(d, PointerCast);
    assert Split(s, PointerCast) == [""] + Split(d, PointerCast);
    assert !(PointerCast <= d) by {
      if d != [] { assert d[0] in d; }
    }
  }

  /** An indexed heap name is cut back to the name before the index. */
  lemma RemovePointerCastOfIndexed(d: string, index: string)
    requires '(' !in d && '[' !in d
    ensures RemovePointerCast(d + "[" + index) == d
  {
    var s := d + "[" + index;
    assert !(PointerCast <= s) by {
      if d != [] { assert s[0] == d[0] && d[0] in d; } else { assert s[0] == '['; }
    }
    SplitHead(d, "[", "[" + index);
    assert d + ("[" + index) == s;
  }

  /** get_class_input_type: the second space-separated word of a `struct`
      descriptor; a descriptor without a space has no second word. */
  function ClassInputType(typeText: string): (r: Result<string>)
    requires StructPrefix <= typeText
    ensures r.Ok? <==> ' ' in typeText
    ensures r.Ok? ==> ' ' !in r.value
    ensures r.Err? ==> r.error == IndexError
  {
    var words := Split(typeText, " ");
    SplitOnChar(typeText, ' ');
    if |words| < 2 then Err(IndexError) else Ok(words[1])
  }

  /** The class name is the word after the first space, up to the next. */
  lemma ClassInputTypeIsSecondWord(head: string, name: string, rest: string)
    requires StructPrefix <= head && ' ' !in head && ' ' !in name
    requires rest == [] || rest[0] == ' '
    ensures ClassInputType(head + " " + name + rest) == Ok(name)
  {
    var t := head + " " + name + rest;
    assert t == head + " " + (name + rest);
    assert t[..|StructPrefix|] == head[..|StructPrefix|];
    SplitAtFirst(head, " ", name + rest);
    assert rest == [] || " " <= rest by {
      if rest != [] { assert rest[..1] == [rest[0]]; }
    }
    SplitHead(name, " ", rest);
  }

  /** get_array_input_type: the element type of a JBMC array descriptor
      followed by `[]`; for another `struct` descriptor, its class name
      followed by `[]`; for any other text, its first word followed by `[]`. */
  function ArrayInputType(typeText: string): (r: Result<string>)
    ensures r.Ok? ==> |r.value| >= 2 && r.value[|r.value| - 2..] == "[]"
    ensures r.Err? <==> StructPrefix <= typeText && ' ' !in typeText
    ensures r.Err? ==> r.error == IndexError
  {
    if StructPrefix <= typeText then
      var words := Split(typeText, " ");
      SplitOnChar(typeText, ' ');
      if |words| < 2 then Err(IndexError)
      else if ArrayToken <= words[1] then
        SplitAfterLeadingSeparator(words[1], ArrayToken);
        var elementType := Split(Split(words[1], ArrayToken)[1], "]")[0];
        Ok(elementType + "[]")
      else
        Ok(ClassInputType(typeText).value + "[]")
    else
      Ok(Split(typeText, " ")[0] + "[]")
  }

  /** The element type inside `java::array[T]`. */
  lemma ElementTypeOfToken(elementType: string)
    requires '[' !in elementType && ']' !in elementType
    ensures var token := ArrayToken + elementType + "]";
      |Split(token, ArrayToken)| >= 2 && Split(Split(token, ArrayToken)[1], "]")[0] == elementType
  {
    var token := ArrayToken + elementType + "]";
    assert token[|ArrayToken|..] == elementType + "]";
    assert Split(token, ArrayToken) == [""] + Split(elementType + "]", ArrayToken);
    assert '[' !in elementType + "]";
    SplitWithoutSeparatorChar(elementType + "]", ArrayToken, '[');
    SplitHead(elementType, "]", "]");
  }

  /** `struct java::array[T]` names an array of `T`. */
  lemma ArrayInputTypeOfElement(elementType: string, rest: string)
    requires ' ' !in elementType && '[' !in elementType && ']' !in elementType
    requires rest == [] || rest[0] == ' '
    ensures ArrayInputType("struct java::array[" + elementType + "]" + rest) == Ok(elementType + "[]")
  {
    var token := ArrayToken + elementType + "]";
    var t := "struct java::array[" + elementType + "]" + rest;
    assert t == StructPrefix + " " + token + rest by {
      assert "struct java::array[" == StructPrefix + " " + ArrayToken;
    }
    assert ClassInputType(t) == Ok(token) by {
      assert ' ' !in token;
      ClassInputTypeIsSecondWord(StructPrefix, token, rest);
    }
    ElementTypeOfToken(elementType);
    ArrayInputTypeOfArrayToken(t, token);
  }

  /** A descriptor whose second word starts with `java::array[` names an
      array of what that word holds up to its first `]`. */
  lemma ArrayInputTypeOfArrayToken(t: string, token: string)
    requires StructPrefix <= t && ClassInputType(t) == Ok(token) && ArrayToken <= token
    requires |Split(token, ArrayToken)| >= 2
    ensures ArrayInputType(t) == Ok(Split(Split(token, ArrayToken)[1], "]")[0] + "[]")
  {
  }

  /** A primitive keyword names an array of that primitive. */
  lemma ArrayInputTypeOfPrimitive(t: string)
    requires IsPrimitiveType(t)
    ensures ArrayInputType(t) == Ok(t + "[]")
  {
    PrimitiveIsNotStructured(t);
    SplitWithoutSeparator(t, " ");
  }

  /** get_input_type: the Java type name of an argument, testing string,
      primitive, array and class descriptors in that order. */
  function InputType(typeText: string): (r: Result<string>)
    ensures Classify(typeText) == StringKind ==> r == Ok("String")
    ensures Classify(typeText) == PrimitiveKind ==> r == Ok(typeText)
    ensures Classify(typeText) == ArrayKind ==> r == ArrayInputType(typeText)
    ensures Classify(typeText) == ArrayKind ==> r.Ok? && |r.value| >= 2 && r.value[|r.value| - 2..] == "[]"
    ensures Classify(typeText) == ClassKind ==> StructPrefix <= typeText && r == ClassInputType(typeText)
    ensures Classify(typeText) == ClassKind ==> (r.Ok? <==> ' ' in typeText)
    ensures Classify(typeText) == Unsupported <==> r == Err(NotImplemented(typeText))
  {
    if IsStringType(typeText) then Ok("String")
    else if IsPrimitiveType(typeText) then Ok(typeText)
    else if IsArrayType(typeText) then
      StructPrefixes(typeText);
      assert typeText[6] == ArrayPrefix[6] == ' ';
      ArrayInputType(typeText)
    else if IsClassType(typeText) then ClassInputType(typeText)
    else Err(NotImplemented(typeText))
  }
}
