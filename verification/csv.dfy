/**
  What `csv.reader([line], delimiter=',', quotechar=q, ...)` yields for the
  one line the reconstruction hands it: CPython's field state machine with
  the options the source passes (a `,` delimiter, a quote character, a
  doubled quote standing for one quote inside a quoted field, spaces at the
  start of a field skipped only when `skipinitialspace` is set, and the
  default non-strict handling of text after a closing quote).
 */
module Csv {
  import opened Text

  datatype State = StartField | InField | InQuotedField | QuoteInQuotedField

  /** Reads the rest `s` of the line in `state`, with `field` read so far in
      the current field and `fields` the fields already finished. At the end
      of the line the current field is finished too (an unterminated quote
      included, as the non-strict reader does). */
  function Scan(s: string, quote: char, skipSpace: bool, state: State, field: string, fields: seq<string>): seq<string>
    decreases |s|
  {
    if s == [] then fields + [field]
    else
      var c, rest := s[0], s[1..];
      match state
      case StartField =>
        if c == quote then Scan(rest, quote, skipSpace, InQuotedField, field, fields)
        else if c == ' ' && skipSpace then Scan(rest, quote, skipSpace, StartField, field, fields)
        else if c == ',' then Scan(rest, quote, skipSpace, StartField, "", fields + [field])
        else Scan(rest, quote, skipSpace, InField, field + [c], fields)
      case InField =>
        if c == ',' then Scan(rest, quote, skipSpace, StartField, "", fields + [field])
        else Scan(rest, quote, skipSpace, InField, field + [c], fields)
      case InQuotedField =>
        if c == quote then Scan(rest, quote, skipSpace, QuoteInQuotedField, field, fields)
        else Scan(rest, quote, skipSpace, InQuotedField, field + [c], fields)
      case QuoteInQuotedField =>
        if c == quote then Scan(rest, quote, skipSpace, InQuotedField, field + [c], fields)
        else if c == ',' then Scan(rest, quote, skipSpace, StartField, "", fields + [field])
        else Scan(rest, quote, skipSpace, InField, field + [c], fields)
  }

  /** The one row `csv.reader` yields for `line`; an empty line yields no field at all. */
  function Row(line: string, quote: char, skipSpace: bool): seq<string>
  {
    if line == [] then [] else Scan(line, quote, skipSpace, StartField, "", [])
  }

  predicate IsBlank(c: char)
  {
    c == ' '
  }

  /** A field as it comes out when no quote is involved: its leading spaces
      dropped when they are skipped. */
  function Unquoted(piece: string, skipSpace: bool): string
  {
    if skipSpace then TrimStart(piece, IsBlank) else piece
  }

  function UnquotedAll(pieces: seq<string>, skipSpace: bool): (r: seq<string>)
    ensures |r| == |pieces|
    decreases |pieces|
  {
    if pieces == [] then [] else [Unquoted(pieces[0], skipSpace)] + UnquotedAll(pieces[1..], skipSpace)
  }

  lemma SplitOnCommaStep(s: string)
    requires s != []
    ensures s[0] == ',' ==> Split(s, ",") == [""] + Split(s[1..], ",")
    ensures s[0] != ',' ==>
      Split(s, ",") == [[s[0]] + Split(s[1..], ",")[0]] + Split(s[1..], ",")[1..]
  {
    assert "," <= s <==> s[0] == ',';
  }

  /** Inside an unquoted field: the current field runs to the next comma. */
  lemma {:induction false} ScanInFieldWithoutQuotes(s: string, quote: char, skipSpace: bool, field: string, fields: seq<string>)
    requires quote !in s
    ensures var p := Split(s, ",");
      Scan(s, quote, skipSpace, InField, field, fields) == fields + [field + p[0]] + UnquotedAll(p[1..], skipSpace)
    decreases |s|, 1
  {
    if s == [] {
      assert Split(s, ",") == [""];
      assert field + "" == field;
    } else {
      SplitOnCommaStep(s);
      var p, p' := Split(s, ","), Split(s[1..], ",");
      assert quote !in s[1..] by { assert forall k :: 0 <= k < |s[1..]| ==> s[1..][k] == s[k + 1]; }
      if s[0] == ',' {
        ScanStartWithoutQuotes(s[1..], quote, skipSpace, fields + [field]);
        assert p[1..] == p';
        assert field + p[0] == field;
      } else {
        ScanInFieldWithoutQuotes(s[1..], quote, skipSpace, field + [s[0]], fields);
        assert p[0] == [s[0]] + p'[0] && p[1..] == p'[1..];
        assert field + [s[0]] + p'[0] == field + p[0];
      }
    }
  }

  /** Unfolds `UnquotedAll` once, after fields already finished. */
  lemma UnquotedAllCons(front: seq<string>, x: string, rest: seq<string>, skipSpace: bool)
    ensures front + UnquotedAll([x] + rest, skipSpace) == front + [Unquoted(x, skipSpace)] + UnquotedAll(rest, skipSpace)
  {
    assert ([x] + rest)[1..] == rest;
  }

  /** A skipped space at the start of a field leaves the row as it was. */
  lemma ScanStartSpace(s: string, quote: char, fields: seq<string>)
    requires s != [] && s[0] == ' ' && quote != ' '
    requires Scan(s[1..], quote, true, StartField, "", fields) == fields + UnquotedAll(Split(s[1..], ","), true)
    ensures Scan(s, quote, true, StartField, "", fields) == fields + UnquotedAll(Split(s, ","), true)
  {
    assert Scan(s, quote, true, StartField, "", fields) == Scan(s[1..], quote, true, StartField, "", fields);
    SplitOnCommaStep(s);
    var p' := Split(s[1..], ",");
    assert Split(s, ",") == [[' '] + p'[0]] + p'[1..];
    assert Unquoted([' '] + p'[0], true) == Unquoted(p'[0], true) by {
      assert ([' '] + p'[0])[1..] == p'[0];
    }
    calc {
      fields + UnquotedAll([[' '] + p'[0]] + p'[1..], true);
      { UnquotedAllCons(fields, [' '] + p'[0], p'[1..], true); }
      fields + [Unquoted(p'[0], true)] + UnquotedAll(p'[1..], true);
      { UnquotedAllCons(fields, p'[0], p'[1..], true); }
      fields + UnquotedAll([p'[0]] + p'[1..], true);
      { assert [p'[0]] + p'[1..] == p'; }
      fields + UnquotedAll(p', true);
    }
  }

  /** A comma at the start of a field finishes an empty field. */
  lemma ScanStartComma(s: string, quote: char, skipSpace: bool, fields: seq<string>)
    requires s != [] && s[0] == ',' && quote != ','
    requires Scan(s[1..], quote, skipSpace, StartField, "", fields + [""]) == fields + [""] + UnquotedAll(Split(s[1..], ","), skipSpace)
    ensures Scan(s, quote, skipSpace, StartField, "", fields) == fields + UnquotedAll(Split(s, ","), skipSpace)
  {
    assert Scan(s, quote, skipSpace, StartField, "", fields) == Scan(s[1..], quote, skipSpace, StartField, "", fields + [""]);
    SplitOnCommaStep(s);
    UnquotedAllCons(fields, "", Split(s[1..], ","), skipSpace);
    assert [Unquoted("", skipSpace)] == [""];
  }

  /** Any other character opens an unquoted field. */
  lemma ScanStartOther(s: string, quote: char, skipSpace: bool, fields: seq<string>)
    requires s != [] && s[0] != ',' && s[0] != quote && !(s[0] == ' ' && skipSpace)
    requires var p' := Split(s[1..], ",");
      Scan(s[1..], quote, skipSpace, InField, [s[0]], fields) == fields + [[s[0]] + p'[0]] + UnquotedAll(p'[1..], skipSpace)
    ensures Scan(s, quote, skipSpace, StartField, "", fields) == fields + UnquotedAll(Split(s, ","), skipSpace)
  {
    SplitOnCommaStep(s);
    var c, p' := s[0], Split(s[1..], ",");
    assert "" + [c] == [c];
    UnquotedAllCons(fields, [c] + p'[0], p'[1..], skipSpace);
    assert Unquoted([c] + p'[0], skipSpace) == [c] + p'[0];
  }

  /** At the start of a field: every comma-separated piece becomes a field. */
  lemma {:induction false} ScanStartWithoutQuotes(s: string, quote: char, skipSpace: bool, fields: seq<string>)
    requires quote !in s
    ensures Scan(s, quote, skipSpace, StartField, "", fields) == fields + UnquotedAll(Split(s, ","), skipSpace)
    decreases |s|, 0
  {
    if s == [] {
      assert UnquotedAll([""], skipSpace) == [Unquoted("", skipSpace)];
    } else {
      assert quote !in s[1..] by { assert forall k :: 0 <= k < |s[1..]| ==> s[1..][k] == s[k + 1]; }
      assert s[0] != quote by { assert s[0] in s; }
      if s[0] == ' ' && skipSpace {
        ScanStartWithoutQuotes(s[1..], quote, skipSpace, fields);
        ScanStartSpace(s, quote, fields);
      } else if s[0] == ',' {
        ScanStartWithoutQuotes(s[1..], quote, skipSpace, fields + [""]);
        ScanStartComma(s, quote, skipSpace, fields);
      } else {
        ScanInFieldWithoutQuotes(s[1..], quote, skipSpace, [s[0]], fields);
        ScanStartOther(s, quote, skipSpace, fields);
      }
    }
  }

  /** Without quote characters a row is the comma split of the line, each
      piece losing its leading spaces when they are skipped. */
  lemma RowWithoutQuotes(line: string, quote: char, skipSpace: bool)
    requires quote !in line && line != []
    ensures Row(line, quote, skipSpace) == UnquotedAll(Split(line, ","), skipSpace)
  {
    ScanStartWithoutQuotes(line, quote, skipSpace, []);
  }

  /** The characters of `cs` written one per quoted field, each comma
      followed by the blanks `gap` (`'a', 'b', 'c'` or `'a','b','c'`). */
  function QuotedChars(cs: string, quote: char, gap: string): string
    decreases |cs|
  {
    if cs == [] then ""
    else if |cs| == 1 then [quote, cs[0], quote]
    else [quote, cs[0], quote, ','] + gap + QuotedChars(cs[1..], quote, gap)
  }

  predicate AllBlank(gap: string)
  {
    forall k :: 0 <= k < |gap| ==> IsBlank(gap[k])
  }

  /** The one-character strings of `cs`, in order. */
  function Singletons(cs: string): (r: seq<string>)
    ensures |r| == |cs|
    decreases |cs|
  {
    if cs == [] then [] else [[cs[0]]] + Singletons(cs[1..])
  }

  lemma {:induction false} JoinSingletons(cs: string)
    ensures Join(Singletons(cs), "") == cs
    decreases |cs|
  {
    if |cs| > 1 {
      JoinSingletons(cs[1..]);
      assert Singletons(cs)[1..] == Singletons(cs[1..]);
      assert [cs[0]] + cs[1..] == cs;
    }
  }

  /** Blanks at the start of a field are skipped. */
  lemma {:induction false} ScanSkipsBlanks(gap: string, rest: string, quote: char, fields: seq<string>)
    requires AllBlank(gap) && quote != ' '
    ensures Scan(gap + rest, quote, true, StartField, "", fields) == Scan(rest, quote, true, StartField, "", fields)
    decreases |gap|
  {
    if gap != [] {
      assert IsBlank(gap[0]);
      var line := gap + rest;
      assert line[0] == ' ' && line[1..] == gap[1..] + rest;
      assert AllBlank(gap[1..]) by {
        forall k | 0 <= k < |gap[1..]| ensures IsBlank(gap[1..][k]) {
          assert IsBlank(gap[k + 1]);
        }
      }
      assert Scan(line, quote, true, StartField, "", fields) == Scan(line[1..], quote, true, StartField, "", fields);
      ScanSkipsBlanks(gap[1..], rest, quote, fields);
    } else {
      assert gap + rest == rest;
    }
  }

  lemma {:induction false} ScanQuotedChars(cs: string, quote: char, gap: string, fields: seq<string>)
    requires cs != [] && quote !in cs && quote != ',' && quote != ' ' && AllBlank(gap)
    ensures Scan(QuotedChars(cs, quote, gap), quote, true, StartField, "", fields) == fields + Singletons(cs)
    decreases |cs|
  {
    var c := cs[0];
    assert c != quote by { assert cs[0] in cs; }
    var line := QuotedChars(cs, quote, gap);
    if |cs| == 1 {
      assert line == [quote, c, quote];
      assert line[1..] == [c, quote] && line[2..] == [quote] && line[3..] == [];
      assert "" + [c] == [c];
      calc {
        Scan(line, quote, true, StartField, "", fields);
        Scan([c, quote], quote, true, InQuotedField, "", fields);
        Scan([quote], quote, true, InQuotedField, [c], fields);
        Scan([], quote, true, QuoteInQuotedField, [c], fields);
      }
      assert Singletons(cs) == [[c]];
    } else {
      var tail := QuotedChars(cs[1..], quote, gap);
      assert line == [quote, c, quote, ','] + (gap + tail);
      assert line[1..] == [c, quote, ','] + (gap + tail);
      assert line[2..] == [quote, ','] + (gap + tail);
      assert line[3..] == [','] + (gap + tail);
      assert line[4..] == gap + tail;
      assert quote !in cs[1..] by { assert forall k :: 0 <= k < |cs[1..]| ==> cs[1..][k] == cs[k + 1]; }
      ScanQuotedChars(cs[1..], quote, gap, fields + [[c]]);
      ScanSkipsBlanks(gap, tail, quote, fields + [[c]]);
      assert "" + [c] == [c];
      calc {
        Scan(line, quote, true, StartField, "", fields);
        Scan(line[1..], quote, true, InQuotedField, "", fields);
        Scan(line[2..], quote, true, InQuotedField, [c], fields);
        Scan(line[3..], quote, true, QuoteInQuotedField, [c], fields);
        Scan(line[4..], quote, true, StartField, "", fields + [[c]]);
        Scan(tail, quote, true, StartField, "", fields + [[c]]);
        fields + [[c]] + Singletons(cs[1..]);
      }
    }
  }

  /** A line of quoted characters reads back as those characters, one field
      each, whatever they are (commas and spaces included) as long as none is
      the quote character itself, with or without blanks after the commas. */
  lemma RowOfQuotedChars(cs: string, quote: char, gap: string)
    requires quote !in cs && quote != ',' && quote != ' ' && AllBlank(gap)
    ensures Row(QuotedChars(cs, quote, gap), quote, true) == Singletons(cs)
  {
    if cs != [] {
      ScanQuotedChars(cs, quote, gap, []);
    }
  }
}
