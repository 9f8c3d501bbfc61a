/**
  Text operations with the meaning of the Python string methods the
  reconstruction relies on: `startswith` (written `p <= s`), `split`,
  `strip`, the slices `[1:]`, `[1:-1]` and `[0:n]`, the index `[-1]`, and
  `int()` on decimal text.
 */
module Text {

  datatype Option<T> = None | Some(value: T)

  /** `s.split(sep)`: the pieces between the non-overlapping occurrences of
      `sep`, found from left to right. */
  function Split(s: string, sep: string): (r: seq<string>)
    requires sep != []
    ensures |r| >= 1
    decreases |s|
  {
    if s == [] then [""]
    else if sep <= s then [""] + Split(s[|sep|..], sep)
    else
      var rest := Split(s[1..], sep);
      [[s[0]] + rest[0]] + rest[1..]
  }

  /** `sep.join(pieces)`. */
  function Join(pieces: seq<string>, sep: string): string
  {
    if |pieces| == 0 then ""
    else if |pieces| == 1 then pieces[0]
    else pieces[0] + sep + Join(pieces[1..], sep)
  }

  lemma JoinConsHead(a: string, b: string, t: seq<string>, sep: string)
    ensures Join([a + b] + t, sep) == a + Join([b] + t, sep)
  {
    if t != [] {
      assert ([a + b] + t)[1..] == t;
      assert ([b] + t)[1..] == t;
    }
  }

  /** Joining the pieces of a split with the same separator gives the text back. */
  lemma {:induction false} JoinSplit(s: string, sep: string)
    requires sep != []
    ensures Join(Split(s, sep), sep) == s
    decreases |s|
  {
    if s == [] {
    } else if sep <= s {
      var tail := s[|sep|..];
      JoinSplit(tail, sep);
      var rest := Split(tail, sep);
      assert Split(s, sep) == [""] + rest;
      assert ([""] + rest)[1..] == rest;
      assert Join([""] + rest, sep) == "" + sep + Join(rest, sep);
      assert s == sep + tail;
    } else {
      var rest := Split(s[1..], sep);
      JoinSplit(s[1..], sep);
      assert Split(s, sep) == [[s[0]] + rest[0]] + rest[1..];
      JoinConsHead([s[0]], rest[0], rest[1..], sep);
      assert [rest[0]] + rest[1..] == rest;
      assert [s[0]] + s[1..] == s;
    }
  }

  /** A text in which the separator's first character never occurs splits
      into itself. */
  lemma {:induction false} SplitWithoutSeparator(s: string, sep: string)
    requires sep != [] && sep[0] !in s
    ensures Split(s, sep) == [s]
    decreases |s|
  {
    if s != [] {
      assert !(sep <= s) by { assert s[0] != sep[0]; }
      SplitWithoutSeparator(s[1..], sep);
      assert [s[0]] + s[1..] == s;
    }
  }

  /** A text missing some character of the separator splits into itself. */
  lemma {:induction false} SplitWithoutSeparatorChar(s: string, sep: string, c: char)
    requires sep != [] && c in sep && c !in s
    ensures Split(s, sep) == [s]
    decreases |s|
  {
    if s != [] {
      assert !(sep <= s);
      assert c !in s[1..] by { assert forall k :: 0 <= k < |s[1..]| ==> s[1..][k] == s[k + 1]; }
      SplitWithoutSeparatorChar(s[1..], sep, c);
      assert [s[0]] + s[1..] == s;
    }
  }

  /** The first piece ends at the first occurrence of the separator. */
  lemma {:induction false} SplitAtFirst(p: string, sep: string, q: string)
    requires sep != [] && sep[0] !in p
    ensures Split(p + sep + q, sep) == [p] + Split(q, sep)
    decreases |p|
  {
    if p == [] {
      assert p + sep + q == sep + q;
      assert (sep + q)[|sep|..] == q;
    } else {
      var s := p + sep + q;
      assert !(sep <= s) by { assert s[0] == p[0] != sep[0]; }
      assert s[1..] == p[1..] + sep + q;
      SplitAtFirst(p[1..], sep, q);
      assert [p[0]] + p[1..] == p;
    }
  }

  /** The first piece, when the text after it is empty or starts with the separator. */
  lemma SplitHead(p: string, sep: string, q: string)
    requires sep != [] && sep[0] !in p
    requires q == [] || sep <= q
    ensures Split(p + q, sep)[0] == p
  {
    if q == [] {
      assert p + q == p;
      SplitWithoutSeparator(p, sep);
    } else {
      assert q == sep + q[|sep|..];
      assert p + q == p + sep + q[|sep|..];
      SplitAtFirst(p, sep, q[|sep|..]);
    }
  }

  /** The first piece is a prefix of the text. */
  lemma {:induction false} SplitHeadIsPrefix(s: string, sep: string)
    requires sep != []
    ensures Split(s, sep)[0] <= s
    decreases |s|
  {
    if s != [] && !(sep <= s) {
      SplitHeadIsPrefix(s[1..], sep);
    }
  }

  /** Splitting on one character: no piece contains that character, and
      there is more than one piece exactly when the character occurs. */
  lemma {:induction false} SplitOnChar(s: string, c: char)
    ensures forall i :: 0 <= i < |Split(s, [c])| ==> c !in Split(s, [c])[i]
    ensures |Split(s, [c])| >= 2 <==> c in s
    decreases |s|
  {
    if s != [] {
      SplitOnChar(s[1..], c);
      var rest := Split(s[1..], [c]);
      if [c] <= s {
        assert s[0] == c;
      } else {
        assert s[0] != c;
        var r := Split(s, [c]);
        assert r == [[s[0]] + rest[0]] + rest[1..];
        forall i | 0 <= i < |r| ensures c !in r[i] {
          if i > 0 { assert r[i] == rest[i]; }
        }
        assert c in s <==> c in s[1..] by { assert s == [s[0]] + s[1..]; }
      }
    }
  }

  /** A text that starts with the separator has at least two pieces. */
  lemma SplitAfterLeadingSeparator(s: string, sep: string)
    requires sep != [] && sep <= s
    ensures |Split(s, sep)| >= 2 && Split(s, sep)[0] == ""
  {
  }

  /** Drops the characters `drop` selects from the start of `s` (`lstrip`). */
  function TrimStart(s: string, drop: char -> bool): (r: string)
    ensures |r| <= |s|
    ensures r == s[|s| - |r|..]
    ensures r == [] || !drop(r[0])
    ensures forall k :: 0 <= k < |s| - |r| ==> drop(s[k])
    decreases |s|
  {
    if s != [] && drop(s[0]) then TrimStart(s[1..], drop) else s
  }

  /** Drops the characters `drop` selects from the end of `s` (`rstrip`). */
  function TrimEnd(s: string, drop: char -> bool): (r: string)
    ensures |r| <= |s|
    ensures r == s[..|r|]
    ensures r == [] || !drop(r[|r| - 1])
    ensures forall k :: |r| <= k < |s| ==> drop(s[k])
    decreases |s|
  {
    if s != [] && drop(s[|s| - 1]) then TrimEnd(s[..|s| - 1], drop) else s
  }

  /** `s.strip(chars)`: drops the selected characters from both ends. */
  function StripBy(s: string, drop: char -> bool): string
  {
    TrimEnd(TrimStart(s, drop), drop)
  }

  /** The characters Python's `str.isspace` accepts, which `str.strip()`
      removes by default. */
  predicate IsSpace(c: char)
  {
    c == ' ' || ('\t' <= c <= '\r') || ('\U{1C}' <= c <= '\U{1F}') || c == '\U{85}' || c == '\U{A0}'
    || c == '\U{1680}' || ('\U{2000}' <= c <= '\U{200A}') || c == '\U{2028}' || c == '\U{2029}'
    || c == '\U{202F}' || c == '\U{205F}' || c == '\U{3000}'
  }

  /** `s.strip()`. */
  function Strip(s: string): string
  {
    StripBy(s, IsSpace)
  }

  /** A text whose two ends are not whitespace is left as it is by `strip()`. */
  lemma StripUntouched(s: string)
    requires s == [] || (!IsSpace(s[0]) && !IsSpace(s[|s| - 1]))
    ensures Strip(s) == s
  {
    var t := TrimStart(s, IsSpace);
    assert |t| == |s| by {
      if s != [] { assert !IsSpace(s[0]); }
    }
    var u := TrimEnd(t, IsSpace);
    assert |u| == |t| by {
      if t != [] { assert !IsSpace(t[|t| - 1]); }
    }
  }

  /** Leading whitespace in front of `t` is dropped along with `t`'s own. */
  lemma {:induction false} TrimStartPadded(pad: string, t: string)
    requires forall k :: 0 <= k < |pad| ==> IsSpace(pad[k])
    ensures TrimStart(pad + t, IsSpace) == TrimStart(t, IsSpace)
    decreases |pad|
  {
    if pad == [] {
      assert pad + t == t;
    } else {
      assert IsSpace((pad + t)[0]);
      assert (pad + t)[1..] == pad[1..] + t;
      TrimStartPadded(pad[1..], t);
    }
  }

  /** Trailing whitespace behind `t` is dropped along with `t`'s own. */
  lemma {:induction false} TrimEndPadded(t: string, pad: string)
    requires forall k :: 0 <= k < |pad| ==> IsSpace(pad[k])
    ensures TrimEnd(t + pad, IsSpace) == TrimEnd(t, IsSpace)
    decreases |pad|
  {
    if pad == [] {
      assert t + pad == t;
    } else {
      var x := t + pad;
      assert IsSpace(x[|x| - 1]);
      assert x[..|x| - 1] == t + pad[..|pad| - 1];
      TrimEndPadded(t, pad[..|pad| - 1]);
    }
  }

  /** Surrounding whitespace goes, and nothing else does. */
  lemma StripPadded(pad1: string, s: string, pad2: string)
    requires forall k :: 0 <= k < |pad1| ==> IsSpace(pad1[k])
    requires forall k :: 0 <= k < |pad2| ==> IsSpace(pad2[k])
    requires s == [] || (!IsSpace(s[0]) && !IsSpace(s[|s| - 1]))
    ensures Strip(pad1 + s + pad2) == s
  {
    assert pad1 + s + pad2 == pad1 + (s + pad2);
    TrimStartPadded(pad1, s + pad2);
    if s == [] {
      assert s + pad2 == pad2 + [];
      TrimStartPadded(pad2, []);
    } else {
      assert TrimStart(s + pad2, IsSpace) == s + pad2 by {
        assert (s + pad2)[0] == s[0];
      }
      TrimEndPadded(s, pad2);
      StripUntouched(s);
    }
  }

  /** One stripped character on each side goes, and nothing else does. */
  lemma StripByWrapped(d: char, x: string, drop: char -> bool)
    requires drop(d)
    requires x == [] || (!drop(x[0]) && !drop(x[|x| - 1]))
    ensures StripBy([d] + x + [d], drop) == x
  {
    var s := [d] + x + [d];
    assert s[1..] == x + [d];
    if x == [] {
      assert TrimStart(s, drop) == TrimStart([d], drop);
      assert [d][1..] == [];
    } else {
      assert (x + [d])[0] == x[0];
      assert TrimStart(s, drop) == x + [d];
      assert (x + [d])[..|x|] == x;
    }
  }

  /** `s[1:]`. */
  function DropFirst<T>(s: seq<T>): (r: seq<T>)
    ensures s != [] ==> s == s[..1] + r
    ensures s == [] ==> r == []
  {
    if s == [] then [] else s[1..]
  }

  /** `s[1:-1]`: everything between the first and the last element. */
  function Inner<T>(s: seq<T>): (r: seq<T>)
    ensures |s| >= 2 ==> s == s[..1] + r + s[|s| - 1..]
    ensures |s| < 2 ==> r == []
  {
    if |s| >= 2 then s[1..|s| - 1] else []
  }

  /** `xs[0:n]`: a negative `n` counts from the end, and a bound past the end is clipped. */
  function SlicePrefix<T>(xs: seq<T>, n: int): (r: seq<T>)
    ensures r <= xs
    ensures 0 <= n ==> |r| == (if n <= |xs| then n else |xs|)
    ensures n < 0 ==> |r| == (if -n <= |xs| then |xs| + n else 0)
  {
    if 0 <= n then (if n <= |xs| then xs[..n] else xs)
    else if -n <= |xs| then xs[..|xs| + n]
    else []
  }

  /** `xs[-1]`. */
  function Last<T>(xs: seq<T>): T
    requires xs != []
  {
    xs[|xs| - 1]
  }

  predicate IsDigit(c: char)
  {
    '0' <= c <= '9'
  }

  predicate AllDigits(s: string)
  {
    forall k :: 0 <= k < |s| ==> IsDigit(s[k])
  }

  /** The number a string of decimal digits denotes. */
  function DigitsValue(s: string): (n: nat)
    requires AllDigits(s)
    decreases |s|
  {
    if s == [] then 0 else 10 * DigitsValue(s[..|s| - 1]) + (s[|s| - 1] as int - '0' as int)
  }

  /** `int(s)` for decimal text: surrounding whitespace, an optional sign and
      at least one digit; `None` where Python raises ValueError. */
  function ParseInt(s: string): (r: Option<int>)
  {
    var t := Strip(s);
    if t != [] && (t[0] == '-' || t[0] == '+') then
      var ds := t[1..];
      var magnitude: int := if ds != [] && AllDigits(ds) then DigitsValue(ds) else 0;
      if ds != [] && AllDigits(ds) then Some(if t[0] == '-' then -magnitude else magnitude)
      else None
    else if t != [] && AllDigits(t) then Some(DigitsValue(t))
    else None
  }

  /** Decimal digits of a natural number, as Python's `str` writes them. */
  function NatToDecimal(n: nat): (s: string)
    ensures s != [] && AllDigits(s)
    decreases n
  {
    if n < 10 then [('0' as int + n) as char]
    else NatToDecimal(n / 10) + [('0' as int + n % 10) as char]
  }

  /** Decimal text of an integer, with a leading `-` when it is negative. */
  function IntToDecimal(n: int): string
  {
    if n < 0 then "-" + NatToDecimal(-n) else NatToDecimal(n)
  }

  lemma {:induction false} DigitsOfNat(n: nat)
    ensures DigitsValue(NatToDecimal(n)) == n
    decreases n
  {
    var s := NatToDecimal(n);
    if n >= 10 {
      DigitsOfNat(n / 10);
      assert s[..|s| - 1] == NatToDecimal(n / 10);
    }
  }

  /** `int()` reads back what `str()` writes for every integer. */
  lemma ParseIntOfDecimal(n: int)
    ensures ParseInt(IntToDecimal(n)) == Some(n)
  {
    var s := IntToDecimal(n);
    var d := NatToDecimal(if n < 0 then -n else n);
    DigitsOfNat(if n < 0 then -n else n);
    assert !IsSpace(d[0]) && !IsSpace(d[|d| - 1]) by { assert IsDigit(d[0]) && IsDigit(d[|d| - 1]); }
    StripUntouched(s);
    if n < 0 {
      assert s[1..] == d;
    } else {
      assert !(s[0] == '-' || s[0] == '+') by { assert IsDigit(s[0]); }
    }
  }
}
