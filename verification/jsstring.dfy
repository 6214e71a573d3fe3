/** The few JavaScript string primitives the extension relies on:
    the white-space class shared by `String.prototype.trim` and the regular
    expression escape `\s`, `trim` itself, `includes`, and the decimal
    rendering of a non-negative integer inside a template literal; and the
    fields of an `Error` value. */
module JsString {
  import opened Wrappers

  /** The two fields of a thrown `Error` object the error handlers read:
      `error.response` (present only with an HTTP status attached) and
      `error.message`. */
  datatype ErrorValue = ErrorValue(response: Option<nat>, message: string)

  /** LineTerminator of ECMAScript: LF, CR, LINE SEPARATOR, PARAGRAPH SEPARATOR. */
  predicate IsLineTerminator(c: char) {
    c == '\n' || c == '\r' || c == '\U{2028}' || c == '\U{2029}'
  }

  /** WhiteSpace or LineTerminator of ECMAScript: the characters `trim`
      removes and `\s` matches (tab, VT, FF, space, NBSP, BOM, every Zs
      character, and the line terminators). */
  predicate IsWhiteSpace(c: char) {
    || IsLineTerminator(c)
    || c == '\t' || c == '\U{000B}' || c == '\U{000C}' || c == ' '
    || c == '\U{00A0}' || c == '\U{1680}' || ('\U{2000}' <= c <= '\U{200A}')
    || c == '\U{202F}' || c == '\U{205F}' || c == '\U{3000}' || c == '\U{FEFF}'
  }

  /** Neither the first nor the last character is white space. */
  predicate NoEdgeSpace(s: string) {
    s == [] || (!IsWhiteSpace(s[0]) && !IsWhiteSpace(s[|s| - 1]))
  }

  /** Every character of `s` is white space. */
  predicate AllSpace(s: string) {
    forall i :: 0 <= i < |s| ==> IsWhiteSpace(s[i])
  }

  /** Removes the leading white space. */
  function TrimStart(s: string): string {
    if |s| > 0 && IsWhiteSpace(s[0]) then TrimStart(s[1..]) else s
  }

  /** Removes the trailing white space. */
  function TrimEnd(s: string): string {
    if |s| > 0 && IsWhiteSpace(s[|s| - 1]) then TrimEnd(s[..|s| - 1]) else s
  }

  /** TrimStart drops a white-space prefix and stops at a visible character. */
  lemma {:induction false} TrimStartShape(s: string)
    ensures var r := TrimStart(s);
      && |r| <= |s| && r == s[|s| - |r|..]
      && AllSpace(s[..|s| - |r|])
      && (r == [] || !IsWhiteSpace(r[0]))
  {
    if |s| > 0 && IsWhiteSpace(s[0]) {
      TrimStartShape(s[1..]);
      var r := TrimStart(s[1..]);
      assert s[1..][..|s| - 1 - |r|] == s[1..|s| - |r|];
      assert forall i :: 1 <= i < |s| - |r| ==> s[i] == s[1..|s| - |r|][i - 1];
    } else {
      assert s[..0] == [];
    }
  }

  /** TrimEnd drops a white-space suffix and stops at a visible character. */
  lemma {:induction false} TrimEndShape(s: string)
    ensures var r := TrimEnd(s);
      && |r| <= |s| && r == s[..|r|]
      && AllSpace(s[|r|..])
      && (r == [] || !IsWhiteSpace(r[|r| - 1]))
  {
    if |s| > 0 && IsWhiteSpace(s[|s| - 1]) {
      var t := s[..|s| - 1];
      TrimEndShape(t);
      var r := TrimEnd(t);
      assert t[..|r|] == s[..|r|];
      assert forall i :: |r| <= i < |s| - 1 ==> s[i] == t[|r|..][i - |r|];
    }
  }

  /** `s.trim()`: `s` without its leading and trailing white space; the
      result is a slice of `s` flanked by white space only. */
  function Trim(s: string): (r: string)
    ensures NoEdgeSpace(r)
    ensures exists a :: 0 <= a <= |s| - |r| && TrimmedAt(s, r, a)
  {
    var t := TrimStart(s);
    var r := TrimEnd(t);
    TrimStartShape(s);
    TrimEndShape(t);
    TrimmedAtSlice(s, |s| - |t|, r);
    r
  }

  /** A prefix `r` of the suffix `s[a..]`, with only white space before `a`
      and after `r`, is trimmed out of `s` at `a`. */
  lemma TrimmedAtSlice(s: string, a: nat, r: string)
    requires a <= |s| && AllSpace(s[..a])
    requires |r| <= |s| - a && r == s[a..][..|r|] && AllSpace(s[a..][|r|..])
    ensures TrimmedAt(s, r, a)
  {
    assert s[a..][..|r|] == s[a..a + |r|];
    assert s[a + |r|..] == s[a..][|r|..];
  }

  /** `r` occurs in `s` at offset `a`, and everything around it is white space. */
  predicate TrimmedAt(s: string, r: string, a: int) {
    && 0 <= a <= |s| - |r|
    && s[a..a + |r|] == r
    && AllSpace(s[..a])
    && AllSpace(s[a + |r|..])
  }

  /** A string trimmed at `a` is its leading white space, the trimmed
      part and its trailing white space, in that order. */
  lemma TrimmedAtSplit(s: string, r: string, a: int)
    requires TrimmedAt(s, r, a)
    ensures s == s[..a] + r + s[a + |r|..]
  {
    assert s == s[..a] + s[a..a + |r|] + s[a + |r|..];
  }

  /** Trimming a string without edge white space changes nothing. */
  lemma {:induction false} TrimUnchanged(s: string)
    requires NoEdgeSpace(s)
    ensures Trim(s) == s
  {
    assert TrimStart(s) == s;
    assert TrimEnd(s) == s;
  }

  /** Leading white space in front of a string that starts with a visible
      character is exactly what TrimStart removes. */
  lemma {:induction false} TrimStartSpacePrefix(pre: string, x: string)
    requires AllSpace(pre) && (x == [] || !IsWhiteSpace(x[0]))
    ensures TrimStart(pre + x) == x
  {
    if pre != [] {
      assert (pre + x)[1..] == pre[1..] + x;
      TrimStartSpacePrefix(pre[1..], x);
    }
  }

  /** Trailing white space behind a string that ends with a visible character
      is exactly what TrimEnd removes. */
  lemma {:induction false} TrimEndSpaceSuffix(x: string, post: string)
    requires AllSpace(post) && (x == [] || !IsWhiteSpace(x[|x| - 1]))
    ensures TrimEnd(x + post) == x
  {
    if post != [] {
      assert (x + post)[..|x + post| - 1] == x + post[..|post| - 1];
      TrimEndSpaceSuffix(x, post[..|post| - 1]);
    } else {
      assert x + post == x;
    }
  }

  /** Trimming `pre + s + post`, where `pre` and `post` are white space and `s`
      has no edge white space, yields exactly `s`. */
  lemma {:induction false} TrimPadded(pre: string, s: string, post: string)
    requires AllSpace(pre) && AllSpace(post) && NoEdgeSpace(s)
    ensures Trim(pre + s + post) == s
  {
    if s == [] {
      assert pre + s + post == pre + post;
      TrimStartSpacePrefix(pre + post, []);
      assert pre + post + [] == pre + post;
    } else {
      assert pre + s + post == pre + (s + post);
      TrimStartSpacePrefix(pre, s + post);
      TrimEndSpaceSuffix(s, post);
    }
  }

  /** `needle` occurs in `hay` starting at index `i`. */
  predicate OccursAt(hay: string, needle: string, i: int) {
    0 <= i && i + |needle| <= |hay| && hay[i..i + |needle|] == needle
  }

  /** `hay.includes(needle)`: a left-to-right search for `needle`. */
  function Includes(hay: string, needle: string): (r: bool)
    ensures r <==> exists i :: OccursAt(hay, needle, i)
  {
    if needle <= hay then
      assert OccursAt(hay, needle, 0);
      true
    else if hay == [] then
      false
    else
      IncludesTail(hay, needle);
      Includes(hay[1..], needle)
  }

  /** When `needle` is not a prefix of a non-empty `hay`, it occurs in `hay`
      exactly when it occurs in `hay` without its first character. */
  lemma IncludesTail(hay: string, needle: string)
    requires hay != [] && !(needle <= hay)
    ensures (exists i :: OccursAt(hay, needle, i)) <==> (exists i :: OccursAt(hay[1..], needle, i))
  {
    if i :| OccursAt(hay[1..], needle, i) {
      assert hay[i + 1..i + 1 + |needle|] == hay[1..][i..i + |needle|];
      assert OccursAt(hay, needle, i + 1);
    }
    if i :| OccursAt(hay, needle, i) {
      if i > 0 {
        assert hay[1..][i - 1..i - 1 + |needle|] == hay[i..i + |needle|];
        assert OccursAt(hay[1..], needle, i - 1);
      }
    }
  }

  /** `s.endsWith(suffix)`. */
  predicate EndsWith(s: string, suffix: string) {
    |suffix| <= |s| && s[|s| - |suffix|..] == suffix
  }

  /** A string includes each of its prefixes. */
  lemma IncludesPrefix(a: string, b: string)
    ensures Includes(a + b, a)
  {
    assert (a + b)[0..|a|] == a;
    assert OccursAt(a + b, a, 0);
  }

  /** What a string includes, any extension of it in front includes too. */
  lemma IncludesAfter(a: string, b: string, needle: string)
    requires Includes(b, needle)
    ensures Includes(a + b, needle)
  {
    var i :| OccursAt(b, needle, i);
    assert (a + b)[|a| + i..|a| + i + |needle|] == b[i..i + |needle|];
    assert OccursAt(a + b, needle, |a| + i);
  }

  /** A string ends with what a suffix of it ends with. */
  lemma EndsWithAfter(a: string, b: string, suffix: string)
    requires EndsWith(b, suffix)
    ensures EndsWith(a + b, suffix)
  {
    assert (a + b)[|a + b| - |suffix|..] == b[|b| - |suffix|..];
  }

  /** A string with no character equal to the first character of `needle`
      does not include a non-empty `needle`. */
  lemma AbsentFirstChar(hay: string, needle: string)
    requires needle != []
    requires forall i :: 0 <= i < |hay| ==> hay[i] != needle[0]
    ensures !Includes(hay, needle)
  {
    forall i | OccursAt(hay, needle, i) ensures hay[i] == needle[0] {
      assert hay[i..i + |needle|][0] == hay[i];
    }
  }

  predicate IsDigit(c: char) {
    '0' <= c <= '9'
  }

  /** The character of a decimal digit. */
  function DigitChar(d: nat): (c: char)
    requires d < 10
    ensures IsDigit(c) && c as int - '0' as int == d
  {
    ('0' as int + d) as char
  }

  /** The number a string of decimal digits denotes. */
  function DigitsValue(s: string): nat
    requires forall i :: 0 <= i < |s| ==> IsDigit(s[i])
  {
    if s == [] then 0
    else
      assert IsDigit(s[|s| - 1]);
      DigitsValue(s[..|s| - 1]) * 10 + (s[|s| - 1] as int - '0' as int)
  }

  /** `${n}` for a non-negative integer `n`: its shortest decimal numeral. */
  function NatToString(n: nat): (r: string)
    ensures r != [] && forall i :: 0 <= i < |r| ==> IsDigit(r[i])
    ensures r[0] == '0' ==> r == "0"
    ensures DigitsValue(r) == n
  {
    if n < 10 then [DigitChar(n)]
    else
      var r := NatToString(n / 10) + [DigitChar(n % 10)];
      assert r[..|r| - 1] == NatToString(n / 10);
      r
  }
}
