/**
 * String operations the transcriber relies on: Python's `str.strip()`,
 * `sep.join(parts)` and `str(n)` for a non-negative integer.
 */
module Text {

  /** Python's `str.isspace` for one Unicode scalar value: the characters
      that `str.strip()` with no argument removes. */
  predicate IsSpace(c: char) {
    || ('\t' <= c <= '\r')
    || ('\U{1C}' <= c <= '\U{1F}')
    || c == ' '
    || c == '\U{85}'
    || c == '\U{A0}'
    || c == '\U{1680}'
    || ('\U{2000}' <= c <= '\U{200A}')
    || c == '\U{2028}'
    || c == '\U{2029}'
    || c == '\U{202F}'
    || c == '\U{205F}'
    || c == '\U{3000}'
  }

  predicate AllSpace(s: string) {
    forall k :: 0 <= k < |s| ==> IsSpace(s[k])
  }

  /** Neither end of `s` is whitespace (the empty string qualifies). */
  predicate Trimmed(s: string) {
    s == [] || (!IsSpace(s[0]) && !IsSpace(s[|s| - 1]))
  }

  /** `r` is `s` with a whitespace-only prefix and suffix cut off, and `r`
      itself has no whitespace at either end. */
  ghost predicate IsStripOf(r: string, s: string) {
    && Trimmed(r)
    && exists i :: StripAt(r, s, i)
  }

  function StripLeading(s: string): (r: string)
    ensures |r| <= |s| && r == s[|s| - |r|..]
    ensures AllSpace(s[..|s| - |r|])
    ensures r == [] || !IsSpace(r[0])
  {
    if s != [] && IsSpace(s[0]) then
      var r := StripLeading(s[1..]);
      assert s[..|s| - |r|] == [s[0]] + s[1..][..|s| - 1 - |r|];
      r
    else
      assert s[..0] == [];
      s
  }

  function StripTrailing(s: string): (r: string)
    ensures |r| <= |s| && r == s[..|r|]
    ensures AllSpace(s[|r|..])
    ensures r == [] || !IsSpace(r[|r| - 1])
  {
    if s != [] && IsSpace(s[|s| - 1]) then
      var r := StripTrailing(s[..|s| - 1]);
      assert s[|r|..] == s[..|s| - 1][|r|..] + [s[|s| - 1]];
      r
    else
      assert s[|s|..] == [];
      s
  }

  /** Python's `s.strip()`. */
  function Strip(s: string): (r: string)
    ensures IsStripOf(r, s)
  {
    var left := StripLeading(s);
    var r := StripTrailing(left);
    CutBothEnds(s, left, r);
    r
  }

  /** Cutting a whitespace prefix and then a whitespace suffix leaves a
      trimmed middle part. */
  lemma CutBothEnds(s: string, left: string, r: string)
    requires |left| <= |s| && left == s[|s| - |left|..] && AllSpace(s[..|s| - |left|])
    requires left == [] || !IsSpace(left[0])
    requires |r| <= |left| && r == left[..|r|] && AllSpace(left[|r|..])
    requires r == [] || !IsSpace(r[|r| - 1])
    ensures IsStripOf(r, s)
  {
    var i := |s| - |left|;
    assert r == s[i..i + |r|];
    assert s[i + |r|..] == left[|r|..];
    assert r != [] ==> r[0] == left[0];
    assert StripAt(r, s, i);
  }

  /** `r` sits at offset `i` of `s` with only whitespace around it. */
  ghost predicate StripAt(r: string, s: string, i: int) {
    0 <= i <= |s| - |r| && r == s[i..i + |r|] && AllSpace(s[..i]) && AllSpace(s[i + |r|..])
  }

  /** Every character of `s` outside the kept part `r` is whitespace. */
  lemma StripAtOutside(r: string, s: string, i: int, k: int)
    requires StripAt(r, s, i) && 0 <= k < |s|
    ensures k < i || i + |r| <= k ==> IsSpace(s[k])
  {
    if k < i { assert s[..i][k] == s[k]; }
    if k >= i + |r| { assert s[i + |r|..][k - i - |r|] == s[k]; }
  }

  /** Two trimmed strings that both sit in `s` with only whitespace
      around them are the same string. */
  lemma StripAtUnique(r: string, i: int, r': string, i': int, s: string)
    requires Trimmed(r) && StripAt(r, s, i)
    requires Trimmed(r') && StripAt(r', s, i')
    ensures r == r'
  {
    if r != [] {
      assert s[i] == r[0] && s[i + |r| - 1] == r[|r| - 1];
      StripAtOutside(r', s, i', i);
      StripAtOutside(r', s, i', i + |r| - 1);
      assert r' != [];
      assert s[i'] == r'[0] && s[i' + |r'| - 1] == r'[|r'| - 1];
      StripAtOutside(r, s, i, i');
      StripAtOutside(r, s, i, i' + |r'| - 1);
    } else if r' != [] {
      assert s[i'] == r'[0];
      StripAtOutside(r, s, i, i');
    }
  }

  /** There is only one way to strip a string: `Strip` is the unique
      string that `IsStripOf` describes. */
  lemma StripUnique(r: string, s: string)
    requires IsStripOf(r, s)
    ensures r == Strip(s)
  {
    var r' := Strip(s);
    var i :| StripAt(r, s, i);
    var i' :| StripAt(r', s, i');
    StripAtUnique(r, i, r', i', s);
  }

  /** Stripping twice changes nothing more than stripping once. */
  lemma StripIdempotent(s: string)
    ensures Strip(Strip(s)) == Strip(s)
  {
    var r := Strip(s);
    assert StripAt(r, r, 0) by { assert r == r[0..0 + |r|] && r[..0] == [] && r[0 + |r|..] == []; }
    StripUnique(r, r);
  }

  /** Python's `sep.join(parts)`: nothing for no parts, the part itself
      for one part; otherwise the first part comes first and the last part
      comes last. */
  function Join(sep: string, parts: seq<string>): (r: string)
    ensures parts == [] ==> r == ""
    ensures |parts| == 1 ==> r == parts[0]
    ensures parts != [] ==> |r| >= |parts[0]| && r[..|parts[0]|] == parts[0]
    ensures parts != [] ==> var last := parts[|parts| - 1]; |r| >= |last| && r[|r| - |last|..] == last
  {
    if |parts| == 0 then ""
    else if |parts| == 1 then parts[0]
    else
      var rest := Join(sep, parts[1..]);
      assert parts[1..][|parts| - 2] == parts[|parts| - 1];
      parts[0] + sep + rest
  }

  /** Joining two non-empty lists puts exactly one separator between them. */
  lemma {:induction false} JoinAppend(sep: string, a: seq<string>, b: seq<string>)
    requires a != [] && b != []
    ensures Join(sep, a + b) == Join(sep, a) + sep + Join(sep, b)
  {
    if |a| == 1 {
      assert a == [a[0]];
      JoinCons(sep, a[0], b);
    } else {
      var x, tail := a[0], a[1..];
      var jt, jb := Join(sep, tail), Join(sep, b);
      HeadTail(a, b);
      assert Join(sep, a + b) == x + sep + (jt + sep + jb) by {
        JoinAppend(sep, tail, b);
        JoinCons(sep, x, tail + b);
      }
      assert Join(sep, a) == x + sep + jt by {
        JoinCons(sep, x, tail);
      }
      Regroup(x, sep, jt, jb);
    }
  }

  lemma HeadTail<T>(a: seq<T>, b: seq<T>)
    requires a != []
    ensures [a[0]] + a[1..] == a && [a[0]] + (a[1..] + b) == a + b
  {
  }

  lemma Regroup(x: string, sep: string, y: string, z: string)
    ensures x + sep + (y + sep + z) == (x + sep + y) + sep + z
  {
  }

  /** Joining a part in front of a non-empty list puts one separator
      between it and the rest. */
  lemma JoinCons(sep: string, x: string, rest: seq<string>)
    requires rest != []
    ensures Join(sep, [x] + rest) == x + sep + Join(sep, rest)
  {
    assert ([x] + rest)[1..] == rest;
  }

  /** Joining one more part appends the separator and that part. */
  lemma JoinSnoc(sep: string, a: seq<string>, x: string)
    requires a != []
    ensures Join(sep, a + [x]) == Join(sep, a) + sep + x
  {
    JoinAppend(sep, a, [x]);
  }

  /** When no part is empty, the joined string is empty exactly when there
      is nothing to join. */
  lemma JoinEmptyIff(sep: string, parts: seq<string>)
    requires forall k :: 0 <= k < |parts| ==> parts[k] != ""
    ensures Join(sep, parts) == "" <==> parts == []
  {
    if |parts| > 1 {
      assert |Join(sep, parts)| >= |parts[0]| > 0;
    }
  }

  /** Joining non-empty trimmed parts, with any separator, gives a trimmed
      string: it starts with the first part's first
      character and ends with the last part's last character. */
  lemma {:induction false} JoinTrimmed(sep: string, parts: seq<string>)
    requires forall k :: 0 <= k < |parts| ==> parts[k] != "" && Trimmed(parts[k])
    ensures Trimmed(Join(sep, parts))
    ensures parts != [] ==> Join(sep, parts) != [] && Join(sep, parts)[0] == parts[0][0]
    ensures parts != [] ==> var r, p := Join(sep, parts), parts[|parts| - 1]; r[|r| - 1] == p[|p| - 1]
  {
    if |parts| > 1 {
      var rest := parts[1..];
      JoinTrimmed(sep, rest);
      assert rest[|rest| - 1] == parts[|parts| - 1];
    }
  }

  function DigitChar(d: nat): (c: char)
    requires d < 10
    ensures '0' <= c <= '9' && c as int - '0' as int == d
  {
    ['0', '1', '2', '3', '4', '5', '6', '7', '8', '9'][d]
  }

  predicate IsDigits(s: string) {
    forall k :: 0 <= k < |s| ==> '0' <= s[k] <= '9'
  }

  /** Python's `str(n)` for `n >= 0`: decimal digits, no leading zero. */
  function NatToString(n: nat): (s: string)
    ensures s != [] && IsDigits(s)
    ensures s[0] == '0' ==> s == "0"
  {
    if n < 10 then [DigitChar(n)] else NatToString(n / 10) + [DigitChar(n % 10)]
  }

  /** The value of a string of decimal digits. */
  function DigitsValue(s: string): nat
    requires IsDigits(s)
  {
    if s == [] then 0 else 10 * DigitsValue(s[..|s| - 1]) + (s[|s| - 1] as int - '0' as int)
  }

  /** Reading back the decimal string gives the number again. */
  lemma {:induction false} NatToStringRoundTrip(n: nat)
    ensures DigitsValue(NatToString(n)) == n
  {
    var s := NatToString(n);
    if n >= 10 {
      NatToStringRoundTrip(n / 10);
      assert s[..|s| - 1] == NatToString(n / 10);
    } else {
      assert s[..0] == [];
    }
  }

  /** Distinct numbers have distinct decimal strings. */
  lemma NatToStringInjective(a: nat, b: nat)
    requires NatToString(a) == NatToString(b)
    ensures a == b
  {
    NatToStringRoundTrip(a);
    NatToStringRoundTrip(b);
  }
}
