/** String helpers shared by the browser scripts and the sitemap generator:
    the few `String.prototype` operations they use, decimal rendering of
    numbers (template literals such as `${index + 1}`) and the global
    `parseInt` used to read a stored timestamp back. */
module Text {
  import opened Wrappers

  predicate StartsWith(s: string, p: string) {
    |p| <= |s| && s[..|p|] == p
  }

  predicate EndsWith(s: string, p: string) {
    |p| <= |s| && s[|s| - |p|..] == p
  }

  /** `s.split(c)[0]`: the text before the first `c`, or all of `s`. */
  function BeforeFirst(s: string, c: char): (r: string)
    ensures StartsWith(s, r)
    ensures c !in r
    ensures |r| < |s| ==> s[|r|] == c
    ensures c !in s ==> r == s
  {
    if s == [] then []
    else if s[0] == c then []
    else [s[0]] + BeforeFirst(s[1..], c)
  }

  /** `s.lastIndexOf(c)`: -1 when `c` does not occur. */
  function LastIndexOf(s: string, c: char): (i: int)
    ensures -1 <= i < |s|
    ensures i >= 0 ==> s[i] == c
    ensures forall k :: i < k < |s| ==> s[k] != c
  {
    if s == [] then -1
    else if s[|s| - 1] == c then |s| - 1
    else LastIndexOf(s[..|s| - 1], c)
  }

  /** `s.split(c).pop()`: the text after the last `c`, or all of `s`. */
  function AfterLast(s: string, c: char): (r: string)
    ensures EndsWith(s, r)
    ensures c !in r
    ensures |r| < |s| ==> s[|s| - |r| - 1] == c
  {
    s[LastIndexOf(s, c) + 1..]
  }

  /** The last `c` of `s + [c] + t` is the one between them when `t` has none. */
  lemma {:induction false} LastIndexOfSeparator(s: string, c: char, t: string)
    requires c !in t
    ensures LastIndexOf(s + [c] + t, c) == |s|
    decreases |t|
  {
    var u := s + [c] + t;
    if t != [] {
      var t' := t[..|t| - 1];
      assert u[|u| - 1] == t[|t| - 1];
      assert u[..|u| - 1] == s + [c] + t';
      LastIndexOfSeparator(s, c, t');
    }
  }

  lemma AfterLastSeparator(s: string, c: char, t: string)
    requires c !in t
    ensures AfterLast(s + [c] + t, c) == t
  {
    LastIndexOfSeparator(s, c, t);
    assert (s + [c] + t)[|s| + 1..] == t;
  }

  /** ASCII case mapping of `toLowerCase` (other scripts are not modelled). */
  function LowerChar(ch: char): char {
    if 'A' <= ch <= 'Z' then (ch as int + 32) as char else ch
  }

  function ToLower(s: string): (r: string)
    ensures |r| == |s|
    ensures forall c :: c in r ==> !('A' <= c <= 'Z')
  {
    seq(|s|, i requires 0 <= i < |s| => LowerChar(s[i]))
  }

  /** Lower-casing works character by character, so it splits over `+`. */
  lemma ToLowerAppend(a: string, b: string)
    ensures ToLower(a + b) == ToLower(a) + ToLower(b)
  {
    assert forall i :: 0 <= i < |a + b| ==> ToLower(a + b)[i] == (ToLower(a) + ToLower(b))[i];
  }

  /** Lower-casing leaves white space where it was. */
  lemma ToLowerKeepsWhitespace(s: string)
    ensures forall i :: 0 <= i < |s| ==> (IsJsWhitespace(ToLower(s)[i]) <==> IsJsWhitespace(s[i]))
  {
  }

  predicate OccursAt(s: string, p: string, k: int) {
    0 <= k && k + |p| <= |s| && s[k..k + |p|] == p
  }

  /** `s.indexOf(p)`: the first position where `p` occurs, or -1. */
  function IndexOf(s: string, p: string): (k: int)
    ensures k >= -1
    ensures k >= 0 ==> OccursAt(s, p, k)
    ensures forall j :: 0 <= j && (k == -1 || j < k) ==> !OccursAt(s, p, j)
    decreases |s|
  {
    if |s| < |p| then -1
    else if s[..|p|] == p then 0
    else
      var k := IndexOf(s[1..], p);
      assert forall j :: 1 <= j ==> (OccursAt(s, p, j) <==> OccursAt(s[1..], p, j - 1));
      if k == -1 then -1 else k + 1
  }

  /** `s.replace(p, "")` with a string pattern: only the first occurrence goes. */
  function RemoveFirst(s: string, p: string): string {
    var k := IndexOf(s, p);
    if k < 0 then s else s[..k] + s[k + |p|..]
  }

  // ---------------------------------------------------------------------
  // Decimal rendering and parseInt

  predicate IsDigit(c: char) {
    '0' <= c <= '9'
  }

  /** The value of an ASCII digit or Latin letter as `parseInt` reads it
      (0-9, then a/A = 10 ... z/Z = 35); 36 for every other character. */
  function DigitValue(c: char): nat {
    if '0' <= c <= '9' then c as int - '0' as int
    else if 'a' <= c <= 'z' then c as int - 'a' as int + 10
    else if 'A' <= c <= 'Z' then c as int - 'A' as int + 10
    else 36
  }

  /** The number written by the digits `ds` in base `radix`. */
  function Value(ds: string, radix: nat): nat {
    if ds == [] then 0
    else Value(ds[..|ds| - 1], radix) * radix + DigitValue(ds[|ds| - 1])
  }

  /** `${n}` for a non-negative integer: its decimal digits. */
  function Decimal(n: nat): (s: string)
    ensures |s| >= 1
    ensures forall i :: 0 <= i < |s| ==> IsDigit(s[i])
    ensures |s| > 1 ==> s[0] != '0'
    ensures Value(s, 10) == n
  {
    if n < 10 then ["0123456789"[n]]
    else
      var s := Decimal(n / 10) + ["0123456789"[n % 10]];
      assert s[..|s| - 1] == Decimal(n / 10);
      s
  }

  /** Two numbers have the same decimal text only if they are equal. */
  lemma DecimalInjective(m: nat, n: nat)
    requires Decimal(m) == Decimal(n)
    ensures m == n
  {
  }

  /** The white space `parseInt` skips before the number: ECMAScript's
      StrWhiteSpaceChar (the WhiteSpace and LineTerminator characters). */
  predicate IsJsWhitespace(c: char) {
    || c == '\t' || c == '\U{000B}' || c == '\U{000C}' || c == ' '
    || c == '\U{00A0}' || c == '\U{FEFF}' || c == '\U{1680}'
    || ('\U{2000}' <= c <= '\U{200A}')
    || c == '\U{202F}' || c == '\U{205F}' || c == '\U{3000}'
    || c == '\n' || c == '\r' || c == '\U{2028}' || c == '\U{2029}'
  }

  predicate AllWhitespace(w: string) {
    forall i :: 0 <= i < |w| ==> IsJsWhitespace(w[i])
  }

  predicate NoWhitespace(s: string) {
    forall i :: 0 <= i < |s| ==> !IsJsWhitespace(s[i])
  }

  function TrimStart(s: string): (r: string)
    ensures EndsWith(s, r)
    ensures r == [] || !IsJsWhitespace(r[0])
  {
    if s != [] && IsJsWhitespace(s[0]) then
      var r := TrimStart(s[1..]);
      assert s[1..][|s| - 1 - |r|..] == s[|s| - |r|..];
      r
    else s
  }

  function TrimEnd(s: string): (r: string)
    ensures StartsWith(s, r)
    ensures r == [] || !IsJsWhitespace(r[|r| - 1])
  {
    if s != [] && IsJsWhitespace(s[|s| - 1]) then
      var r := TrimEnd(s[..|s| - 1]);
      assert s[..|s| - 1][..|r|] == s[..|r|];
      r
    else s
  }

  /** `s.trim()`: white space removed from both ends. */
  function Trim(s: string): string {
    TrimEnd(TrimStart(s))
  }

  lemma {:induction false} TrimStartBlank(s: string)
    ensures TrimStart(s) == [] <==> AllWhitespace(s)
  {
    if s != [] && IsJsWhitespace(s[0]) {
      TrimStartBlank(s[1..]);
      assert forall i :: 1 <= i < |s| ==> s[i] == s[1..][i - 1];
    }
  }

  /** `trim()` leaves nothing exactly when the text is all white space. */
  lemma TrimBlank(s: string)
    ensures Trim(s) == [] <==> AllWhitespace(s)
  {
    TrimStartBlank(s);
    var t := TrimStart(s);
    if t != [] {
      assert !IsJsWhitespace(t[0]);
      assert TrimEnd(t) != [] by {
        if TrimEnd(t) == [] {
          assert StartsWith(t, TrimEnd(t));
          TrimEndKeepsWord(t);
        }
      }
    }
  }

  lemma {:induction false} TrimEndKeepsWord(t: string)
    requires t != [] && !IsJsWhitespace(t[0])
    ensures TrimEnd(t) != []
    decreases |t|
  {
    if |t| > 1 && IsJsWhitespace(t[|t| - 1]) {
      TrimEndKeepsWord(t[..|t| - 1]);
    }
  }

  lemma {:induction false} TrimStartPadding(w: string, v: string)
    requires AllWhitespace(w) && (v == [] || !IsJsWhitespace(v[0]))
    ensures TrimStart(w + v) == v
    decreases |w|
  {
    if w == [] {
      assert w + v == v;
    } else {
      assert (w + v)[1..] == w[1..] + v;
      TrimStartPadding(w[1..], v);
    }
  }

  lemma {:induction false} TrimEndPadding(v: string, w: string)
    requires AllWhitespace(w) && (v == [] || !IsJsWhitespace(v[|v| - 1]))
    ensures TrimEnd(v + w) == v
    decreases |w|
  {
    if w == [] {
      assert v + w == v;
    } else {
      var w' := w[..|w| - 1];
      assert (v + w)[..|v + w| - 1] == v + w';
      TrimEndPadding(v, w');
    }
  }

  /** White space around a word is what `trim()` removes, and all it removes. */
  lemma TrimPadding(w1: string, v: string, w2: string)
    requires AllWhitespace(w1) && AllWhitespace(w2)
    requires v == [] || (!IsJsWhitespace(v[0]) && !IsJsWhitespace(v[|v| - 1]))
    ensures Trim(w1 + v + w2) == v
  {
    var u := v + w2;
    assert w1 + v + w2 == w1 + u;
    if v == [] {
      assert AllWhitespace(w1 + u);
      TrimStartBlank(w1 + u);
    } else {
      TrimStartPadding(w1, u);
      TrimEndPadding(v, w2);
    }
  }

  /** The longest prefix of `s` made of digits of base `radix`. */
  function DigitPrefix(s: string, radix: nat): (r: string)
    ensures StartsWith(s, r)
    ensures forall i :: 0 <= i < |r| ==> DigitValue(r[i]) < radix
    ensures |r| < |s| ==> DigitValue(s[|r|]) >= radix
  {
    if s == [] || DigitValue(s[0]) >= radix then []
    else [s[0]] + DigitPrefix(s[1..], radix)
  }

  /** The digits of `s` and their radix, after an optional `0x`/`0X` prefix. */
  function Unsigned(s: string): Option<int> {
    var hex := |s| >= 2 && s[0] == '0' && (s[1] == 'x' || s[1] == 'X');
    var radix := if hex then 16 else 10;
    var ds := DigitPrefix(if hex then s[2..] else s, radix);
    if ds == [] then None else Some(Value(ds, radix))
  }

  /** `parseInt(s)` with no radix argument: leading white space, an optional
      sign, then the longest run of digits; `None` stands for `NaN`. */
  function ParseInt(s: string): (r: Option<int>)
    ensures AllWhitespace(s) ==> r == None
    ensures s != [] && (forall i :: 0 <= i < |s| ==> IsDigit(s[i])) ==> r.Some? && r.value >= 0
  {
    TrimStartBlank(s);
    var t := TrimStart(s);
    if t != [] && (t[0] == '-' || t[0] == '+') then
      match Unsigned(t[1..])
      case None => None
      case Some(v) => Some(if t[0] == '-' then -v else v)
    else Unsigned(t)
  }

  lemma {:induction false} DigitPrefixOfDigits(s: string)
    requires forall i :: 0 <= i < |s| ==> IsDigit(s[i])
    ensures DigitPrefix(s, 10) == s
  {
    if s != [] {
      DigitPrefixOfDigits(s[1..]);
    }
  }

  /** Reading back the decimal text of a number gives the number. */
  lemma ParseDecimal(n: nat)
    ensures ParseInt(Decimal(n)) == Some(n)
  {
    var s := Decimal(n);
    assert !IsJsWhitespace(s[0]);
    assert TrimStart(s) == s;
    DigitPrefixOfDigits(s);
  }
}
