/** Character and string helpers: the parts of .NET's string API the
    modelled code relies on, restricted to the ASCII range. */
module Text {

  /** The characters `char.IsWhiteSpace` accepts in the ASCII range. */
  predicate IsWhiteSpace(c: char)
  {
    c == ' ' || c == '\t' || c == '\n' || c == '\r' || c == '\U{0B}' || c == '\U{0C}'
  }

  /** `string.IsNullOrWhiteSpace` on a non-null string: empty or only white space. */
  predicate IsBlank(s: string)
  {
    forall i :: 0 <= i < |s| ==> IsWhiteSpace(s[i])
  }

  predicate IsUpper(c: char) { 'A' <= c <= 'Z' }

  predicate IsLower(c: char) { 'a' <= c <= 'z' }

  /** `char.IsLetter`, restricted to ASCII letters. */
  predicate IsLetter(c: char) { IsUpper(c) || IsLower(c) }

  predicate IsDigit(c: char) { '0' <= c <= '9' }

  predicate IsLowerHex(c: char) { IsDigit(c) || 'a' <= c <= 'f' }

  function UpperChar(c: char): (r: char)
    ensures IsLower(c) ==> IsUpper(r)
    ensures !IsLower(c) ==> r == c
  {
    if IsLower(c) then (c as int - 32) as char else c
  }

  function LowerChar(c: char): (r: char)
    ensures IsUpper(c) ==> IsLower(r)
    ensures !IsUpper(c) ==> r == c
  {
    if IsUpper(c) then (c as int + 32) as char else c
  }

  /** `string.ToUpper` on ASCII letters; every other character is kept. */
  function ToUpper(s: string): (r: string)
    ensures |r| == |s|
    ensures forall i :: 0 <= i < |s| ==> r[i] == UpperChar(s[i])
  {
    if s == [] then [] else [UpperChar(s[0])] + ToUpper(s[1..])
  }

  /** `string.ToLower` on ASCII letters; every other character is kept. */
  function ToLower(s: string): (r: string)
    ensures |r| == |s|
    ensures forall i :: 0 <= i < |s| ==> r[i] == LowerChar(s[i])
  {
    if s == [] then [] else [LowerChar(s[0])] + ToLower(s[1..])
  }

  lemma ToLowerIdempotent(s: string)
    ensures ToLower(ToLower(s)) == ToLower(s)
  {
  }

  lemma ToUpperIdempotent(s: string)
    ensures ToUpper(ToUpper(s)) == ToUpper(s)
  {
  }

  /** No character of `s` from position `i` on is an upper-case letter;
      written by position so that Dafny can evaluate it on a literal. */
  predicate NoUpperFrom(s: string, i: nat)
    decreases |s| - i
  {
    i >= |s| || (!IsUpper(s[i]) && NoUpperFrom(s, i + 1))
  }

  lemma {:induction false} NoUpperFromAll(s: string, i: nat)
    requires NoUpperFrom(s, i)
    ensures forall k :: i <= k < |s| ==> !IsUpper(s[k])
    decreases |s| - i
  {
    if i < |s| {
      NoUpperFromAll(s, i + 1);
    }
  }

  /** Lower-casing a string with no upper-case letter changes nothing. */
  lemma NoUpperToLower(s: string)
    requires NoUpperFrom(s, 0)
    ensures ToLower(s) == s
  {
    NoUpperFromAll(s, 0);
  }

  lemma ToLowerAppend(a: string, b: string)
    ensures ToLower(a + b) == ToLower(a) + ToLower(b)
  {
  }

  /** `t` occurs in `s` starting at position `j`. */
  predicate MatchesAt(s: string, t: string, j: nat)
  {
    j + |t| <= |s| && s[j..j + |t|] == t
  }

  /** `string.Contains`: `t` occurs in `s` as a contiguous piece. */
  predicate Contains(s: string, t: string)
  {
    exists j: nat :: j <= |s| && MatchesAt(s, t, j)
  }

  /** A naive left-to-right search for `t` in `s`, from position `i` with the
      first `k` characters of `t` already matched; Dafny can evaluate it on
      short literals, which `Contains` is not suited for. */
  predicate Scan(s: string, t: string, i: nat, k: nat)
    decreases |s| - i, |t| - k
  {
    if k >= |t| then true
    else if i + |t| > |s| then false
    else if s[i + k] == t[k] then Scan(s, t, i, k + 1)
    else Scan(s, t, i + 1, 0)
  }

  lemma {:induction false} ScanFinds(s: string, t: string, i: nat, k: nat)
    requires k <= |t| && i + k <= |s| && s[i..i + k] == t[..k]
    ensures Scan(s, t, i, k) <==> exists j: nat :: i <= j <= |s| && MatchesAt(s, t, j)
    decreases |s| - i, |t| - k
  {
    if k >= |t| {
      assert MatchesAt(s, t, i);
    } else if i + |t| > |s| {
    } else if s[i + k] == t[k] {
      assert s[i..i + k + 1] == s[i..i + k] + [s[i + k]];
      assert t[..k + 1] == t[..k] + [t[k]];
      ScanFinds(s, t, i, k + 1);
    } else {
      assert !MatchesAt(s, t, i) by {
        assert s[i..i + |t|][k] != t[k];
      }
      ScanFinds(s, t, i + 1, 0);
      if exists j: nat :: i <= j <= |s| && MatchesAt(s, t, j) {
        var j: nat :| i <= j <= |s| && MatchesAt(s, t, j);
        assert i + 1 <= j;
      }
    }
  }

  lemma ScanIsContains(s: string, t: string)
    ensures Scan(s, t, 0, 0) <==> Contains(s, t)
  {
    ScanFinds(s, t, 0, 0);
  }

  // Decimal rendering, as string interpolation does for integers.

  function DigitChar(d: nat): (c: char)
    requires d < 10
    ensures IsDigit(c)
  {
    ('0' as int + d) as char
  }

  function DigitValue(c: char): nat
    requires IsDigit(c)
  {
    c as int - '0' as int
  }

  predicate AllDigits(s: string)
  {
    forall i :: 0 <= i < |s| ==> IsDigit(s[i])
  }

  /** The shortest decimal rendering of `n`, with no leading zero. */
  function NatToString(n: nat): (r: string)
    ensures |r| >= 1 && AllDigits(r)
    decreases n
  {
    if n < 10 then [DigitChar(n)] else NatToString(n / 10) + [DigitChar(n % 10)]
  }

  /** The rendering of an integer by `{n}`: a minus sign before a negative value. */
  function IntToString(n: int): (r: string)
    ensures |r| >= 1 && (r[0] == '-' <==> n < 0)
    ensures forall i :: 0 <= i < |r| ==> IsDigit(r[i]) || r[i] == '-'
  {
    if n < 0 then "-" + NatToString(-n) else NatToString(n)
  }

  /** The value of a string of decimal digits. */
  function ParseNat(s: string): nat
    requires AllDigits(s)
  {
    if s == [] then 0 else 10 * ParseNat(s[..|s| - 1]) + DigitValue(s[|s| - 1])
  }

  lemma {:induction false} ParseNatToString(n: nat)
    ensures ParseNat(NatToString(n)) == n
    decreases n
  {
    if n >= 10 {
      var r := NatToString(n);
      assert r[..|r| - 1] == NatToString(n / 10);
      ParseNatToString(n / 10);
    }
  }

  lemma NatToStringInjective(a: nat, b: nat)
    requires NatToString(a) == NatToString(b)
    ensures a == b
  {
    ParseNatToString(a);
    ParseNatToString(b);
  }

  /** Different integers are rendered differently. */
  lemma IntToStringInjective(a: int, b: int)
    requires IntToString(a) == IntToString(b)
    ensures a == b
  {
    if a < 0 && b < 0 {
      assert NatToString(-a) == IntToString(a)[1..];
      NatToStringInjective(-a, -b);
    } else if a >= 0 && b >= 0 {
      NatToStringInjective(a, b);
    }
  }

  /** Exactly `w` decimal digits: the last `w` digits of `n`, zero-padded,
      as a format such as `yyyy` or `MM` writes a date component. */
  function FixedDigits(n: nat, w: nat): (r: string)
    ensures |r| == w && AllDigits(r)
  {
    if w == 0 then "" else FixedDigits(n / 10, w - 1) + [DigitChar(n % 10)]
  }
}
