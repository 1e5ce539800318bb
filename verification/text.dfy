/** String primitives shared by the model: JavaScript's whitespace class, substring
    search (`String.prototype.includes`), ASCII case mapping and decimal rendering
    of array indices. */
module Text {
  import opened Wrappers

  /** JavaScript's `\s` class and the set `String.prototype.trim` removes:
      the WhiteSpace and LineTerminator code points of ECMA-262. */
  predicate IsSpace(c: char) {
    || c == '\t' || c == '\n' || c == '\U{000B}' || c == '\U{000C}' || c == '\r'
    || c == ' ' || c == '\U{00A0}' || c == '\U{1680}'
    || ('\U{2000}' <= c <= '\U{200A}')
    || c == '\U{2028}' || c == '\U{2029}' || c == '\U{202F}' || c == '\U{205F}'
    || c == '\U{3000}' || c == '\U{FEFF}'
  }

  /** `s.trim()` is the empty string exactly when every character is whitespace. */
  predicate IsBlank(s: string) {
    forall i | 0 <= i < |s| :: IsSpace(s[i])
  }

  /** `t` occurs in `s` starting at index `i`. */
  predicate OccursAt(s: string, t: string, i: int) {
    0 <= i && i + |t| <= |s| && s[i..i + |t|] == t
  }

  /** The first occurrence of `t` in `s` at or after `from` (`s.indexOf(t, from)`). */
  function FindFrom(s: string, t: string, from: nat): (r: Option<nat>)
    ensures r.Some? ==> from <= r.value && OccursAt(s, t, r.value)
    ensures r.Some? ==> forall j :: from <= j < r.value ==> !OccursAt(s, t, j)
    ensures r.None? ==> forall j :: from <= j ==> !OccursAt(s, t, j)
    decreases |s| - from
  {
    if from + |t| > |s| then None
    else if s[from..from + |t|] == t then Some(from)
    else FindFrom(s, t, from + 1)
  }

  /** `s.includes(t)`. */
  predicate Contains(s: string, t: string) {
    FindFrom(s, t, 0).Some?
  }

  lemma ContainsIff(s: string, t: string)
    ensures Contains(s, t) <==> exists i :: OccursAt(s, t, i)
  {
    if Contains(s, t) {
      assert OccursAt(s, t, FindFrom(s, t, 0).value);
    }
  }

  /** A string that starts with `t` contains it. */
  lemma PrefixContains(t: string, rest: string)
    ensures Contains(t + rest, t)
  {
    assert (t + rest)[0..|t|] == t;
    assert OccursAt(t + rest, t, 0);
  }

  /** A pattern with a character that never occurs in `s` is not contained in `s`. */
  lemma AbsentChar(s: string, t: string, k: nat)
    requires k < |t| && t[k] !in s
    ensures !Contains(s, t)
  {
    forall i
      ensures !OccursAt(s, t, i)
    {
      if 0 <= i && i + |t| <= |s| {
        assert s[i..i + |t|][k] == s[i + k];
      }
    }
    ContainsIff(s, t);
  }

  /** When the pattern's k-th character is absent from the left part and its
      (k+1)-th from the right part, no occurrence can straddle the seam either. */
  lemma AbsentPair(x: string, y: string, t: string, k: nat)
    requires k + 1 < |t| && t[k] !in x && t[k + 1] !in y
    ensures !Contains(x + y, t)
  {
    var s := x + y;
    forall i
      ensures !OccursAt(s, t, i)
    {
      if 0 <= i && i + |t| <= |s| {
        if i + k < |x| {
          assert s[i..i + |t|][k] == x[i + k];
        } else {
          assert s[i..i + |t|][k + 1] == y[i + k + 1 - |x|];
        }
      }
    }
    ContainsIff(s, t);
  }

  /** First index at or after `from` holding `c`. */
  function FirstIndexOf(s: string, c: char, from: nat): (r: Option<nat>)
    ensures r.Some? ==> from <= r.value < |s| && s[r.value] == c
    ensures r.Some? ==> forall k :: from <= k < r.value ==> s[k] != c
    ensures r.None? ==> forall k :: from <= k < |s| ==> s[k] != c
    decreases |s| - from
  {
    if from >= |s| then None
    else if s[from] == c then Some(from)
    else FirstIndexOf(s, c, from + 1)
  }

  /** `toUpperCase` restricted to ASCII letters; every other character is kept. */
  function UpperChar(c: char): char {
    if 'a' <= c <= 'z' then (c as int - 32) as char else c
  }

  /** `toLowerCase` restricted to ASCII letters; every other character is kept. */
  function LowerChar(c: char): char {
    if 'A' <= c <= 'Z' then (c as int + 32) as char else c
  }

  function Upper(s: string): (r: string)
    ensures |r| == |s|
  {
    seq(|s|, i requires 0 <= i < |s| => UpperChar(s[i]))
  }

  function Lower(s: string): (r: string)
    ensures |r| == |s|
  {
    seq(|s|, i requires 0 <= i < |s| => LowerChar(s[i]))
  }

  /** Upper-casing a lower-cased ASCII letter gives back the upper-case letter. */
  lemma UpperLowerChar(c: char)
    requires 'A' <= c <= 'Z'
    ensures UpperChar(LowerChar(c)) == c && LowerChar(c) != c
  {
  }

  function DigitChar(d: nat): char
    requires d < 10
  {
    (48 + d) as char
  }

  function DigitValue(c: char): nat {
    if '0' <= c <= '9' then c as int - 48 else 0
  }

  /** The decimal rendering JavaScript gives an array index (`String(n)`). */
  function NatToString(n: nat): (r: string)
    ensures |r| > 0
    ensures forall i :: 0 <= i < |r| ==> '0' <= r[i] <= '9'
  {
    if n < 10 then [DigitChar(n)] else NatToString(n / 10) + [DigitChar(n % 10)]
  }

  /** Reads a run of decimal digits back into a number. */
  function ParseNat(s: string): nat {
    if |s| == 0 then 0 else 10 * ParseNat(s[..|s| - 1]) + DigitValue(s[|s| - 1])
  }

  lemma {:induction false} ParseNatToString(n: nat)
    ensures ParseNat(NatToString(n)) == n
  {
    if n >= 10 {
      var s := NatToString(n);
      assert s[..|s| - 1] == NatToString(n / 10);
      ParseNatToString(n / 10);
    }
  }

  /** Distinct indices render as distinct strings. */
  lemma NatToStringInjective(m: nat, n: nat)
    ensures NatToString(m) == NatToString(n) ==> m == n
  {
    ParseNatToString(m);
    ParseNatToString(n);
  }
}
