/** The few Python string operations the dashboard relies on: case-insensitive
    substring search, `split()[0]`, `replace(p, "")` and `str(int)`. */
module Text {
  import opened Util

  /** ASCII lower-casing; other characters are left as they are. */
  function Lower(c: char): char {
    if 'A' <= c <= 'Z' then (c as int + 32) as char else c
  }

  function LowerAll(s: string): (r: string)
    ensures |r| == |s|
    ensures forall i :: 0 <= i < |s| ==> r[i] == Lower(s[i])
  {
    seq(|s|, i requires 0 <= i < |s| => Lower(s[i]))
  }

  predicate IsPrefix(p: string, s: string) {
    |p| <= |s| && s[..|p|] == p
  }

  /** `p` occurs in `s` starting at index `i`. */
  ghost predicate OccursAt(s: string, p: string, i: int) {
    0 <= i && i + |p| <= |s| && s[i..i + |p|] == p
  }

  /** Python's `p in s`; the empty string occurs in every string. */
  predicate Contains(s: string, p: string)
    decreases |s|
  {
    IsPrefix(p, s) || (|s| > 0 && Contains(s[1..], p))
  }

  lemma {:induction false} ContainsIffOccurs(s: string, p: string)
    ensures Contains(s, p) <==> exists i :: OccursAt(s, p, i)
    decreases |s|
  {
    if IsPrefix(p, s) {
      assert OccursAt(s, p, 0);
    } else if |s| > 0 {
      ContainsIffOccurs(s[1..], p);
      forall i | OccursAt(s[1..], p, i) ensures OccursAt(s, p, i + 1) {
        assert s[1..][i..i + |p|] == s[i + 1..i + 1 + |p|];
      }
      forall i | 1 <= i && OccursAt(s, p, i) ensures OccursAt(s[1..], p, i - 1) {
        assert s[1..][i - 1..i - 1 + |p|] == s[i..i + |p|];
      }
    }
  }

  /** pandas `str.contains(p, case=False)` with `p` read as a literal. */
  predicate ContainsIgnoreCase(s: string, p: string) {
    Contains(LowerAll(s), LowerAll(p))
  }

  /** The characters Python's `str.isspace()` accepts, on which `split()` breaks. */
  predicate IsSpace(c: char) {
    c == ' ' || '\t' <= c <= '\r' || '\U{1c}' <= c <= '\U{1f}'
    || c == '\U{85}' || c == '\U{a0}' || c == '\U{1680}'
    || '\U{2000}' <= c <= '\U{200a}' || c == '\U{2028}' || c == '\U{2029}'
    || c == '\U{202f}' || c == '\U{205f}' || c == '\U{3000}'
  }

  function DropSpace(s: string): (r: string)
    ensures |r| <= |s| && r == s[|s| - |r|..]
    ensures forall i :: 0 <= i < |s| - |r| ==> IsSpace(s[i])
    ensures r == [] || !IsSpace(r[0])
  {
    if s != [] && IsSpace(s[0]) then DropSpace(s[1..]) else s
  }

  function TakeWord(s: string): (w: string)
    ensures |w| <= |s| && w == s[..|w|]
    ensures forall i :: 0 <= i < |w| ==> !IsSpace(w[i])
    ensures |w| == |s| || IsSpace(s[|w|])
  {
    if s != [] && !IsSpace(s[0]) then [s[0]] + TakeWord(s[1..]) else []
  }

  /** `w` is the first whitespace-separated word of `s` and starts at `k`:
      only whitespace before it, whitespace or the end after it. */
  ghost predicate FirstWordAt(s: string, w: string, k: int) {
    && 0 <= k && k + |w| <= |s|
    && (forall i :: 0 <= i < k ==> IsSpace(s[i]))
    && s[k..k + |w|] == w
    && (k + |w| == |s| || IsSpace(s[k + |w|]))
  }

  /** Python's `s.split()[0]`; `None` where Python raises IndexError (no word at all). */
  function FirstToken(s: string): (t: Option<string>)
    ensures t.None? <==> forall i :: 0 <= i < |s| ==> IsSpace(s[i])
    ensures t.Some? ==> t.value != []
    ensures t.Some? ==> forall i :: 0 <= i < |t.value| ==> !IsSpace(t.value[i])
    ensures t.Some? ==> exists k :: FirstWordAt(s, t.value, k)
  {
    var rest := DropSpace(s);
    if rest == [] then None
    else
      var w := TakeWord(rest);
      assert FirstWordAt(s, w, |s| - |rest|);
      Some(w)
  }

  /** Python's `s.replace(p, "")`: one left-to-right pass that deletes
      non-overlapping occurrences of `p`. */
  function RemoveAll(s: string, p: string): (r: string)
    requires p != []
    ensures |r| <= |s|
    decreases |s|
  {
    if IsPrefix(p, s) then RemoveAll(s[|p|..], p)
    else if s == [] then []
    else [s[0]] + RemoveAll(s[1..], p)
  }

  /** A string in which `p` does not occur comes back unchanged. */
  lemma {:induction false} RemoveAllAbsent(s: string, p: string)
    requires p != []
    requires !Contains(s, p)
    ensures RemoveAll(s, p) == s
    decreases |s|
  {
    if s != [] {
      RemoveAllAbsent(s[1..], p);
    }
  }

  ghost predicate IsDigit(c: char) { '0' <= c <= '9' }

  /** The text Python prints for an integral float (`"12.0"`) loses its `.0`. */
  lemma {:induction false} RemoveAllIntegralFloat(d: string)
    requires forall i :: 0 <= i < |d| ==> IsDigit(d[i])
    ensures RemoveAll(d + ".0", ".0") == d
    decreases |d|
  {
    if d == [] {
      assert IsPrefix(".0", ".0");
      assert ".0"[2..] == [];
    } else {
      assert (d + ".0")[0] == d[0] != '.';
      assert (d + ".0")[1..] == d[1..] + ".0";
      RemoveAllIntegralFloat(d[1..]);
    }
  }

  /** The pass is single: deleting one occurrence can join a new one, which stays. */
  lemma RemoveAllSinglePass()
    ensures RemoveAll("1..00", ".0") == "1.0"
  {
    assert !IsPrefix(".0", "1..00");
    assert "1..00"[1..] == "..00";
    assert "..00"[1] == '.';
    assert "..00"[1..] == ".00";
    assert IsPrefix(".0", ".00");
    assert ".00"[2..] == "0";
    assert !IsPrefix(".0", "0");
    assert "0"[1..] == [];
  }

  function DigitChar(d: int): char
    requires 0 <= d < 10
  {
    ('0' as int + d) as char
  }

  /** Python's `str(n)` for a natural number. */
  function NatText(n: nat): (s: string)
    ensures |s| >= 1
    ensures forall i :: 0 <= i < |s| ==> IsDigit(s[i])
    ensures s[0] == '0' ==> n == 0
  {
    if n < 10 then [DigitChar(n)] else NatText(n / 10) + [DigitChar(n % 10)]
  }

  /** Python's `str(n)` for an integer. */
  function IntText(n: int): string {
    if n < 0 then "-" + NatText(-n) else NatText(n)
  }

  /** The value of a string of decimal digits, read left to right. */
  function DigitsValue(s: string): int {
    if s == [] then 0 else DigitsValue(s[..|s| - 1]) * 10 + (s[|s| - 1] as int - '0' as int)
  }

  lemma {:induction false} NatTextValue(n: nat)
    ensures DigitsValue(NatText(n)) == n
  {
    if n >= 10 {
      NatTextValue(n / 10);
      var s := NatText(n);
      assert s[..|s| - 1] == NatText(n / 10);
    }
  }

  /** Only a negative number is printed with a leading minus sign. */
  lemma IntTextSign(n: int)
    ensures |IntText(n)| >= 1
    ensures IntText(n)[0] == '-' <==> n < 0
  {
    if n >= 0 {
      assert IsDigit(NatText(n)[0]);
    }
  }

  /** Distinct integers are printed differently, so matching printed keys is matching numbers. */
  lemma IntTextInjective(a: int, b: int)
    requires IntText(a) == IntText(b)
    ensures a == b
  {
    IntTextSign(a);
    IntTextSign(b);
    if a < 0 && b < 0 {
      assert NatText(-a) == IntText(a)[1..];
      assert NatText(-b) == IntText(b)[1..];
      NatTextValue(-a);
      NatTextValue(-b);
    } else if a >= 0 && b >= 0 {
      NatTextValue(a);
      NatTextValue(b);
    }
  }
}
