/**
 * The two string operations the denial classifier uses: lowercasing
 * (`strings.ToLower`) and substring search (`strings.Contains`).
 */
module Text {

  predicate IsUpper(c: char) { 'A' <= c <= 'Z' }

  /** Capital I with dot above (U+0130), whose Unicode lowercase is `i`. */
  const DottedCapitalI: char := '\U{130}'
  /** The Kelvin sign (U+212A), whose Unicode lowercase is `k`. */
  const KelvinSign: char := '\U{212A}'

  /** The characters whose lowercase is a different ASCII character. */
  predicate FoldsToAscii(c: char) {
    IsUpper(c) || c == DottedCapitalI || c == KelvinSign
  }

  /**
   * Lowercasing of one character, as `unicode.ToLower` does it for every
   * character whose lowercase is ASCII; every other character is kept.
   */
  function LowerChar(c: char): (r: char)
    ensures !FoldsToAscii(r)
    ensures r == c <==> !FoldsToAscii(c)
    ensures FoldsToAscii(c) ==> 'a' <= r <= 'z'
    ensures IsUpper(c) ==> r as int - 'a' as int == c as int - 'A' as int
    ensures c == DottedCapitalI ==> r == 'i'
    ensures c == KelvinSign ==> r == 'k'
  {
    if IsUpper(c) then (c as int - 'A' as int + 'a' as int) as char
    else if c == DottedCapitalI then 'i'
    else if c == KelvinSign then 'k'
    else c
  }

  /** The lowercased message: rune for rune, each character lowercased in place. */
  function Lower(s: string): (r: string)
    ensures |r| == |s|
    ensures forall i :: 0 <= i < |s| ==> r[i] == LowerChar(s[i])
    ensures forall i :: 0 <= i < |r| ==> !FoldsToAscii(r[i])
  {
    seq(|s|, i requires 0 <= i < |s| => LowerChar(s[i]))
  }

  /** Lowercasing twice is lowercasing once. */
  lemma LowerIdempotent(s: string)
    ensures Lower(Lower(s)) == Lower(s)
  {
  }

  /** Lowercasing commutes with taking a window of the text. */
  lemma LowerSlice(s: string, i: nat, j: nat)
    requires i <= j <= |s|
    ensures Lower(s)[i..j] == Lower(s[i..j])
  {
  }

  /** Lowercasing commutes with concatenation. */
  lemma LowerAppend(a: string, b: string)
    ensures Lower(a + b) == Lower(a) + Lower(b)
  {
  }

  /** `p` is a prefix of `s`. */
  predicate StartsWith(s: string, p: string) {
    |p| <= |s| && s[..|p|] == p
  }

  /** `p` occurs in `s` at index `i`. */
  predicate OccursAt(s: string, p: string, i: int) {
    0 <= i && i + |p| <= |s| && s[i..i + |p|] == p
  }

  /**
   * Substring search, as `strings.Contains(s, p)`: is `p` a prefix of some
   * suffix of `s`? The empty pattern is in every text, and no text holds a
   * pattern longer than itself.
   */
  predicate Contains(s: string, p: string)
    ensures p == [] ==> Contains(s, p)
    ensures Contains(s, p) ==> |p| <= |s|
    decreases |s|
  {
    StartsWith(s, p) || (|s| > 0 && Contains(s[1..], p))
  }

  /** Contains holds exactly when `p` occurs somewhere in `s`. */
  lemma {:induction false} ContainsIff(s: string, p: string)
    ensures Contains(s, p) <==> exists i :: OccursAt(s, p, i)
    decreases |s|
  {
    if Contains(s, p) {
      if StartsWith(s, p) {
        assert OccursAt(s, p, 0);
      } else {
        ContainsIff(s[1..], p);
        var i :| OccursAt(s[1..], p, i);
        assert s[1..][i..i + |p|] == s[i + 1..i + 1 + |p|];
        assert OccursAt(s, p, i + 1);
      }
    }
    if exists i :: OccursAt(s, p, i) {
      var i :| OccursAt(s, p, i);
      if i == 0 {
        assert StartsWith(s, p);
      } else {
        assert s[1..][i - 1..i - 1 + |p|] == s[i..i + |p|];
        assert OccursAt(s[1..], p, i - 1);
        ContainsIff(s[1..], p);
      }
    }
  }

  /** Text around an occurrence does not hide it. */
  lemma ContainsInfix(a: string, s: string, b: string, p: string)
    requires Contains(s, p)
    ensures Contains(a + s + b, p)
  {
    ContainsIff(s, p);
    var i :| OccursAt(s, p, i);
    assert (a + s + b)[|a| + i..|a| + i + |p|] == s[i..i + |p|];
    assert OccursAt(a + s + b, p, |a| + i);
    ContainsIff(a + s + b, p);
  }

  /** A text spliced into the middle of another is contained in the result. */
  lemma ContainsPart(a: string, x: string, b: string)
    ensures Contains(a + x + b, x)
  {
    assert StartsWith(x, x);
    ContainsInfix(a, x, b, x);
  }

  /** A pattern longer than the text never occurs in it. */
  lemma ContainsTooLong(s: string, p: string)
    requires |s| < |p|
    ensures !Contains(s, p)
  {
  }
}
