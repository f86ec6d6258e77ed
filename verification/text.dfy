/**
 * String helpers the deputy list relies on: case folding for the
 * case-insensitive name search, literal substring search, and the code-point
 * order in which block names are sorted.
 */
module Text {

  /** Upper-case letters folded by the search: ASCII A–Z and Latin-1 À–Þ except ×. */
  predicate IsUpper(c: char) {
    ('A' <= c <= 'Z') || ('À' <= c <= 'Þ' && c != '×')
  }

  /** The lower-case form of `c`; every other character is its own lower-case form. */
  function LowerChar(c: char): (d: char)
    ensures !IsUpper(d)
    ensures d == c <==> !IsUpper(c)
    ensures IsUpper(c) ==> d as int == c as int + 32
  {
    if IsUpper(c) then (c as int + 32) as char else c
  }

  function Lower(s: string): (t: string)
    ensures |t| == |s|
    ensures forall i :: 0 <= i < |s| ==> t[i] == LowerChar(s[i])
  {
    seq(|s|, i requires 0 <= i < |s| => LowerChar(s[i]))
  }

  /** Folding twice is folding once. */
  lemma LowerIdempotent(s: string)
    ensures Lower(Lower(s)) == Lower(s)
  {
  }

  /** `t` starts at position `i` of `s`. */
  predicate OccursAt(s: string, t: string, i: int) {
    0 <= i && i + |t| <= |s| && s[i..i + |t|] == t
  }

  /** `t` is a contiguous piece of `s`, found by trying each start position in turn. */
  function Contains(s: string, t: string): bool
    decreases |s|
  {
    if |t| > |s| then false
    else s[..|t|] == t || (s != [] && Contains(s[1..], t))
  }

  /** The search succeeds exactly when `t` occurs at some position of `s`. */
  lemma {:induction false} ContainsIff(s: string, t: string)
    ensures Contains(s, t) <==> exists i :: OccursAt(s, t, i)
    decreases |s|
  {
    if |t| > |s| {
      forall i ensures !OccursAt(s, t, i) { }
    } else if s[..|t|] == t {
      assert OccursAt(s, t, 0);
    } else {
      ContainsIff(s[1..], t);
      if Contains(s[1..], t) {
        var i :| OccursAt(s[1..], t, i);
        assert s[1..][i..i + |t|] == s[i + 1..i + 1 + |t|];
        assert OccursAt(s, t, i + 1);
      } else {
        forall i | 1 <= i && i + |t| <= |s|
          ensures !OccursAt(s, t, i)
        {
          assert s[1..][i - 1..i - 1 + |t|] == s[i..i + |t|];
          assert !OccursAt(s[1..], t, i - 1);
        }
      }
    }
  }

  /** The empty string occurs in every string. */
  lemma ContainsEmpty(s: string)
    ensures Contains(s, "")
  {
    assert OccursAt(s, "", 0);
    ContainsIff(s, "");
  }

  /** Strict lexicographic order by code point, as Python compares strings. */
  predicate Less(a: string, b: string)
    decreases |a|
  {
    b != [] && (a == [] || a[0] < b[0] || (a[0] == b[0] && Less(a[1..], b[1..])))
  }

  lemma {:induction false} LessIrreflexive(a: string)
    ensures !Less(a, a)
    decreases |a|
  {
    if a != [] {
      LessIrreflexive(a[1..]);
    }
  }

  lemma {:induction false} LessTransitive(a: string, b: string, c: string)
    requires Less(a, b) && Less(b, c)
    ensures Less(a, c)
    decreases |a|
  {
    if a != [] && a[0] == b[0] && b[0] == c[0] {
      LessTransitive(a[1..], b[1..], c[1..]);
    }
  }

  /** Two different strings are ordered one way or the other. */
  lemma {:induction false} LessTotal(a: string, b: string)
    requires a != b
    ensures Less(a, b) || Less(b, a)
    decreases |a|
  {
    if a != [] && b != [] && a[0] == b[0] {
      assert a == [a[0]] + a[1..] && b == [b[0]] + b[1..];
      LessTotal(a[1..], b[1..]);
    }
  }
}
