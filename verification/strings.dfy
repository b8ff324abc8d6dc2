/**
 * Character-level helpers: ASCII case folding, PostgreSQL's ILIKE pattern
 * match, decimal rendering of array indices and the UUID text format that
 * the request validators accept.
 */
module Strings {

  /** Lower-case an ASCII letter; every other character is left alone. */
  function LowerChar(c: char): char {
    if 'A' <= c <= 'Z' then (c as int + 32) as char else c
  }

  /** Lower-case a string, character by character. */
  function Lower(s: string): string {
    if s == [] then [] else [LowerChar(s[0])] + Lower(s[1..])
  }

  /** No LIKE wildcard occurs in `p`. */
  predicate NoWildcards(p: string) {
    forall i :: 0 <= i < |p| ==> p[i] != '%' && p[i] != '_'
  }

  /**
   * `t ILIKE p`: `%` matches any run of characters, `_` exactly one, every
   * other pattern character matches itself up to case.
   */
  predicate ILike(t: string, p: string)
    decreases |t| + |p|
  {
    if p == [] then t == []
    else if p[0] == '%' then ILike(t, p[1..]) || (t != [] && ILike(t[1..], p))
    else if p[0] == '_' then t != [] && ILike(t[1..], p[1..])
    else t != [] && LowerChar(t[0]) == LowerChar(p[0]) && ILike(t[1..], p[1..])
  }

  /** A pattern without wildcards matches exactly the texts equal to it up to case. */
  lemma {:induction false} ILikeLiteral(t: string, p: string)
    requires NoWildcards(p)
    ensures ILike(t, p) <==> Lower(t) == Lower(p)
    decreases |p|
  {
    if p == [] {
      assert Lower(p) == [];
      if t != [] { assert |Lower(t)| > 0 by { LowerLength(t); } }
    } else {
      assert NoWildcards(p[1..]) by {
        forall i | 0 <= i < |p[1..]| ensures p[1..][i] != '%' && p[1..][i] != '_' {
          assert p[1..][i] == p[i + 1];
        }
      }
      assert p[0] != '%' && p[0] != '_';
      assert Lower(p) == [LowerChar(p[0])] + Lower(p[1..]);
      if t == [] {
        assert Lower(t) == [];
      } else {
        ILikeLiteral(t[1..], p[1..]);
        assert Lower(t) == [LowerChar(t[0])] + Lower(t[1..]);
        if Lower(t) == Lower(p) {
          assert Lower(t)[0] == Lower(p)[0];
          assert Lower(t)[1..] == Lower(p)[1..];
        }
      }
    }
  }

  lemma {:induction false} LowerLength(s: string)
    ensures |Lower(s)| == |s|
  {
    if s != [] { LowerLength(s[1..]); }
  }

  /** Lower-casing works character by character. */
  lemma {:induction false} LowerAt(s: string, i: nat)
    requires i < |s|
    ensures |Lower(s)| == |s| && Lower(s)[i] == LowerChar(s[i])
  {
    LowerLength(s);
    if i > 0 {
      LowerAt(s[1..], i - 1);
    }
  }

  /** The decimal digit for `d`. */
  function Digit(d: nat): char
    requires d < 10
  {
    "0123456789"[d]
  }

  /** How JavaScript renders an array index used as an object key. */
  function NatToString(n: nat): string
  {
    if n < 10 then [Digit(n)] else NatToString(n / 10) + [Digit(n % 10)]
  }

  predicate IsHex(c: char) {
    '0' <= c <= '9' || 'a' <= c <= 'f' || 'A' <= c <= 'F'
  }

  /** Five hyphen-separated groups of 8, 4, 4, 4 and 12 hexadecimal digits. */
  predicate UuidLayout(s: string) {
    |s| == 36 &&
    forall i :: 0 <= i < |s| ==>
      if i == 8 || i == 13 || i == 18 || i == 23 then s[i] == '-' else IsHex(s[i])
  }

  const NilUuid: string := "00000000-0000-0000-0000-000000000000"
  const MaxUuid: string := "ffffffff-ffff-ffff-ffff-ffffffffffff"

  /**
   * The UUID text accepted by the validators: the RFC 9562 layout with a
   * version digit 1-8 and a variant digit 8, 9, a or b, or the nil or max UUID.
   */
  predicate IsUuid(s: string) {
    s == NilUuid || s == MaxUuid ||
    (UuidLayout(s) && '1' <= s[14] <= '8' && s[19] in {'8', '9', 'a', 'b', 'A', 'B'})
  }
}
