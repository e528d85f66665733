/**
 * Sequence and string helpers with the semantics of the Python operations the
 * storage Lambda uses: `x in s` on str and bytes (substring test),
 * `str.startswith`, `str.endswith`, `str.replace(old, new, 1)` and
 * `bytes.lower()`.
 */
module Strings {

  type Bytes = seq<bv8>

  /** `s.startswith(p)`; also the object store's notion of "key under prefix". */
  predicate HasPrefix<T(==)>(s: seq<T>, p: seq<T>) {
    |p| <= |s| && s[..|p|] == p
  }

  /** `s.endswith(p)`. */
  predicate HasSuffix<T(==)>(s: seq<T>, p: seq<T>) {
    |p| <= |s| && s[|s| - |p|..] == p
  }

  /** True when `pat` occurs in `s` at offset `i`. */
  predicate OccursAt<T(==)>(s: seq<T>, pat: seq<T>, i: nat) {
    i + |pat| <= |s| && s[i..i + |pat|] == pat
  }

  /** Python's `pat in s` for str and bytes, scanning from the left. */
  predicate Contains<T(==)>(s: seq<T>, pat: seq<T>)
    decreases |s|
  {
    |pat| <= |s| && (s[..|pat|] == pat || (|s| > 0 && Contains(s[1..], pat)))
  }

  /** The scanning definition agrees with "there is an offset where `pat` occurs". */
  lemma {:induction false} ContainsIff<T>(s: seq<T>, pat: seq<T>)
    ensures Contains(s, pat) <==> exists i: nat :: OccursAt(s, pat, i)
    decreases |s|
  {
    if Contains(s, pat) {
      if s[..|pat|] == pat {
        assert OccursAt(s, pat, 0);
      } else {
        ContainsIff(s[1..], pat);
        var i: nat :| OccursAt(s[1..], pat, i);
        assert s[1..][i..i + |pat|] == s[i + 1..i + 1 + |pat|];
        assert OccursAt(s, pat, i + 1);
      }
    }
    if exists i: nat :: OccursAt(s, pat, i) {
      var i: nat :| OccursAt(s, pat, i);
      if i == 0 {
        assert s[..|pat|] == pat;
      } else {
        assert s[1..][i - 1..i - 1 + |pat|] == s[i..i + |pat|];
        assert OccursAt(s[1..], pat, i - 1);
        ContainsIff(s[1..], pat);
      }
    }
  }

  /**
   * Index of the first occurrence of `pat` in `s`, as `str.find` computes it;
   * the empty pattern is found at 0.
   */
  function FindFirst<T(==)>(s: seq<T>, pat: seq<T>): (r: Option<nat>)
    ensures r.Some? ==> OccursAt(s, pat, r.value)
    ensures r.Some? ==> forall j: nat :: j < r.value ==> !OccursAt(s, pat, j)
    ensures r.None? ==> forall j: nat :: !OccursAt(s, pat, j)
    decreases |s|
  {
    if |s| < |pat| then None
    else if s[..|pat|] == pat then Some(0)
    else
      match FindFirst(s[1..], pat)
      case None =>
        assert forall j: nat :: !OccursAt(s, pat, j) by {
          forall j: nat | OccursAt(s, pat, j) && j > 0 ensures false {
            assert s[1..][j - 1..j - 1 + |pat|] == s[j..j + |pat|];
            assert OccursAt(s[1..], pat, j - 1);
          }
        }
        None
      case Some(i) =>
        assert s[1..][i..i + |pat|] == s[i + 1..i + 1 + |pat|];
        assert forall j: nat :: 0 < j < i + 1 ==> !OccursAt(s, pat, j) by {
          forall j: nat | 0 < j < i + 1 ensures !OccursAt(s, pat, j) {
            if OccursAt(s, pat, j) {
              assert s[1..][j - 1..j - 1 + |pat|] == s[j..j + |pat|];
              assert OccursAt(s[1..], pat, j - 1);
            }
          }
        }
        Some(i + 1)
  }

  datatype Option<+T> = None | Some(value: T)

  /** Python's `s.replace(pat, rep, 1)`: only the first occurrence is replaced. */
  function ReplaceFirst<T(==)>(s: seq<T>, pat: seq<T>, rep: seq<T>): (r: seq<T>)
    ensures !Contains(s, pat) ==> r == s
    ensures Contains(s, pat) ==> |r| == |s| - |pat| + |rep|
    ensures forall i: nat :: OccursAt(s, pat, i) && (forall j: nat :: j < i ==> !OccursAt(s, pat, j)) ==>
      r == s[..i] + rep + s[i + |pat|..]
  {
    ContainsIff(s, pat);
    match FindFirst(s, pat)
    case None => s
    case Some(i) => s[..i] + rep + s[i + |pat|..]
  }

  /** A string that starts with `pat` has its first occurrence at the front. */
  lemma ReplaceFirstAtPrefix<T>(s: seq<T>, pat: seq<T>, rep: seq<T>)
    requires HasPrefix(s, pat)
    ensures ReplaceFirst(s, pat, rep) == rep + s[|pat|..]
  {
    assert OccursAt(s, pat, 0);
  }

  /**
   * Rewriting the front `from` to `to` and then the front `to` back to `from`
   * gives the original string: the backup and restore key rewrites are
   * mutual inverses on keys under the rewritten prefix.
   */
  lemma ReplaceFirstRoundTrip<T>(s: seq<T>, from: seq<T>, to: seq<T>)
    requires HasPrefix(s, from)
    ensures HasPrefix(ReplaceFirst(s, from, to), to)
    ensures ReplaceFirst(ReplaceFirst(s, from, to), to, from) == s
  {
    ReplaceFirstAtPrefix(s, from, to);
    var t := to + s[|from|..];
    assert t[..|to|] == to;
    ReplaceFirstAtPrefix(t, to, from);
    assert t[|to|..] == s[|from|..];
    assert s == s[..|from|] + s[|from|..];
  }

  /** Python's `bytes.lower()` on one byte: ASCII A-Z only. */
  function LowerByte(b: bv8): (r: bv8)
    ensures 0x41 <= b <= 0x5A ==> r == b + 0x20
    ensures !(0x41 <= b <= 0x5A) ==> r == b
  {
    if 0x41 <= b <= 0x5A then b + 0x20 else b
  }

  /**
   * Python's `bytes.lower()`: no upper-case ASCII letter is left, each one
   * becomes its lower-case letter, and every other byte is kept.
   */
  function AsciiLower(s: Bytes): (r: Bytes)
    ensures |r| == |s|
    ensures forall i :: 0 <= i < |r| ==> !(0x41 <= r[i] <= 0x5A)
    ensures forall i :: 0 <= i < |s| ==> (r[i] != s[i] <==> 0x41 <= s[i] <= 0x5A)
    ensures forall i :: 0 <= i < |s| && 0x41 <= s[i] <= 0x5A ==> r[i] == s[i] + 0x20
  {
    seq(|s|, i requires 0 <= i < |s| => LowerByte(s[i]))
  }

  /** Lowering is idempotent, so a lowered buffer is its own lower-case form. */
  lemma AsciiLowerIdempotent(s: Bytes)
    ensures AsciiLower(AsciiLower(s)) == AsciiLower(s)
  {
    var l := AsciiLower(s);
    forall i | 0 <= i < |s| ensures AsciiLower(l)[i] == l[i] {
      assert !(0x41 <= l[i] <= 0x5A);
    }
  }

  /** The bytes of an ASCII literal such as `b'<html'`. */
  function Ascii(s: string): (r: Bytes)
    requires forall i :: 0 <= i < |s| ==> s[i] as int < 128
    ensures |r| == |s|
    ensures forall i :: 0 <= i < |s| ==> r[i] == s[i] as bv8
  {
    seq(|s|, i requires 0 <= i < |s| => s[i] as bv8)
  }
}
