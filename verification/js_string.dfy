/** `String.prototype.trim` as the ECMAScript language specification defines it:
    strip every leading and trailing code point that is a WhiteSpace or a
    LineTerminator, keep everything in between untouched. */
module JsString {

  /** WhiteSpace (TAB, VT, FF, ZWNBSP and the Unicode category Zs) and
      LineTerminator (LF, CR, LS, PS) code points, by code point number. */
  const TrimmableCodePoints: set<int> := {
    // WhiteSpace: TAB, VT, FF, ZWNBSP
    0x0009, 0x000B, 0x000C, 0xFEFF,
    // WhiteSpace: category Zs
    0x0020, 0x00A0, 0x1680,
    0x2000, 0x2001, 0x2002, 0x2003, 0x2004, 0x2005,
    0x2006, 0x2007, 0x2008, 0x2009, 0x200A,
    0x202F, 0x205F, 0x3000,
    // LineTerminator: LF, CR, LS, PS
    0x000A, 0x000D, 0x2028, 0x2029
  }

  predicate IsTrimmable(c: char) {
    c as int in TrimmableCodePoints
  }

  /** Every code point of `s` at an index in [lo, hi) is trimmable. */
  predicate TrimmableBetween(s: string, lo: int, hi: int) {
    forall k :: lo <= k < hi && 0 <= k < |s| ==> IsTrimmable(s[k])
  }

  /** Every code point of `s` is trimmable. */
  predicate AllTrimmable(s: string) {
    TrimmableBetween(s, 0, |s|)
  }

  /** `s` neither starts nor ends with a trimmable code point. */
  predicate IsTrimmed(s: string) {
    s == [] || (!IsTrimmable(s[0]) && !IsTrimmable(s[|s| - 1]))
  }

  /** Scanning forward from `i`, the index of the first code point that is
      not trimmable, or `|s|` when there is none. */
  function SkipLeading(s: string, i: nat): (k: nat)
    requires i <= |s|
    ensures i <= k <= |s|
    ensures TrimmableBetween(s, i, k)
    ensures k == |s| || !IsTrimmable(s[k])
    decreases |s| - i
  {
    if i < |s| && IsTrimmable(s[i]) then SkipLeading(s, i + 1) else i
  }

  /** Scanning backward from `j` down to `lo`, the index just past the last
      code point that is not trimmable, or `lo` when there is none. */
  function SkipTrailing(s: string, lo: nat, j: nat): (k: nat)
    requires lo <= j <= |s|
    ensures lo <= k <= j
    ensures TrimmableBetween(s, k, j)
    ensures k == lo || !IsTrimmable(s[k - 1])
    decreases j - lo
  {
    if lo < j && IsTrimmable(s[j - 1]) then SkipTrailing(s, lo, j - 1) else j
  }

  /** `String.prototype.trim`. */
  function Trim(s: string): (r: string)
    ensures IsTrimmed(r)
    ensures r == [] <==> AllTrimmable(s)
    ensures exists i, j :: 0 <= i <= j <= |s| && r == s[i..j]
                        && TrimmableBetween(s, 0, i) && TrimmableBetween(s, j, |s|)
  {
    var i := SkipLeading(s, 0);
    var j := SkipTrailing(s, i, |s|);
    assert i < j ==> s[i..j][0] == s[i] && s[i..j][j - i - 1] == s[j - 1];
    s[i..j]
  }

  /** Trim is characterised independently of how it is computed: whenever
      `s` splits into a trimmable prefix, a trimmed middle and a trimmable
      suffix, Trim returns that middle. */
  lemma TrimUnique(p: string, m: string, q: string)
    requires AllTrimmable(p) && AllTrimmable(q) && IsTrimmed(m)
    ensures Trim(p + m + q) == m
  {
    var s := p + m + q;
    var i := SkipLeading(s, 0);
    var j := SkipTrailing(s, i, |s|);
    assert forall k :: 0 <= k < |p| ==> s[k] == p[k];
    assert forall k :: 0 <= k < |m| ==> s[|p| + k] == m[k];
    assert forall k :: 0 <= k < |q| ==> s[|p| + |m| + k] == q[k];
    if m == [] {
      assert AllTrimmable(s);
    } else {
      assert i == |p|;
      assert j == |p| + |m|;
      assert s[i..j] == m;
    }
  }

  /** Trimming twice is trimming once. */
  lemma TrimIdempotent(s: string)
    ensures Trim(Trim(s)) == Trim(s)
  {
  }
}
