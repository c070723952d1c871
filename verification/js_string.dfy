/**
 * The two pieces of ECMAScript string semantics the relay relies on: truthiness
 * of a string and `String.prototype.trim` (section 22.1.3.32 of ECMA-262), which
 * strips the WhiteSpace and LineTerminator code points (sections 12.2 and 12.3).
 */
module JsString {

  /** A string is truthy exactly when it is not empty. */
  predicate Truthy(s: string) {
    |s| > 0
  }

  /** The code points `trim` removes: WhiteSpace (TAB, VT, FF, ZWNBSP and the
      Unicode Zs category) and LineTerminator (LF, CR, LS, PS). */
  predicate IsTrimmable(c: char) {
    var n := c as int;
    || n == 0x09 || n == 0x0A || n == 0x0B || n == 0x0C || n == 0x0D
    || n == 0x20 || n == 0xA0 || n == 0x1680
    || (0x2000 <= n <= 0x200A)
    || n == 0x2028 || n == 0x2029 || n == 0x202F || n == 0x205F
    || n == 0x3000 || n == 0xFEFF
  }

  /** Scanning forward from `from`: the index of the first non-trimmable
      character, `|s|` if there is none. */
  function Leading(s: string, from: nat): (i: nat)
    requires from <= |s|
    ensures from <= i <= |s|
    ensures forall k :: from <= k < i ==> IsTrimmable(s[k])
    ensures i < |s| ==> !IsTrimmable(s[i])
    decreases |s| - from
  {
    if from < |s| && IsTrimmable(s[from]) then Leading(s, from + 1) else from
  }

  /** Scanning backward from `hi` down to `lo`: the index just past the last
      non-trimmable character, `lo` if there is none. */
  function Trailing(s: string, lo: nat, hi: nat): (j: nat)
    requires lo <= hi <= |s|
    ensures lo <= j <= hi
    ensures forall k :: j <= k < hi ==> IsTrimmable(s[k])
    ensures j > lo ==> !IsTrimmable(s[j - 1])
    decreases hi
  {
    if lo < hi && IsTrimmable(s[hi - 1]) then Trailing(s, lo, hi - 1) else hi
  }

  /** `s.trim()`. */
  function Trim(s: string): string {
    var i := Leading(s, 0);
    s[i..Trailing(s, i, |s|)]
  }

  /** `r` sits at offset `i` of `s` and only trimmable characters surround it. */
  ghost predicate SurroundedByTrimmable(s: string, i: int, r: string) {
    && 0 <= i <= |s| - |r|
    && r == s[i..i + |r|]
    && (forall k :: 0 <= k < i ==> IsTrimmable(s[k]))
    && (forall k :: i + |r| <= k < |s| ==> IsTrimmable(s[k]))
  }

  /** `trim()` leaves the infix of `s` between trimmable ends, and that infix
      starts and ends with a non-trimmable character unless it is empty. */
  lemma TrimSpec(s: string)
    ensures exists i :: SurroundedByTrimmable(s, i, Trim(s))
    ensures |Trim(s)| > 0 ==> !IsTrimmable(Trim(s)[0]) && !IsTrimmable(Trim(s)[|Trim(s)| - 1])
  {
    var i := Leading(s, 0);
    var j := Trailing(s, i, |s|);
    assert Trim(s) == s[i..j];
    assert SurroundedByTrimmable(s, i, Trim(s));
  }

  /** A string trims to nothing exactly when every character is trimmable. */
  lemma TrimBlankIff(s: string)
    ensures Trim(s) == [] <==> forall k :: 0 <= k < |s| ==> IsTrimmable(s[k])
  {
    var i := Leading(s, 0);
    var j := Trailing(s, i, |s|);
    if Trim(s) != [] {
      assert s[i] == Trim(s)[0];
    }
  }

  /** Trimming twice is trimming once. */
  lemma TrimIdempotent(s: string)
    ensures Trim(Trim(s)) == Trim(s)
  {
    var r := Trim(s);
    TrimSpec(s);
    assert Leading(r, 0) == 0;
    assert Trailing(r, 0, |r|) == |r|;
  }
}
