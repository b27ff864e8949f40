/** String primitives of the JavaScript runtime that the handlers rely on:
    `String.prototype.includes` and `trim`, and the whitespace class `\s`. `IndexFrom`
    is the search behind `includes` and behind the regular-expression scans. */
module Text {
  import opened Wrappers

  /** WhiteSpace (section 12.2 of ECMA-262) and LineTerminator (section 12.3) code
      points. Both the regular-expression class `\s` and `String.prototype.trim`
      use exactly this set: TAB, VT, FF, SP, NBSP, ZWNBSP, the other space separators
      of Unicode category Zs, and LF, CR, LS, PS. */
  const WsChars: set<char> := {'\U{9}', '\U{B}', '\U{C}', ' ', '\U{A0}', '\U{FEFF}', '\U{1680}',
    '\U{2000}', '\U{2001}', '\U{2002}', '\U{2003}', '\U{2004}', '\U{2005}', '\U{2006}',
    '\U{2007}', '\U{2008}', '\U{2009}', '\U{200A}', '\U{202F}', '\U{205F}', '\U{3000}',
    '\n', '\r', '\U{2028}', '\U{2029}'}

  predicate IsWs(c: char) {
    c in WsChars
  }

  /** Every character of `s` with an index in [lo, hi) is whitespace. */
  predicate AllWs(s: string, lo: int, hi: int) {
    forall i :: lo <= i < hi && 0 <= i < |s| ==> IsWs(s[i])
  }

  /** `pat` occurs in `s` starting at index `i`. */
  predicate OccursAt(s: string, pat: string, i: int) {
    0 <= i && i + |pat| <= |s| && s[i..i + |pat|] == pat
  }

  /** `s.indexOf(pat, from)`: the first occurrence of `pat` at or after `from`. */
  function IndexFrom(s: string, pat: string, from: nat): (r: Option<nat>)
    ensures r.Some? ==> from <= r.value && OccursAt(s, pat, r.value)
    ensures r.Some? ==> forall j :: from <= j < r.value ==> !OccursAt(s, pat, j)
    ensures r.None? ==> forall j :: from <= j ==> !OccursAt(s, pat, j)
    decreases |s| - from
  {
    if from + |pat| > |s| then None
    else if s[from..from + |pat|] == pat then Some(from)
    else IndexFrom(s, pat, from + 1)
  }

  /** The last index of `c` in `s[..hi]`. */
  function LastIndexBefore(s: string, c: char, hi: nat): (r: Option<nat>)
    requires hi <= |s|
    ensures r.Some? ==> r.value < hi && s[r.value] == c
    ensures r.Some? ==> forall j :: r.value < j < hi ==> s[j] != c
    ensures r.None? ==> forall j :: 0 <= j < hi ==> s[j] != c
  {
    if hi == 0 then None
    else if s[hi - 1] == c then Some(hi - 1)
    else LastIndexBefore(s, c, hi - 1)
  }

  /** A one-character pattern occurs exactly where that character is. */
  lemma OccursAtChar(s: string, c: char, i: int)
    ensures OccursAt(s, [c], i) <==> 0 <= i < |s| && s[i] == c
  {
  }

  /** `s.includes(pat)`. */
  predicate Contains(s: string, pat: string) {
    IndexFrom(s, pat, 0).Some?
  }

  lemma ContainsMeansOccurs(s: string, pat: string)
    ensures Contains(s, pat) <==> exists j :: OccursAt(s, pat, j)
  {
  }

  /** The end of the run of whitespace that starts at `i`. */
  function SkipWs(s: string, i: nat): (r: nat)
    requires i <= |s|
    ensures i <= r <= |s|
    ensures AllWs(s, i, r)
    ensures r == |s| || !IsWs(s[r])
    decreases |s| - i
  {
    if i < |s| && IsWs(s[i]) then SkipWs(s, i + 1) else i
  }

  /** The start of the run of whitespace that ends at `hi`, not going below `lo`. */
  function WsRunStart(s: string, lo: nat, hi: nat): (r: nat)
    requires lo <= hi <= |s|
    ensures lo <= r <= hi
    ensures AllWs(s, r, hi)
    ensures r == lo || !IsWs(s[r - 1])
    decreases hi
  {
    if lo < hi && IsWs(s[hi - 1]) then WsRunStart(s, lo, hi - 1) else hi
  }

  /** A string with no leading and no trailing whitespace. */
  predicate IsTrimmed(t: string) {
    t == [] || (!IsWs(t[0]) && !IsWs(t[|t| - 1]))
  }

  /** `t` occurs somewhere inside `s`. */
  ghost predicate IsSubstring(t: string, s: string) {
    exists i :: OccursAt(s, t, i)
  }

  /** The bounds [a, b) that `trim` keeps. */
  function TrimBounds(s: string): (ab: (nat, nat))
    ensures ab.0 <= ab.1 <= |s|
    ensures AllWs(s, 0, ab.0) && AllWs(s, ab.1, |s|)
    ensures ab.0 < ab.1 ==> !IsWs(s[ab.0]) && !IsWs(s[ab.1 - 1])
  {
    var a := SkipWs(s, 0);
    (a, WsRunStart(s, a, |s|))
  }

  /** `s.trim()`: removes leading and trailing whitespace. */
  function Trim(s: string): (r: string)
    ensures IsTrimmed(r)
    ensures |r| <= |s|
  {
    var (a, b) := TrimBounds(s);
    s[a..b]
  }

  /** What `trim` returns is a piece of its input. */
  lemma TrimIsSubstring(s: string)
    ensures IsSubstring(Trim(s), s)
  {
    var (a, b) := TrimBounds(s);
    assert OccursAt(s, s[a..b], a);
  }

  /** Any split of `s` into whitespace, a trimmed middle and whitespace determines
      `Trim(s)`: the middle is what `trim` returns. */
  lemma TrimUnique(s: string, a: nat, b: nat)
    requires a <= b <= |s|
    requires AllWs(s, 0, a) && AllWs(s, b, |s|)
    requires a < b ==> !IsWs(s[a]) && !IsWs(s[b - 1])
    ensures Trim(s) == s[a..b]
  {
  }

  /** A trimmed string is its own trim. */
  lemma TrimOfTrimmed(t: string)
    requires IsTrimmed(t)
    ensures Trim(t) == t
  {
  }

  /** Trimming is idempotent. */
  lemma TrimIdempotent(s: string)
    ensures Trim(Trim(s)) == Trim(s)
  {
    TrimOfTrimmed(Trim(s));
  }

  /** Whitespace-only strings trim to "" and nothing else does. */
  lemma TrimEmptyIffAllWs(s: string)
    ensures Trim(s) == [] <==> AllWs(s, 0, |s|)
  {
  }

  /** An occurrence inside a slice is an occurrence in the whole string. */
  lemma OccursInSlice(s: string, lo: nat, hi: nat, t: string, i: int)
    requires lo <= hi <= |s|
    requires OccursAt(s[lo..hi], t, i)
    ensures OccursAt(s, t, lo + i)
  {
    var u := s[lo..hi];
    forall k | 0 <= k < |t| ensures s[lo + i + k] == t[k] {
      assert u[i..i + |t|][k] == t[k];
      assert u[i + k] == s[lo + i + k];
    }
    assert s[lo + i..lo + i + |t|] == t;
  }

  /** A trim of a slice of `s` is a substring of `s`. */
  lemma TrimOfSliceIsSubstring(s: string, lo: nat, hi: nat)
    requires lo <= hi <= |s|
    ensures IsSubstring(Trim(s[lo..hi]), s)
  {
    TrimIsSubstring(s[lo..hi]);
    var i :| OccursAt(s[lo..hi], Trim(s[lo..hi]), i);
    OccursInSlice(s, lo, hi, Trim(s[lo..hi]), i);
  }

  /** Whitespace in front of a slice does not change its trim. */
  lemma TrimSkipsLeadingWs(s: string, lo: nat, e: nat, hi: nat)
    requires lo <= e <= hi <= |s|
    requires AllWs(s, lo, e)
    ensures Trim(s[lo..hi]) == Trim(s[e..hi])
  {
  }

  /** The whitespace run before `h` is found at the same place in a slice. */
  lemma WsRunStartInSlice(s: string, e: nat, h: nat, k: nat)
    requires e <= h <= k <= |s|
    ensures WsRunStart(s[e..k], 0, h - e) == WsRunStart(s, e, h) - e
  {
  }

  /** A string that does not start with whitespace trims to itself without its
      trailing whitespace. */
  lemma TrimOfUnpadded(t: string)
    requires t == [] || !IsWs(t[0])
    ensures Trim(t) == t[..WsRunStart(t, 0, |t|)]
  {
  }
}
