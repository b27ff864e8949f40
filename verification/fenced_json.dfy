/** Extraction of the JSON payload from a model reply that may wrap it in a
    "```json" code fence. Two patterns are in use:
      /```json\s*([\s\S]*?)```/      (new mock interview), the "lazy" capture;
      /```json\s*([\s\S]*?)\s*```/   (custom question set), the "trimmed" capture.
    Each is modelled twice: by what a backtracking matcher selects among all the ways
    the pattern can match (leftmost start, greedy `\s*` longest, lazy capture
    shortest), and by a direct computation; lemmas show the two agree. */
module FencedJson {
  import opened Wrappers
  import opened Text

  const Marker: string := "```json"
  const Fence: string := "```"

  /** A match: the marker at `at`, the capture starting at `start` after the
      whitespace that follows the marker, and the first closing fence at `close`. */
  datatype Match = Match(at: nat, start: nat, close: nat)

  /** One way /```json\s*([\s\S]*?)```/ matches `s`: marker at `p`, whitespace up to
      `c0`, capture `s[c0..c1]`, closing fence at `c1`. */
  predicate LazyChoice(s: string, p: int, c0: int, c1: int) {
    && OccursAt(s, Marker, p)
    && p + |Marker| <= c0 <= c1
    && AllWs(s, p + |Marker|, c0)
    && OccursAt(s, Fence, c1)
  }

  /** One way /```json\s*([\s\S]*?)\s*```/ matches `s`: as above, but the capture
      `s[c0..c1]` is followed by whitespace up to the closing fence at `j`. */
  predicate TrimmedChoice(s: string, p: int, c0: int, c1: int, j: int) {
    && OccursAt(s, Marker, p)
    && p + |Marker| <= c0 <= c1 <= j
    && AllWs(s, p + |Marker|, c0)
    && AllWs(s, c1, j)
    && OccursAt(s, Fence, j)
  }

  /** The way `String.prototype.match` picks: the leftmost start, then the longest
      leading `\s*`, then the shortest lazy capture. */
  ghost predicate LazySelected(s: string, p: int, c0: int, c1: int) {
    && LazyChoice(s, p, c0, c1)
    && (forall p', c0', c1' :: p' < p ==> !LazyChoice(s, p', c0', c1'))
    && (forall c0', c1' :: c0' > c0 ==> !LazyChoice(s, p, c0', c1'))
    && (forall c1' :: c1' < c1 ==> !LazyChoice(s, p, c0, c1'))
  }

  /** As `LazySelected`, then the longest trailing `\s*`. */
  ghost predicate TrimmedSelected(s: string, p: int, c0: int, c1: int, j: int) {
    && TrimmedChoice(s, p, c0, c1, j)
    && (forall p', c0', c1', j' :: p' < p ==> !TrimmedChoice(s, p', c0', c1', j'))
    && (forall c0', c1', j' :: c0' > c0 ==> !TrimmedChoice(s, p, c0', c1', j'))
    && (forall c1', j' :: c1' < c1 ==> !TrimmedChoice(s, p, c0, c1', j'))
    && (forall j' :: j' > j ==> !TrimmedChoice(s, p, c0, c1, j'))
  }

  /** The match attempt at position `p`. */
  function MatchAt(s: string, p: nat): (r: Option<Match>)
    ensures r.Some? ==> r.value.at == p && LazyChoice(s, p, r.value.start, r.value.close)
    ensures r.Some? ==> forall j :: r.value.start <= j < r.value.close ==> !OccursAt(s, Fence, j)
  {
    if OccursAt(s, Marker, p) then
      var c0 := SkipWs(s, p + |Marker|);
      match IndexFrom(s, Fence, c0)
      case Some(k) => Some(Match(p, c0, k))
      case None => None
    else None
  }

  /** The first position at or after `from` where a match attempt succeeds. */
  function FindMatch(s: string, from: nat): (r: Option<Match>)
    ensures r.Some? ==> from <= r.value.at && MatchAt(s, r.value.at) == r
    ensures r.Some? ==> forall p: nat :: from <= p < r.value.at ==> MatchAt(s, p).None?
    ensures r.None? ==> forall p: nat :: from <= p ==> MatchAt(s, p).None?
    decreases |s| - from
  {
    if from + |Marker| > |s| then None
    else
      match MatchAt(s, from)
      case Some(m) => Some(m)
      case None => FindMatch(s, from + 1)
  }

  /** `s.match(/```json\s*([\s\S]*?)```/)?.[1]`. */
  function LazyCapture(s: string): (r: Option<string>)
    ensures r.Some? <==> FindMatch(s, 0).Some?
    // The capture begins where the leading whitespace ends and a fence follows it.
    ensures r.Some? ==> OccursAt(s, r.value, FindMatch(s, 0).value.start)
                        && OccursAt(s, Fence, FindMatch(s, 0).value.start + |r.value|)
  {
    match FindMatch(s, 0)
    case Some(m) => Some(s[m.start..m.close])
    case None => None
  }

  /** `s.match(/```json\s*([\s\S]*?)\s*```/)?.[1]`. */
  function TrimmedCapture(s: string): (r: Option<string>)
    ensures r.Some? <==> LazyCapture(s).Some?
    // It is the lazy capture without its trailing whitespace.
    ensures r.Some? ==> r.value <= LazyCapture(s).value
                        && AllWs(LazyCapture(s).value, |r.value|, |LazyCapture(s).value|)
                        && (r.value == [] || !IsWs(r.value[|r.value| - 1]))
  {
    match FindMatch(s, 0)
    case Some(m) => Some(s[m.start..WsRunStart(s, m.start, m.close)])
    case None => None
  }

  /** `match?.[1]?.trim() || fullResponseText.trim()` (new mock interview). */
  function InterviewPayload(s: string): (r: string)
    ensures IsTrimmed(r)
  {
    match LazyCapture(s)
    case Some(c) => if Trim(c) != "" then Trim(c) else Trim(s)
    case None => Trim(s)
  }

  /** `match && match[1] ? match[1].trim() : fullResponseText.trim()` (custom set). */
  function CustomPayload(s: string): (r: string)
    ensures IsTrimmed(r)
  {
    match TrimmedCapture(s)
    case Some(c) => if c != "" then Trim(c) else Trim(s)
    case None => Trim(s)
  }

  // ---------------------------------------------------------------------------
  // Facts about the marker and the fence.

  lemma FenceNotWs(s: string, j: int)
    requires OccursAt(s, Fence, j)
    ensures s[j] == '`' && !IsWs(s[j])
  {
  }

  lemma MarkerStartsWithFence(s: string, p: int)
    requires OccursAt(s, Marker, p)
    ensures OccursAt(s, Fence, p)
  {
    assert s[p..p + 3] == s[p..p + 7][..3];
  }

  /** Two occurrences of the marker never overlap. */
  lemma MarkersDoNotOverlap(s: string, p: int, q: int)
    requires OccursAt(s, Marker, p) && OccursAt(s, Marker, q) && p < q
    ensures p + |Marker| <= q
  {
    assert s[q..q + 7][0] == s[q] && s[q..q + 7][1] == s[q + 1] && s[q..q + 7][2] == s[q + 2];
    assert s[p..p + 7][3] == s[p + 3] && s[p..p + 7][4] == s[p + 4];
    assert s[p..p + 7][5] == s[p + 5] && s[p..p + 7][6] == s[p + 6];
  }

  /** A fence cannot start inside whitespace, so skipping whitespace does not change
      where the next fence is. */
  lemma IndexSkipsWs(s: string, lo: nat, hi: nat)
    requires lo <= hi <= |s| && AllWs(s, lo, hi)
    ensures IndexFrom(s, Fence, lo) == IndexFrom(s, Fence, hi)
  {
    forall j | lo <= j < hi ensures !OccursAt(s, Fence, j) {
      if OccursAt(s, Fence, j) { FenceNotWs(s, j); }
    }
    match IndexFrom(s, Fence, hi)
    case Some(k) =>
    case None =>
  }

  // ---------------------------------------------------------------------------
  // The computation selects what the matcher selects.

  /** Every way the lazy pattern matches at `p` starts its capture no later than the
      attempt at `p` does, and closes no earlier. */
  lemma LazyChoiceBounds(s: string, p: nat, c0: int, c1: int)
    requires LazyChoice(s, p, c0, c1)
    ensures MatchAt(s, p).Some?
    ensures c0 <= MatchAt(s, p).value.start <= MatchAt(s, p).value.close <= c1
  {
    var e := SkipWs(s, p + |Marker|);
    FenceNotWs(s, c1);
  }

  /** The lazy pattern: the computed match is the one the matcher selects, and
      there is none exactly when no way to match exists. */
  lemma LazyMatchIsSelected(s: string)
    ensures FindMatch(s, 0).Some? ==>
      var m := FindMatch(s, 0).value; LazySelected(s, m.at, m.start, m.close)
    ensures FindMatch(s, 0).None? ==> forall p, c0, c1 :: !LazyChoice(s, p, c0, c1)
  {
    match FindMatch(s, 0)
    case Some(m) =>
      forall p', c0', c1' | p' < m.at ensures !LazyChoice(s, p', c0', c1') {
        if LazyChoice(s, p', c0', c1') { LazyChoiceBounds(s, p', c0', c1'); }
      }
      forall c0', c1' | c0' > m.start ensures !LazyChoice(s, m.at, c0', c1') {
        if LazyChoice(s, m.at, c0', c1') { LazyChoiceBounds(s, m.at, c0', c1'); }
      }
    case None =>
      forall p, c0, c1 ensures !LazyChoice(s, p, c0, c1) {
        if LazyChoice(s, p, c0, c1) { LazyChoiceBounds(s, p, c0, c1); }
      }
  }

  /** The trimmed pattern: its selected match has the same start, the same capture
      start and the same closing fence as the lazy one; its capture ends where the
      whitespace before that fence begins. */
  lemma TrimmedMatchIsSelected(s: string)
    ensures FindMatch(s, 0).Some? ==>
      var m := FindMatch(s, 0).value;
      TrimmedSelected(s, m.at, m.start, WsRunStart(s, m.start, m.close), m.close)
    ensures FindMatch(s, 0).None? ==> forall p, c0, c1, j :: !TrimmedChoice(s, p, c0, c1, j)
  {
    match FindMatch(s, 0)
    case Some(m) =>
      var c1 := WsRunStart(s, m.start, m.close);
      forall p', c0', c1', j' | p' < m.at ensures !TrimmedChoice(s, p', c0', c1', j') {
        if TrimmedChoice(s, p', c0', c1', j') { LazyChoiceBounds(s, p', c0', j'); }
      }
      forall c0', c1', j' | c0' > m.start ensures !TrimmedChoice(s, m.at, c0', c1', j') {
        if TrimmedChoice(s, m.at, c0', c1', j') { LazyChoiceBounds(s, m.at, c0', j'); }
      }
      FenceNotWs(s, m.close);
    case None =>
      forall p, c0, c1, j ensures !TrimmedChoice(s, p, c0, c1, j) {
        if TrimmedChoice(s, p, c0, c1, j) { LazyChoiceBounds(s, p, c0, j); }
      }
  }

  // ---------------------------------------------------------------------------
  // The match described without a matcher: the first marker and the first fence
  // after it.

  /** Reference definition: the first occurrence of the marker, the whitespace after
      it, and the first fence after the marker. */
  function FirstMarkerMatch(s: string): Option<Match> {
    match IndexFrom(s, Marker, 0)
    case None => None
    case Some(p) =>
      match IndexFrom(s, Fence, p + |Marker|)
      case None => None
      case Some(k) => Some(Match(p, SkipWs(s, p + |Marker|), k))
  }

  /** A match exists exactly when the first marker has a fence after it, and then it
      starts at that marker: a later marker can never rescue a first one that has no
      fence after it. */
  lemma FirstMarkerDecides(s: string)
    ensures FindMatch(s, 0) == FirstMarkerMatch(s)
  {
    match FindMatch(s, 0)
    case Some(m) =>
      var q := IndexFrom(s, Marker, 0).value;
      if q < m.at {
        assert MatchAt(s, q).None?;
        IndexSkipsWs(s, q + |Marker|, SkipWs(s, q + |Marker|));
        MarkerStartsWithFence(s, m.at);
        MarkersDoNotOverlap(s, q, m.at);
        assert false;
      }
      IndexSkipsWs(s, m.at + |Marker|, m.start);
    case None =>
      match IndexFrom(s, Marker, 0)
      case None =>
      case Some(q) =>
        IndexSkipsWs(s, q + |Marker|, SkipWs(s, q + |Marker|));
        assert MatchAt(s, q).None?;
  }

  // ---------------------------------------------------------------------------
  // Properties of the payloads.

  /** The captured region never contains a fence: the capture is lazy. */
  lemma CapturesHaveNoFence(s: string)
    ensures LazyCapture(s).Some? ==> forall i :: !OccursAt(LazyCapture(s).value, Fence, i)
    ensures TrimmedCapture(s).Some? ==> forall i :: !OccursAt(TrimmedCapture(s).value, Fence, i)
  {
    match FindMatch(s, 0)
    case Some(m) =>
      var c1 := WsRunStart(s, m.start, m.close);
      forall i ensures !OccursAt(s[m.start..m.close], Fence, i) {
        if OccursAt(s[m.start..m.close], Fence, i) {
          OccursInSlice(s, m.start, m.close, Fence, i);
        }
      }
      forall i ensures !OccursAt(s[m.start..c1], Fence, i) {
        if OccursAt(s[m.start..c1], Fence, i) {
          OccursInSlice(s, m.start, c1, Fence, i);
        }
      }
    case None =>
  }

  /** With a fence after the first marker and something other than whitespace
      between them, the payload is exactly that text, trimmed. */
  lemma FencedInterviewPayload(s: string, p: nat, k: nat)
    requires IndexFrom(s, Marker, 0) == Some(p)
    requires IndexFrom(s, Fence, p + |Marker|) == Some(k)
    requires Trim(s[p + |Marker|..k]) != ""
    ensures InterviewPayload(s) == Trim(s[p + |Marker|..k])
  {
    FirstMarkerDecides(s);
    TrimSkipsLeadingWs(s, p + |Marker|, SkipWs(s, p + |Marker|), k);
  }

  /** Without a fence after the first marker, or with only whitespace between them,
      the payload is the whole reply, trimmed. */
  lemma UnfencedInterviewPayload(s: string)
    requires match FirstMarkerMatch(s)
             case None => true
             case Some(m) => Trim(s[m.at + |Marker|..m.close]) == ""
    ensures InterviewPayload(s) == Trim(s)
  {
    FirstMarkerDecides(s);
    match FirstMarkerMatch(s)
    case None =>
    case Some(m) => TrimSkipsLeadingWs(s, m.at + |Marker|, m.start, m.close);
  }

  /** The payload is a piece of the reply with no whitespace at either end. */
  lemma InterviewPayloadIsTrimmedSubstring(s: string)
    ensures IsTrimmed(InterviewPayload(s)) && IsSubstring(InterviewPayload(s), s)
  {
    TrimIsSubstring(s);
    match FindMatch(s, 0)
    case Some(m) => TrimOfSliceIsSubstring(s, m.start, m.close);
    case None =>
  }

  /** A region that does not start with whitespace trims to the region without its
      trailing whitespace, and that is empty only when the region is. */
  lemma TrimDropsTrailingWs(s: string, e: nat, k: nat)
    requires e <= k <= |s|
    requires e == |s| || !IsWs(s[e])
    ensures Trim(s[e..k]) == s[e..WsRunStart(s, e, k)]
    ensures s[e..WsRunStart(s, e, k)] == [] <==> e == k
  {
    var a := s[e..k];
    var c1 := WsRunStart(s, e, k);
    if e < k {
      assert a[0] == s[e];
      assert c1 > e;
    }
    TrimOfUnpadded(a);
    WsRunStartInSlice(s, e, k, k);
    assert a[..c1 - e] == s[e..c1];
  }

  /** Both patterns, with their different fallback tests, yield the same payload. */
  lemma PayloadVariantsAgree(s: string)
    ensures InterviewPayload(s) == CustomPayload(s)
  {
    match FindMatch(s, 0)
    case Some(m) =>
      var c1 := WsRunStart(s, m.start, m.close);
      TrimDropsTrailingWs(s, m.start, m.close);
      if s[m.start..c1] != [] {
        TrimOfTrimmed(s[m.start..c1]);
      }
    case None =>
  }
}
