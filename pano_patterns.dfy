/**
  The regular expressions that find a PanoID in a Street View URL or in a page's source, as a
  scanner over strings. Every pattern is a literal prefix followed by a captured run of id
  characters [a-zA-Z0-9_-] of some minimum length, optionally closed by a double quote; the
  ninth pattern of the extractor class is the cbp= parameter list whose panoid comes after five
  comma-separated digit groups. The functions follow Python's re semantics for these shapes:
  search takes the leftmost position that matches, a greedy run is as long as possible, findall
  collects non-overlapping matches left to right, and max(key=len) keeps the first of the longest.
 */
module PanoPatterns {
  import opened Wrappers

  /** A character of the class [a-zA-Z0-9_-]. */
  predicate IsIdChar(c: char) {
    'a' <= c <= 'z' || 'A' <= c <= 'Z' || '0' <= c <= '9' || c == '_' || c == '-'
  }

  /** A character matched by \d (ASCII digits only in this model). */
  predicate IsDigit(c: char) {
    '0' <= c <= '9'
  }

  /** The literal lit occurs in s at position p. */
  predicate HasAt(s: string, p: nat, lit: string) {
    p + |lit| <= |s| && s[p..p + |lit|] == lit
  }

  /** Length of the maximal run of id characters that starts at i. */
  function RunLength(s: string, i: nat): (n: nat)
    requires i <= |s|
    ensures i + n <= |s|
    ensures forall k :: i <= k < i + n ==> IsIdChar(s[k])
    ensures i + n == |s| || !IsIdChar(s[i + n])
    decreases |s| - i
  {
    if i < |s| && IsIdChar(s[i]) then 1 + RunLength(s, i + 1) else 0
  }

  /** Length of the maximal run of digits that starts at i. */
  function DigitRun(s: string, i: nat): (n: nat)
    requires i <= |s|
    ensures i + n <= |s|
    ensures forall k :: i <= k < i + n ==> IsDigit(s[k])
    ensures i + n == |s| || !IsDigit(s[i + n])
    decreases |s| - i
  {
    if i < |s| && IsDigit(s[i]) then 1 + DigitRun(s, i + 1) else 0
  }

  /**
    The two shapes of pattern. Prefixed(prefix, minLen, quoted) is prefix([a-zA-Z0-9_-]{minLen,})
    followed by a double quote when quoted; a `+` in the source is minLen 1. Cbp is
    cbp=\d+,\d+,\d+,\d+,\d+&amp;panoid=([a-zA-Z0-9_-]{20,}).
   */
  datatype Pattern =
    | Prefixed(prefix: string, minLen: nat, quoted: bool)
    | Cbp

  /** A match: where it begins, where the captured id begins, the id's length, where it ends. */
  datatype Match = Match(pos: nat, start: nat, len: nat, end: nat)

  predicate Fits(s: string, m: Match) {
    m.pos <= m.start && m.start + m.len <= m.end <= |s|
  }

  /** Group 1 of a match: the PanoID it captured. */
  function Capture(s: string, m: Match): (id: string)
    requires Fits(s, m)
    ensures |id| == m.len
  {
    s[m.start..m.start + m.len]
  }

  /** A pattern whose every match consumes at least one character, so findall moves forward. */
  predicate Advances(pat: Pattern) {
    pat.Cbp? || |pat.prefix| > 0
  }

  /** prefix(run{minLen,}) anchored at p, with the closing quote when quoted. */
  function PrefixedAt(s: string, p: nat, prefix: string, minLen: nat, quoted: bool): (r: Option<Match>)
    ensures r.Some? ==> r.value.pos == p && r.value.start == p + |prefix| && Fits(s, r.value)
    ensures r.Some? ==> r.value.end == r.value.start + r.value.len + (if quoted then 1 else 0)
  {
    if HasAt(s, p, prefix) then
      var st := p + |prefix|;
      var n := RunLength(s, st);
      if minLen <= n && (!quoted || HasAt(s, st + n, "\"")) then
        Some(Match(p, st, n, st + n + (if quoted then 1 else 0)))
      else None
    else None
  }

  /**
    k comma-separated \d+ groups starting at i; the position after the last group. Only the
    maximal digit run can be followed by ',' or '&', neither of which is a digit, so the
    backtracking of the regex engine finds no other way through.
   */
  function DigitGroups(s: string, i: nat, k: nat): (r: Option<nat>)
    requires i <= |s| && 1 <= k
    ensures r.Some? ==> i < r.value <= |s|
    decreases k
  {
    var n := DigitRun(s, i);
    if n == 0 then None
    else if k == 1 then Some(i + n)
    else if HasAt(s, i + n, ",") then DigitGroups(s, i + n + 1, k - 1)
    else None
  }

  /** The panoid= pattern, which is also the tail of the cbp= pattern after its "&amp;". */
  const PanoidParam: Pattern := Prefixed("panoid=", 20, false)

  /** Where the panoid= part of a cbp= parameter list that starts at p begins. */
  function CbpTail(s: string, p: nat): (q: Option<nat>)
    ensures q.Some? ==> p < q.value <= |s|
  {
    if HasAt(s, p, "cbp=") then
      match DigitGroups(s, p + 4, 5)
      case None => None
      case Some(g) => if HasAt(s, g, "&amp;") then Some(g + 5) else None
    else None
  }

  /** A match of pat anchored at p (Python's pattern.match(s, p)). */
  function MatchAt(s: string, p: nat, pat: Pattern): (r: Option<Match>)
    ensures r.Some? ==> r.value.pos == p && Fits(s, r.value)
    ensures r.Some? && Advances(pat) ==> p < r.value.end
  {
    match pat
    case Prefixed(prefix, minLen, quoted) => PrefixedAt(s, p, prefix, minLen, quoted)
    case Cbp =>
      match CbpTail(s, p)
      case None => None
      case Some(q) =>
        match PrefixedAt(s, q, "panoid=", 20, false)
        case Some(m) => Some(Match(p, m.start, m.len, m.end))
        case None => None
  }

  /** The conditions under which prefix followed by n id characters matches at p. */
  ghost predicate Accepts(s: string, p: nat, prefix: string, minLen: nat, quoted: bool, n: nat) {
    HasAt(s, p, prefix) && minLen <= n && p + |prefix| + n <= |s|
    && (forall k :: p + |prefix| <= k < p + |prefix| + n ==> IsIdChar(s[k]))
    && (!quoted || HasAt(s, p + |prefix| + n, "\""))
  }

  /** A run of n id characters from i lies inside the maximal run. */
  lemma {:induction false} RunCovers(s: string, i: nat, n: nat)
    requires i + n <= |s|
    requires forall k :: i <= k < i + n ==> IsIdChar(s[k])
    ensures n <= RunLength(s, i)
    decreases n
  {
    if n > 0 {
      RunCovers(s, i + 1, n - 1);
    }
  }

  /**
    Greediness: the pattern matches at p exactly when some length is accepted there, and the
    captured length is the largest accepted one (for a quoted pattern the only one).
   */
  lemma PrefixedGreedy(s: string, p: nat, prefix: string, minLen: nat, quoted: bool)
    ensures PrefixedAt(s, p, prefix, minLen, quoted).Some? <==> exists n: nat :: Accepts(s, p, prefix, minLen, quoted, n)
    ensures PrefixedAt(s, p, prefix, minLen, quoted).Some? ==>
      var m := PrefixedAt(s, p, prefix, minLen, quoted).value;
      Accepts(s, p, prefix, minLen, quoted, m.len)
      && forall n: nat :: Accepts(s, p, prefix, minLen, quoted, n) ==> n <= m.len && (quoted ==> n == m.len)
  {
    var r := PrefixedAt(s, p, prefix, minLen, quoted);
    forall n: nat | Accepts(s, p, prefix, minLen, quoted, n)
      ensures r.Some? && n <= r.value.len && (quoted ==> n == r.value.len)
    {
      var st := p + |prefix|;
      RunCovers(s, st, n);
      var run := RunLength(s, st);
      if quoted {
        assert s[st + n] == '"';
        assert n == run;
      }
    }
    if r.Some? {
      assert Accepts(s, p, prefix, minLen, quoted, r.value.len);
    }
  }

  /** The least length of the id a pattern captures. */
  function MinLen(pat: Pattern): nat {
    if pat.Cbp? then 20 else pat.minLen
  }

  /** id is a run of at least n id characters. */
  predicate IsId(id: string, n: nat) {
    n <= |id| && forall k :: 0 <= k < |id| ==> IsIdChar(id[k])
  }

  /** The capture of a prefixed match: a maximal run of at least minLen id characters right
      after the prefix, followed by the quote when one is due. */
  lemma PrefixedShape(s: string, p: nat, prefix: string, minLen: nat, quoted: bool)
    requires PrefixedAt(s, p, prefix, minLen, quoted).Some?
    ensures var m := PrefixedAt(s, p, prefix, minLen, quoted).value;
      && IsId(Capture(s, m), minLen)
      && (m.start + m.len == |s| || !IsIdChar(s[m.start + m.len]))
      && HasAt(s, p, prefix)
      && (quoted ==> HasAt(s, m.start + m.len, "\""))
  {
    var m := PrefixedAt(s, p, prefix, minLen, quoted).value;
    var id := Capture(s, m);
    forall k | 0 <= k < |id| ensures IsIdChar(id[k]) {
      assert id[k] == s[m.start + k];
    }
  }

  /** What a match captures: an id of at least the pattern's minimum length, right after its
      prefix, not followed by another id character, and followed by the quote when one is due. */
  lemma CaptureShape(s: string, p: nat, pat: Pattern)
    requires MatchAt(s, p, pat).Some?
    ensures IsId(Capture(s, MatchAt(s, p, pat).value), MinLen(pat))
    ensures var m := MatchAt(s, p, pat).value;
      && (m.start + m.len == |s| || !IsIdChar(s[m.start + m.len]))
      && (pat.Prefixed? ==> m.start == p + |pat.prefix| && HasAt(s, p, pat.prefix))
      && (pat.Prefixed? && pat.quoted ==> HasAt(s, m.start + m.len, "\""))
  {
    if pat.Cbp? {
      CbpShape(s, p);
    } else {
      PrefixedPatternShape(s, p, pat);
    }
  }

  /** CaptureShape for a prefixed pattern, read through MatchAt. */
  lemma PrefixedPatternShape(s: string, p: nat, pat: Pattern)
    requires pat.Prefixed? && MatchAt(s, p, pat).Some?
    ensures var m := MatchAt(s, p, pat).value;
      && IsId(Capture(s, m), pat.minLen)
      && (m.start + m.len == |s| || !IsIdChar(s[m.start + m.len]))
      && m.start == p + |pat.prefix| && HasAt(s, p, pat.prefix)
      && (pat.quoted ==> HasAt(s, m.start + m.len, "\""))
  {
    PrefixedShape(s, p, pat.prefix, pat.minLen, pat.quoted);
  }

  /** The capture of a cbp= match is that of the panoid= match inside it. */
  lemma CbpShape(s: string, p: nat)
    requires MatchAt(s, p, Cbp).Some?
    ensures var m := MatchAt(s, p, Cbp).value;
      && IsId(Capture(s, m), 20)
      && (m.start + m.len == |s| || !IsIdChar(s[m.start + m.len]))
  {
    var q := CbpTail(s, p).value;
    var m := PrefixedAt(s, q, "panoid=", 20, false).value;
    assert MatchAt(s, p, Cbp) == Some(Match(p, m.start, m.len, m.end));
    PrefixedShape(s, q, "panoid=", 20, false);
  }

  /** The cbp= pattern matches only where the panoid= pattern also matches, capturing the same id. */
  lemma CbpContainsPanoid(s: string, p: nat)
    requires MatchAt(s, p, Cbp).Some?
    ensures exists q :: (p < q <= |s| && MatchAt(s, q, PanoidParam).Some?
      && Capture(s, MatchAt(s, q, PanoidParam).value) == Capture(s, MatchAt(s, p, Cbp).value))
  {
    var q := CbpTail(s, p).value;
    var m := PrefixedAt(s, q, "panoid=", 20, false).value;
    assert MatchAt(s, p, Cbp) == Some(Match(p, m.start, m.len, m.end));
    assert MatchAt(s, q, PanoidParam) == Some(m);
  }

  /** pattern.search(s, pos): the match at the leftmost position from pos on. */
  function SearchFrom(s: string, pos: nat, pat: Pattern): (r: Option<Match>)
    ensures r.Some? ==> pos <= r.value.pos <= |s| && MatchAt(s, r.value.pos, pat) == r
    ensures r.Some? ==> forall q :: pos <= q < r.value.pos ==> MatchAt(s, q, pat).None?
    ensures r.None? ==> forall q :: pos <= q <= |s| ==> MatchAt(s, q, pat).None?
    decreases |s| + 1 - pos
  {
    if pos > |s| then None
    else
      var here := MatchAt(s, pos, pat);
      if here.Some? then here else SearchFrom(s, pos + 1, pat)
  }

  function Search(s: string, pat: Pattern): (r: Option<Match>)
    ensures r.Some? <==> exists q :: 0 <= q <= |s| && MatchAt(s, q, pat).Some?
    ensures r.Some? ==> MatchAt(s, r.value.pos, pat) == r
    ensures r.Some? ==> forall q :: 0 <= q < r.value.pos ==> MatchAt(s, q, pat).None?
  {
    var r := SearchFrom(s, 0, pat);
    if r.Some? then assert MatchAt(s, r.value.pos, pat).Some?; r else r
  }

  /** Group 1 of the first pattern, in list order, that has a match anywhere in s. */
  function FirstSearch(s: string, pats: seq<Pattern>): (r: Option<string>)
    decreases |pats|
  {
    if pats == [] then None
    else match Search(s, pats[0])
      case Some(m) => Some(Capture(s, m))
      case None => FirstSearch(s, pats[1..])
  }

  /** Position in pats of the first pattern with a match in s; |pats| when there is none. */
  function FirstMatchIndex(s: string, pats: seq<Pattern>): (i: nat)
    ensures i <= |pats|
    ensures i < |pats| ==> Search(s, pats[i]).Some?
    ensures forall j :: 0 <= j < i ==> Search(s, pats[j]).None?
    decreases |pats|
  {
    if pats == [] then 0
    else if Search(s, pats[0]).Some? then 0
    else 1 + FirstMatchIndex(s, pats[1..])
  }

  /** The first pattern wins: the result is the capture of the first pattern with a match, and
      None exactly when no pattern matches. */
  lemma {:induction false} FirstSearchSpec(s: string, pats: seq<Pattern>)
    ensures FirstSearch(s, pats) ==
      var i := FirstMatchIndex(s, pats);
      if i < |pats| then Some(Capture(s, Search(s, pats[i]).value)) else None
    decreases |pats|
  {
    if pats != [] && Search(s, pats[0]).None? {
      FirstSearchSpec(s, pats[1..]);
      var i := FirstMatchIndex(s, pats[1..]);
      if i < |pats| - 1 {
        assert pats[1..][i] == pats[i + 1];
      }
    }
  }

  /** Every pattern of pats captures ids of at least n characters. */
  predicate AllAtLeast(pats: seq<Pattern>, n: nat) {
    forall i :: 0 <= i < |pats| ==> n <= MinLen(pats[i])
  }

  /** What FirstSearch returns is an id of at least the least minimum length of the patterns. */
  lemma FirstSearchFindsId(s: string, pats: seq<Pattern>, n: nat)
    requires AllAtLeast(pats, n)
    ensures FirstSearch(s, pats).Some? ==> IsId(FirstSearch(s, pats).value, n)
  {
    FirstSearchSpec(s, pats);
    var i := FirstMatchIndex(s, pats);
    if i < |pats| {
      CaptureShape(s, Search(s, pats[i]).value.pos, pats[i]);
    }
  }

  /**
    The match the first matching pattern's search finds (the leftmost match of the first
    pattern in list order that matches anywhere) directly follows the pattern's prefix, and
    its capture cannot be extended by another id character.
   */
  lemma FirstSearchShape(s: string, pats: seq<Pattern>)
    requires FirstMatchIndex(s, pats) < |pats|
    ensures EndsRun(s, FirstMatch(s, pats))
    ensures pats[FirstMatchIndex(s, pats)].Prefixed? ==>
      FirstMatch(s, pats).start == FirstMatch(s, pats).pos + |pats[FirstMatchIndex(s, pats)].prefix|
  {
    MatchShape(s, FirstMatch(s, pats), pats[FirstMatchIndex(s, pats)]);
  }

  /** The leftmost match of the first pattern in list order that matches anywhere. */
  function FirstMatch(s: string, pats: seq<Pattern>): Match
    requires FirstMatchIndex(s, pats) < |pats|
  {
    Search(s, pats[FirstMatchIndex(s, pats)]).value
  }

  /**
    Pattern priority: a result of FirstSearch is the capture of FirstMatch, the leftmost match
    of the first pattern in list order that matches anywhere, wherever later patterns match.
   */
  lemma FirstSearchFound(s: string, pats: seq<Pattern>)
    requires FirstSearch(s, pats).Some?
    ensures FirstMatchIndex(s, pats) < |pats|
    ensures FirstSearch(s, pats) == Some(Capture(s, FirstMatch(s, pats)))
  {
    FirstSearchSpec(s, pats);
  }

  /** The capture of m cannot be extended by another id character. */
  predicate EndsRun(s: string, m: Match) {
    m.start + m.len < |s| ==> !IsIdChar(s[m.start + m.len])
  }

  /** CaptureShape for a match already in hand. */
  lemma MatchShape(s: string, m: Match, pat: Pattern)
    requires MatchAt(s, m.pos, pat) == Some(m)
    ensures EndsRun(s, m)
    ensures pat.Prefixed? ==> m.start == m.pos + |pat.prefix|
  {
    CaptureShape(s, m.pos, pat);
    assert MatchAt(s, m.pos, pat).value == m;
  }

  /**
    The loop of the extractors: try the patterns in list order with re.search and return group 1
    of the first match, None when the list is exhausted.
   */
  method SearchEach(s: string, pats: seq<Pattern>) returns (r: Option<string>)
    ensures r == FirstSearch(s, pats)
  {
    var i := 0;
    while i < |pats|
      invariant 0 <= i <= |pats|
      invariant FirstSearch(s, pats) == FirstSearch(s, pats[i..])
    {
      var m := Search(s, pats[i]);
      if m.Some? {
        return Some(Capture(s, m.value));
      }
      assert pats[i..][1..] == pats[i + 1..];
      i := i + 1;
    }
    return None;
  }

  /** Appending a pattern changes the result only when none of the earlier ones matched. */
  lemma {:induction false} FirstSearchSnoc(s: string, pats: seq<Pattern>, last: Pattern)
    ensures FirstSearch(s, pats + [last]) ==
      if FirstSearch(s, pats).Some? then FirstSearch(s, pats) else FirstSearch(s, [last])
    decreases |pats|
  {
    if pats != [] {
      assert (pats + [last])[0] == pats[0];
      assert (pats + [last])[1..] == pats[1..] + [last];
      FirstSearchSnoc(s, pats[1..], last);
    }
  }

  /** pattern.findall(s) from pos on: the captures of successive non-overlapping matches. */
  function FindAllFrom(s: string, pos: nat, pat: Pattern): (ids: seq<string>)
    requires Advances(pat)
    decreases |s| + 1 - pos
  {
    match SearchFrom(s, pos, pat)
    case None => []
    case Some(m) => [Capture(s, m)] + FindAllFrom(s, m.end, pat)
  }

  function FindAll(s: string, pat: Pattern): (ids: seq<string>)
    requires Advances(pat)
  {
    FindAllFrom(s, 0, pat)
  }

  /** findall and search agree: findall is empty exactly when search fails, and its first
      element is the capture of the search result. */
  lemma FindAllStartsWithSearch(s: string, pat: Pattern)
    requires Advances(pat)
    ensures |FindAll(s, pat)| == 0 <==> Search(s, pat).None?
    ensures |FindAll(s, pat)| > 0 ==> FindAll(s, pat)[0] == Capture(s, Search(s, pat).value)
  {
  }

  /** Every element findall returns is an id of at least the pattern's minimum length. */
  lemma {:induction false} FindAllShape(s: string, pos: nat, pat: Pattern)
    requires Advances(pat)
    ensures forall i :: 0 <= i < |FindAllFrom(s, pos, pat)| ==> IsId(FindAllFrom(s, pos, pat)[i], MinLen(pat))
    decreases |s| + 1 - pos
  {
    var r := SearchFrom(s, pos, pat);
    if r.Some? {
      var m := r.value;
      FindAllShape(s, m.end, pat);
      CaptureShape(s, m.pos, pat);
      assert FindAllFrom(s, pos, pat) == [Capture(s, m)] + FindAllFrom(s, m.end, pat);
    }
  }

  /**
    Index chosen by max(xs, key=len): a left fold that replaces the candidate only by a strictly
    longer string, so the first of the longest wins.
   */
  function LongestIndex(xs: seq<string>): (i: nat)
    requires |xs| > 0
    ensures i < |xs|
    ensures forall j :: 0 <= j < |xs| ==> |xs[j]| <= |xs[i]|
    ensures forall j :: 0 <= j < i ==> |xs[j]| < |xs[i]|
  {
    if |xs| == 1 then 0
    else
      var best := LongestIndex(xs[..|xs| - 1]);
      if |xs[|xs| - 1]| > |xs[best]| then |xs| - 1 else best
  }

  function Longest(xs: seq<string>): (r: string)
    requires |xs| > 0
    ensures r in xs
  {
    xs[LongestIndex(xs)]
  }

  /** The first pattern, in list order, with any findall match; the longest of its matches. */
  function FirstFindAll(s: string, pats: seq<Pattern>): (r: Option<string>)
    requires forall i :: 0 <= i < |pats| ==> Advances(pats[i])
    decreases |pats|
  {
    if pats == [] then None
    else
      var ids := FindAll(s, pats[0]);
      if |ids| > 0 then Some(Longest(ids)) else FirstFindAll(s, pats[1..])
  }

  /** The first pattern with a match decides, and its longest findall match is returned. */
  lemma {:induction false} FirstFindAllSpec(s: string, pats: seq<Pattern>)
    requires forall i :: 0 <= i < |pats| ==> Advances(pats[i])
    ensures FirstFindAll(s, pats) ==
      var i := FirstMatchIndex(s, pats);
      if i < |pats| then Some(Longest(FindAll(s, pats[i]))) else None
    decreases |pats|
  {
    if pats != [] {
      FindAllStartsWithSearch(s, pats[0]);
      if Search(s, pats[0]).None? {
        FirstFindAllSpec(s, pats[1..]);
        var i := FirstMatchIndex(s, pats[1..]);
        if i < |pats| - 1 {
          assert pats[1..][i] == pats[i + 1];
        }
      }
    }
  }

  /** Appending a pattern changes the result only when none of the earlier ones matched. */
  lemma {:induction false} FirstFindAllSnoc(s: string, pats: seq<Pattern>, last: Pattern)
    requires forall i :: 0 <= i < |pats| ==> Advances(pats[i])
    requires Advances(last)
    ensures FirstFindAll(s, pats + [last]) ==
      if FirstFindAll(s, pats).Some? then FirstFindAll(s, pats) else FirstFindAll(s, [last])
    decreases |pats|
  {
    if pats != [] {
      assert (pats + [last])[0] == pats[0];
      assert (pats + [last])[1..] == pats[1..] + [last];
      FirstFindAllSnoc(s, pats[1..], last);
    }
  }

  /** FirstFindAll finds something exactly when FirstSearch does. */
  lemma {:induction false} FirstFindAllAgrees(s: string, pats: seq<Pattern>)
    requires forall i :: 0 <= i < |pats| ==> Advances(pats[i])
    ensures FirstFindAll(s, pats).Some? <==> FirstSearch(s, pats).Some?
    decreases |pats|
  {
    if pats != [] {
      FindAllStartsWithSearch(s, pats[0]);
      FirstFindAllAgrees(s, pats[1..]);
    }
  }

  /** The eight patterns shared by the downloaders and the utilities, all with at least 20 id characters. */
  const UrlPatterns: seq<Pattern> := [
    Prefixed("!1s", 20, false),
    Prefixed("\"pano\":\"", 20, true),
    Prefixed("\"panoid\":\"", 20, true),
    Prefixed("pano:\"", 20, true),
    Prefixed("\"panoId\":\"", 20, true),
    Prefixed("photosphereId=", 20, false),
    PanoidParam,
    Prefixed("pano=", 20, false)
  ]

  /** The extractor class's list: the same eight and the cbp= pattern last. */
  const ExtractorPatterns: seq<Pattern> := UrlPatterns + [Cbp]

  /** The eight common patterns and the extractor's nine all capture ids of 20 characters or more. */
  lemma PatternsCaptureTwenty()
    ensures AllAtLeast(UrlPatterns, 20) && AllAtLeast(ExtractorPatterns, 20)
  {
    assert forall i :: 0 <= i < |UrlPatterns| ==> UrlPatterns[i].Prefixed? && UrlPatterns[i].minLen == 20;
  }

  lemma PatternsAdvance()
    ensures forall i :: 0 <= i < |ExtractorPatterns| ==> Advances(ExtractorPatterns[i])
    ensures forall i :: 0 <= i < |UrlPatterns| ==> Advances(UrlPatterns[i])
  {
  }

  /** Whenever the cbp= pattern matches, the panoid= pattern (seventh of the eight) matches too. */
  lemma CbpImpliesEarlierMatch(s: string)
    requires Search(s, Cbp).Some?
    ensures FirstSearch(s, UrlPatterns).Some?
  {
    CbpContainsPanoid(s, Search(s, Cbp).value.pos);
    assert UrlPatterns[6] == PanoidParam;
    assert Search(s, UrlPatterns[6]).Some?;
    assert FirstMatchIndex(s, UrlPatterns) <= 6;
    FirstSearchSpec(s, UrlPatterns);
  }

  /** The ninth pattern never decides a search: with or without it the result is the same. */
  lemma CbpNeverDecidesSearch(s: string)
    ensures FirstSearch(s, ExtractorPatterns) == FirstSearch(s, UrlPatterns)
  {
    FirstSearchSnoc(s, UrlPatterns, Cbp);
    if FirstSearch(s, UrlPatterns).None? {
      if Search(s, Cbp).Some? {
        CbpImpliesEarlierMatch(s);
      }
      assert [Cbp][1..] == [];
    }
  }

  /** The same holds for the page-source extraction, which uses findall. */
  lemma CbpNeverDecidesFindAll(s: string)
    ensures FirstFindAll(s, ExtractorPatterns) == FirstFindAll(s, UrlPatterns)
  {
    PatternsAdvance();
    FirstFindAllSnoc(s, UrlPatterns, Cbp);
    if FirstFindAll(s, UrlPatterns).None? {
      FirstFindAllAgrees(s, UrlPatterns);
      if Search(s, Cbp).Some? {
        CbpImpliesEarlierMatch(s);
      }
      FindAllStartsWithSearch(s, Cbp);
      assert [Cbp][1..] == [];
    }
  }

}
