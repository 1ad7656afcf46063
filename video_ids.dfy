/**
 * Video-ID extraction: the two patterns of `YouTubeService.extract_video_id`,
 * each run with `re.search` semantics by a small scanner.
 *
 *   Direct: (?:youtube\.com\/watch\?v=|youtu\.be\/|youtube\.com\/embed\/)([^&\n?#]+)
 *   Query:  youtube\.com\/watch\?.*v=([^&\n?#]+)
 *
 * `re.search` reports the leftmost position at which the pattern matches. In
 * Query the `.*` is greedy and stops at a newline, so among the `v=` on that
 * line it keeps the last one that is followed by an ID character. In both
 * patterns the group `[^&\n?#]+` is greedy and ends the pattern, so the ID is
 * the longest run of ID characters.
 */
module VideoIds {
  import opened Outcomes

  /** The two patterns, in the order `extract_video_id` tries them. */
  datatype UrlPattern = Direct | Query

  const Patterns: seq<UrlPattern> := [Direct, Query]

  /** The alternatives of Direct's non-capturing group, in the order the alternation tries them. */
  const DirectPrefixes: seq<string> := ["youtube.com/watch?v=", "youtu.be/", "youtube.com/embed/"]

  /** The literal that starts Query, before its `.*`. */
  const QueryPrefix: string := "youtube.com/watch?"

  /** `[^&\n?#]`: the characters an ID is made of. */
  predicate IsIdChar(ch: char) {
    ch != '&' && ch != '\n' && ch != '?' && ch != '#'
  }

  predicate AllIdChars(s: string) {
    forall k :: 0 <= k < |s| ==> IsIdChar(s[k])
  }

  /** The literal p occurs in s at position i. */
  predicate At(s: string, i: nat, p: string) {
    i + |p| <= |s| && s[i..i + |p|] == p
  }

  /** The length of the run of ID characters that starts at k. */
  function IdRunLength(s: string, k: nat): (n: nat)
    requires k <= |s|
    ensures k + n <= |s|
    ensures forall i :: k <= i < k + n ==> IsIdChar(s[i])
    ensures k + n == |s| || !IsIdChar(s[k + n])
    decreases |s| - k
  {
    if k < |s| && IsIdChar(s[k]) then 1 + IdRunLength(s, k + 1) else 0
  }

  /** `([^&\n?#]+)` at the end of a pattern: the longest run of ID characters at k. */
  function IdRun(s: string, k: nat): string
    requires k <= |s|
  {
    s[k..k + IdRunLength(s, k)]
  }

  /**
   * Where Direct's group starts when the pattern is tried at position i: the first
   * alternative that occurs at i and is followed by at least one ID character.
   */
  function DirectGroupStart(s: string, i: nat, alternatives: seq<string>): (g: Option<nat>)
    ensures g.Some? ==> exists p :: p in alternatives && At(s, i, p) && g.value == i + |p|
    ensures g.Some? ==> g.value < |s| && IsIdChar(s[g.value])
  {
    if alternatives == [] then None
    else
      var p := alternatives[0];
      if At(s, i, p) && i + |p| < |s| && IsIdChar(s[i + |p|]) then Some(i + |p|)
      else DirectGroupStart(s, i, alternatives[1..])
  }

  /**
   * Query matched at i with its `v=` at j: the prefix ends at or before j, the `.*`
   * between them crosses no newline, and an ID character follows `v=`.
   */
  predicate QueryVAt(s: string, i: nat, j: nat) {
    i + |QueryPrefix| <= j && j + 2 < |s|
    && (forall k :: i + |QueryPrefix| <= k < j ==> s[k] != '\n')
    && At(s, j, "v=") && IsIdChar(s[j + 2])
  }

  /** No newline in s[lo..hi]. */
  predicate LineClear(s: string, lo: nat, hi: nat) {
    forall k :: lo <= k < hi && k < |s| ==> s[k] != '\n'
  }

  /** Query matched at i has no usable `v=` in [lo, hi). */
  predicate NoVBetween(s: string, i: nat, lo: nat, hi: nat) {
    forall k :: lo <= k < hi ==> !QueryVAt(s, i, k)
  }

  lemma NoVBeforePrefix(s: string, i: nat)
    ensures NoVBetween(s, i, 0, i + |QueryPrefix|)
  {
  }

  /** On a clear line after the prefix, a usable `v=` at j is decided by the characters at j. */
  lemma VAtStep(s: string, i: nat, j: nat)
    requires i + |QueryPrefix| <= j < |s| && LineClear(s, i + |QueryPrefix|, j)
    ensures QueryVAt(s, i, j) <==> At(s, j, "v=") && j + 2 < |s| && IsIdChar(s[j + 2])
  {
  }

  lemma NoVBetweenStep(s: string, i: nat, lo: nat, hi: nat)
    requires NoVBetween(s, i, lo, hi) && !QueryVAt(s, i, hi)
    ensures NoVBetween(s, i, lo, hi + 1)
  {
  }

  lemma NoVBetweenJoin(s: string, i: nat, lo: nat, mid: nat, hi: nat)
    requires NoVBetween(s, i, lo, mid) && NoVBetween(s, i, mid, hi)
    ensures NoVBetween(s, i, lo, hi)
  {
  }

  /** Past the end of the line that holds the prefix, no `v=` counts. */
  lemma NoVAfterLineEnd(s: string, i: nat, j: nat)
    requires i + |QueryPrefix| <= j <= |s| && (j == |s| || s[j] == '\n')
    ensures NoVBetween(s, i, j, |s|)
  {
    forall k | j <= k < |s|
      ensures !QueryVAt(s, i, k)
    {
      if j < k {
        assert s[j] == '\n';
      }
    }
  }

  /** Query does not match at i when its prefix is absent or no usable `v=` follows it. */
  lemma QueryMiss(s: string, i: nat)
    requires !At(s, i, QueryPrefix) || NoVBetween(s, i, 0, |s|)
    ensures !MatchesAt(Query, s, i)
  {
  }

  /** Pattern p matches when tried at position i. */
  predicate MatchesAt(p: UrlPattern, s: string, i: nat) {
    match p
    case Direct => DirectGroupStart(s, i, DirectPrefixes).Some?
    case Query => At(s, i, QueryPrefix) && exists j :: i <= j < |s| && QueryVAt(s, i, j)
  }

  /** `re.search(p, s)` is None. */
  predicate NoMatch(p: UrlPattern, s: string) {
    forall i :: 0 <= i < |s| ==> !MatchesAt(p, s, i)
  }

  /** p matches at no position before i. */
  predicate NoMatchBefore(p: UrlPattern, s: string, i: nat) {
    forall k :: 0 <= k < i ==> !MatchesAt(p, s, k)
  }

  lemma NoMatchBeforeStep(p: UrlPattern, s: string, i: nat)
    requires NoMatchBefore(p, s, i) && !MatchesAt(p, s, i)
    ensures NoMatchBefore(p, s, i + 1)
  {
  }

  lemma NoMatchBeforeEnd(p: UrlPattern, s: string)
    requires NoMatchBefore(p, s, |s|)
    ensures NoMatch(p, s)
  {
  }

  /** i is the leftmost position at which p matches. */
  predicate Leftmost(p: UrlPattern, s: string, i: nat) {
    i < |s| && MatchesAt(p, s, i) && forall k :: 0 <= k < i ==> !MatchesAt(p, s, k)
  }

  /** What `re.search` reports: where the match starts, where group 1 starts, and group 1. */
  datatype Match = Match(start: nat, groupStart: nat, group: string)

  /** m is the match object `re.search(p, s)` returns. */
  predicate IsSearchResult(p: UrlPattern, s: string, m: Match) {
    Leftmost(p, s, m.start) && m.groupStart <= |s| && m.group == IdRun(s, m.groupStart)
    && match p
       case Direct => DirectGroupStart(s, m.start, DirectPrefixes) == Some(m.groupStart)
       case Query =>
         m.groupStart >= 2 && QueryVAt(s, m.start, m.groupStart - 2)
         && forall j :: m.start <= j < |s| && QueryVAt(s, m.start, j) ==> j <= m.groupStart - 2
  }

  /** A search result means the pattern matches somewhere. */
  lemma ResultMatches(p: UrlPattern, s: string, m: Match)
    requires IsSearchResult(p, s, m)
    ensures !NoMatch(p, s)
  {
    assert MatchesAt(p, s, m.start);
  }

  /** Group 1 of a match is a non-empty run of ID characters that occurs in the searched string. */
  lemma SearchResultGroup(p: UrlPattern, s: string, m: Match)
    requires IsSearchResult(p, s, m)
    ensures m.group != [] && AllIdChars(m.group) && At(s, m.groupStart, m.group)
  {
    assert m.groupStart < |s| && IsIdChar(s[m.groupStart]);
  }

  /** The first position at which Direct matches gives the search result. */
  lemma DirectFound(s: string, i: nat, g: nat)
    requires i < |s| && DirectGroupStart(s, i, DirectPrefixes) == Some(g)
    requires NoMatchBefore(Direct, s, i)
    ensures IsSearchResult(Direct, s, Match(i, g, IdRun(s, g)))
  {
    assert MatchesAt(Direct, s, i);
  }

  /** `re.search` with the Direct pattern. */
  method SearchDirect(s: string) returns (m: Option<Match>)
    ensures m.None? <==> NoMatch(Direct, s)
    ensures m.Some? ==> IsSearchResult(Direct, s, m.value)
  {
    var i := 0;
    while i < |s|
      invariant i <= |s|
      invariant NoMatchBefore(Direct, s, i)
    {
      var g := DirectGroupStart(s, i, DirectPrefixes);
      if g.Some? {
        DirectFound(s, i, g.value);
        ResultMatches(Direct, s, Match(i, g.value, IdRun(s, g.value)));
        return Some(Match(i, g.value, IdRun(s, g.value)));
      }
      NoMatchBeforeStep(Direct, s, i);
      i := i + 1;
    }
    NoMatchBeforeEnd(Direct, s);
    return None;
  }

  /**
   * The greedy `.*v=` of Query once its prefix has matched at i: the last `v=`
   * before the end of the line that is followed by an ID character.
   */
  method LastV(s: string, i: nat) returns (last: Option<nat>)
    requires i + |QueryPrefix| <= |s|
    ensures last.None? ==> NoVBetween(s, i, 0, |s|)
    ensures last.Some? ==> last.value < |s| && QueryVAt(s, i, last.value)
    ensures last.Some? ==> NoVBetween(s, i, last.value + 1, |s|)
  {
    last := None;
    var j := i + |QueryPrefix|;
    NoVBeforePrefix(s, i);
    while j < |s| && s[j] != '\n'
      invariant i + |QueryPrefix| <= j <= |s|
      invariant LineClear(s, i + |QueryPrefix|, j)
      invariant last.None? ==> NoVBetween(s, i, 0, j)
      invariant last.Some? ==> last.value < j && QueryVAt(s, i, last.value)
      invariant last.Some? ==> NoVBetween(s, i, last.value + 1, j)
    {
      VAtStep(s, i, j);
      if At(s, j, "v=") && j + 2 < |s| && IsIdChar(s[j + 2]) {
        last := Some(j);
      } else if last.None? {
        NoVBetweenStep(s, i, 0, j);
      } else {
        NoVBetweenStep(s, i, last.value + 1, j);
      }
      j := j + 1;
    }
    NoVAfterLineEnd(s, i, j);
    if last.None? {
      NoVBetweenJoin(s, i, 0, j, |s|);
    } else {
      NoVBetweenJoin(s, i, last.value + 1, j, |s|);
    }
  }

  /** The first position at which Query matches, with its last `v=`, gives the search result. */
  lemma QueryFound(s: string, i: nat, j: nat)
    requires i < |s| && At(s, i, QueryPrefix) && j < |s| && QueryVAt(s, i, j)
    requires NoVBetween(s, i, j + 1, |s|)
    requires NoMatchBefore(Query, s, i)
    ensures IsSearchResult(Query, s, Match(i, j + 2, IdRun(s, j + 2)))
  {
    assert MatchesAt(Query, s, i);
  }

  /** `re.search` with the Query pattern. */
  method SearchQuery(s: string) returns (m: Option<Match>)
    ensures m.None? <==> NoMatch(Query, s)
    ensures m.Some? ==> IsSearchResult(Query, s, m.value)
  {
    var i := 0;
    while i < |s|
      invariant i <= |s|
      invariant NoMatchBefore(Query, s, i)
    {
      if At(s, i, QueryPrefix) {
        var last := LastV(s, i);
        if last.Some? {
          QueryFound(s, i, last.value);
          ResultMatches(Query, s, Match(i, last.value + 2, IdRun(s, last.value + 2)));
          return Some(Match(i, last.value + 2, IdRun(s, last.value + 2)));
        }
      }
      QueryMiss(s, i);
      NoMatchBeforeStep(Query, s, i);
      i := i + 1;
    }
    NoMatchBeforeEnd(Query, s);
    return None;
  }

  method Search(p: UrlPattern, s: string) returns (m: Option<Match>)
    ensures m.None? <==> NoMatch(p, s)
    ensures m.Some? ==> IsSearchResult(p, s, m.value)
  {
    match p
    case Direct => m := SearchDirect(s);
    case Query => m := SearchQuery(s);
  }

  /**
   * `extract_video_id`: the first pattern that matches gives the ID (group 1 of
   * its leftmost match); None when neither matches.
   */
  method ExtractVideoId(url: string) returns (id: Option<string>)
    ensures id.None? <==> NoMatch(Direct, url) && NoMatch(Query, url)
    ensures !NoMatch(Direct, url) ==>
              exists m :: IsSearchResult(Direct, url, m) && id == Some(m.group)
    ensures NoMatch(Direct, url) && !NoMatch(Query, url) ==>
              exists m :: IsSearchResult(Query, url, m) && id == Some(m.group)
    ensures id.Some? ==> id.value != [] && AllIdChars(id.value)
    ensures id.Some? ==> exists k :: At(url, k, id.value)
  {
    for n := 0 to |Patterns|
      invariant forall n' :: 0 <= n' < n ==> NoMatch(Patterns[n'], url)
    {
      var m := Search(Patterns[n], url);
      if m.Some? {
        SearchResultGroup(Patterns[n], url, m.value);
        id := Some(m.value.group);
        assert At(url, m.value.groupStart, id.value);
        if n == 0 {
          assert IsSearchResult(Direct, url, m.value);
        } else {
          assert Patterns[0] == Direct && Patterns[1] == Query;
          assert NoMatch(Patterns[0], url);
          assert IsSearchResult(Patterns[1], url, m.value);
        }
        return;
      }
    }
    assert NoMatch(Patterns[0], url) && NoMatch(Patterns[1], url);
    return None;
  }

  /** `validate_youtube_url`: exactly when an ID can be extracted. */
  method ValidateYoutubeUrl(url: string) returns (ok: bool)
    ensures ok <==> !(NoMatch(Direct, url) && NoMatch(Query, url))
  {
    var id := ExtractVideoId(url);
    ok := id.Some?;
  }
}
