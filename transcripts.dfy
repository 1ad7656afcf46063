/**
 * `YouTubeService.get_transcript` and `_clean_transcript`. The transcript
 * listing and each track's `fetch()` are given as values (what the library
 * returned or raised); every failure ends in the sample transcript, which is
 * None.
 */
module Transcripts {
  import opened Outcomes
  import opened Text

  // ---------------------------------------------------------------------------
  // Cleaning: `_clean_transcript`

  /** The three patterns `_clean_transcript` removes, in order. */
  datatype CleanPattern = Fillers | Bracketed | Parenthesised

  const CleanPatterns: seq<CleanPattern> := [Fillers, Bracketed, Parenthesised]

  /** The alternatives of `\b(um|uh|like|you know|so basically|okay|alright)\b`, in order. */
  const FillerWords: seq<string> := ["um", "uh", "like", "you know", "so basically", "okay", "alright"]

  /** `\w`, restricted to ASCII: letters, digits and underscore. */
  predicate IsWordChar(ch: char) {
    ('a' <= ch <= 'z') || ('A' <= ch <= 'Z') || ('0' <= ch <= '9') || ch == '_'
  }

  /** A word character sits at position i (nothing sits outside the string). */
  predicate WordAt(s: string, i: int) {
    0 <= i < |s| && IsWordChar(s[i])
  }

  /** `\b` at position i: a word character on exactly one side. */
  predicate Boundary(s: string, i: nat) {
    WordAt(s, i - 1) != WordAt(s, i)
  }

  /** ASCII lower case, which is what `re.IGNORECASE` compares for the filler words. */
  function Lower(ch: char): char {
    if 'A' <= ch <= 'Z' then (ch as int + 32) as char else ch
  }

  /** The lower-case word w occurs at i, ignoring case. */
  predicate WordMatch(s: string, i: nat, w: string) {
    i + |w| <= |s| && forall k :: 0 <= k < |w| ==> Lower(s[i + k]) == w[k]
  }

  /** `\b(w)\b` matches at i: w occurs there, ignoring case, with a word boundary on each side. */
  predicate StandsAlone(s: string, i: nat, w: string) {
    Boundary(s, i) && WordMatch(s, i, w) && Boundary(s, i + |w|)
  }

  /** No alternative in words stands alone at i. */
  predicate NoneStandsAlone(s: string, i: nat, words: seq<string>) {
    forall w :: w in words ==> !StandsAlone(s, i, w)
  }

  /**
   * The filler word matched at i: the first alternative that occurs there with a
   * word boundary on each side. None exactly when no alternative does.
   */
  function FillerAt(s: string, i: nat, words: seq<string>): (m: Option<string>)
    ensures m.Some? ==> m.value in words && StandsAlone(s, i, m.value)
    ensures m.None? ==> NoneStandsAlone(s, i, words)
  {
    if words == [] then None
    else
      var w := words[0];
      assert w in words;
      assert forall v :: v in words ==> v == w || v in words[1..];
      assert forall v :: v in words[1..] ==> v in words;
      if StandsAlone(s, i, w) then Some(w)
      else FillerAt(s, i, words[1..])
  }

  /** `re.sub(filler_pattern, '', s, flags=re.IGNORECASE)`, from position i on. */
  function RemoveFillers(s: string, i: nat, words: seq<string>): string
    requires forall w :: w in words ==> w != []
    decreases |s| - i
  {
    if i >= |s| then []
    else
      var m := FillerAt(s, i, words);
      if m.Some? then RemoveFillers(s, i + |m.value|, words)
      else [s[i]] + RemoveFillers(s, i + 1, words)
  }

  /** Where the lazy `.*?c` that starts at j ends: the first c, unless a newline comes first. */
  function CloseIndex(s: string, j: nat, c: char): (r: Option<nat>)
    requires c != '\n'
    ensures r.Some? ==> j <= r.value < |s| && s[r.value] == c
    ensures j <= |s| && r.None? && '\n' !in s[j..] ==> c !in s[j..]
    decreases |s| - j
  {
    if j >= |s| || s[j] == '\n' then None
    else if s[j] == c then Some(j)
    else
      var r := CloseIndex(s, j + 1, c);
      assert s[j..] == [s[j]] + s[j + 1..];
      r
  }

  /** `re.sub(r'\[.*?\]', '', s)` (or with parentheses), from position i on. */
  function RemoveEnclosed(s: string, o: char, c: char, i: nat): string
    requires c != '\n'
    decreases |s| - i
  {
    if i >= |s| then []
    else if s[i] == o && CloseIndex(s, i + 1, c).Some? then RemoveEnclosed(s, o, c, CloseIndex(s, i + 1, c).value + 1)
    else [s[i]] + RemoveEnclosed(s, o, c, i + 1)
  }

  function Apply(p: CleanPattern, s: string): string {
    match p
    case Fillers => RemoveFillers(s, 0, FillerWords)
    case Bracketed => RemoveEnclosed(s, '[', ']', 0)
    case Parenthesised => RemoveEnclosed(s, '(', ')', 0)
  }

  function ApplyAll(patterns: seq<CleanPattern>, s: string): string {
    if patterns == [] then s else ApplyAll(patterns[1..], Apply(patterns[0], s))
  }

  /** What `_clean_transcript` returns. */
  lemma ApplyAllSteps(s: string)
    ensures ApplyAll(CleanPatterns, s) == Apply(Parenthesised, Apply(Bracketed, Apply(Fillers, s)))
  {
    var s1 := Apply(Fillers, s);
    var s2 := Apply(Bracketed, s1);
    var s3 := Apply(Parenthesised, s2);
    assert ApplyAll([Parenthesised], s2) == ApplyAll([], s3);
    assert [Bracketed, Parenthesised][1..] == [Parenthesised];
    assert ApplyAll([Bracketed, Parenthesised], s1) == ApplyAll([Parenthesised], s2);
    assert CleanPatterns[1..] == [Bracketed, Parenthesised];
  }

  function Cleaned(transcript: string): string {
    Strip(Collapse(ApplyAll(CleanPatterns, Collapse(Strip(transcript)))))
  }

  // ---------------------------------------------------------------------------
  // What each step keeps

  lemma SuffixChars(s: string, i: nat, j: nat, x: char)
    requires i <= j <= |s| && x in s[j..]
    ensures x in s[i..]
  {
    var k :| 0 <= k < |s[j..]| && s[j..][k] == x;
    assert s[i..][j - i + k] == x;
  }

  /** A character of s[i] followed by text drawn from s[i + 1..] comes from s[i..]. */
  lemma KeepChar(s: string, i: nat, rest: string, x: char)
    requires i < |s| && (x in rest ==> x in s[i + 1..])
    ensures x in [s[i]] + rest ==> x in s[i..]
  {
    assert s[i..] == [s[i]] + s[i + 1..];
  }

  /** One step of the filler pass: a match at i is skipped, otherwise s[i] is kept. */
  lemma FillersStep(s: string, i: nat, words: seq<string>) returns (k: nat, kept: bool)
    requires i < |s| && forall w :: w in words ==> w != []
    ensures i < k <= |s| && kept == FillerAt(s, i, words).None?
    ensures kept ==> k == i + 1 && RemoveFillers(s, i, words) == [s[i]] + RemoveFillers(s, k, words)
    ensures !kept ==> RemoveFillers(s, i, words) == RemoveFillers(s, k, words)
  {
    var m := FillerAt(s, i, words);
    k, kept := if m.Some? then i + |m.value| else i + 1, m.None?;
  }

  lemma {:induction false} FillersChars(s: string, i: nat, words: seq<string>, x: char)
    requires i <= |s| && forall w :: w in words ==> w != []
    ensures x in RemoveFillers(s, i, words) ==> x in s[i..]
    decreases |s| - i
  {
    if i < |s| {
      var k, kept := FillersStep(s, i, words);
      FillersChars(s, k, words, x);
      if kept {
        KeepChar(s, i, RemoveFillers(s, k, words), x);
      } else if x in s[k..] {
        SuffixChars(s, i, k, x);
      }
    }
  }

  lemma {:induction false} EnclosedChars(s: string, o: char, c: char, i: nat, x: char)
    requires c != '\n' && i <= |s|
    ensures x in RemoveEnclosed(s, o, c, i) ==> x in s[i..]
    decreases |s| - i
  {
    if i < |s| {
      if s[i] == o && CloseIndex(s, i + 1, c).Some? {
        var j := CloseIndex(s, i + 1, c).value;
        EnclosedChars(s, o, c, j + 1, x);
        if x in s[j + 1..] {
          SuffixChars(s, i, j + 1, x);
        }
      } else {
        EnclosedChars(s, o, c, i + 1, x);
        assert s[i..] == [s[i]] + s[i + 1..];
      }
    }
  }

  /** With no newline to stop it, the lazy pattern leaves no opening delimiter before a closing one. */
  lemma {:induction false} EnclosedCleared(s: string, o: char, c: char, i: nat)
    requires c != '\n' && i <= |s| && '\n' !in s
    ensures NoEnclosed(RemoveEnclosed(s, o, c, i), o, c)
    decreases |s| - i
  {
    if i < |s| {
      if s[i] == o && CloseIndex(s, i + 1, c).Some? {
        EnclosedCleared(s, o, c, CloseIndex(s, i + 1, c).value + 1);
      } else {
        var rest := RemoveEnclosed(s, o, c, i + 1);
        EnclosedCleared(s, o, c, i + 1);
        if s[i] == o {
          assert '\n' !in s[i + 1..];
          EnclosedChars(s, o, c, i + 1, c);
        }
        NoEnclosedCons(s[i], rest, o, c);
      }
    }
  }

  lemma NoEnclosedTail(s: string, i: nat, k: nat, o: char, c: char)
    requires i <= k <= |s| && NoEnclosed(s[i..], o, c)
    ensures NoEnclosed(s[k..], o, c)
  {
    NoEnclosedSlice(s[i..], k - i, |s| - i, o, c);
    assert s[i..][k - i..|s| - i] == s[k..];
  }

  /** Keeping s[i] in front of a cleared rest drawn from s[i + 1..] keeps it cleared. */
  lemma KeepHead(s: string, i: nat, rest: string, o: char, c: char)
    requires i < |s| && NoEnclosed(s[i..], o, c) && NoEnclosed(rest, o, c)
    requires c in rest ==> c in s[i + 1..]
    ensures NoEnclosed([s[i]] + rest, o, c)
  {
    assert s[i..] == [s[i]] + s[i + 1..];
    NoEnclosedCons(s[i], s[i + 1..], o, c);
    NoEnclosedCons(s[i], rest, o, c);
  }

  /** Removing one kind of delimited text keeps the other kind cleared. */
  lemma {:induction false} EnclosedKeeps(s: string, o: char, c: char, i: nat, o': char, c': char)
    requires c != '\n' && i <= |s| && NoEnclosed(s[i..], o', c')
    ensures NoEnclosed(RemoveEnclosed(s, o, c, i), o', c')
    decreases |s| - i
  {
    if i < |s| {
      if s[i] == o && CloseIndex(s, i + 1, c).Some? {
        var j := CloseIndex(s, i + 1, c).value;
        NoEnclosedTail(s, i, j + 1, o', c');
        EnclosedKeeps(s, o, c, j + 1, o', c');
      } else {
        NoEnclosedTail(s, i, i + 1, o', c');
        EnclosedKeeps(s, o, c, i + 1, o', c');
        EnclosedChars(s, o, c, i + 1, c');
        KeepHead(s, i, RemoveEnclosed(s, o, c, i + 1), o', c');
      }
    }
  }

  lemma NoNewlineWhenTidy(s: string)
    requires Tidy(s)
    ensures '\n' !in s
  {
    if '\n' in s {
      var k :| 0 <= k < |s| && s[k] == '\n';
      assert IsSpace(s[k]);
    }
  }

  lemma StripChars(s: string, x: char)
    ensures x in Strip(s) ==> x in s
  {
    if x in Strip(s) {
      var k :| 0 <= k < |Strip(s)| && Strip(s)[k] == x;
      assert s[LeadingSpaces(s) + k] == x;
    }
  }

  /** The three removals keep no character that was not there. */
  lemma PatternsChars(s: string, x: char)
    ensures x in ApplyAll(CleanPatterns, s) ==> x in s
  {
    var s1 := Apply(Fillers, s);
    var s2 := Apply(Bracketed, s1);
    var s3 := Apply(Parenthesised, s2);
    ApplyAllSteps(s);
    FillersChars(s, 0, FillerWords, x);
    EnclosedChars(s1, '[', ']', 0, x);
    EnclosedChars(s2, '(', ')', 0, x);
    assert s[0..] == s && s1[0..] == s1 && s2[0..] == s2;
  }

  /** After the removals, on a line with no newline, neither kind of delimited text is left. */
  lemma PatternsClear(s: string)
    requires '\n' !in s
    ensures NoEnclosed(ApplyAll(CleanPatterns, s), '[', ']')
    ensures NoEnclosed(ApplyAll(CleanPatterns, s), '(', ')')
  {
    var s1 := Apply(Fillers, s);
    var s2 := Apply(Bracketed, s1);
    var s3 := Apply(Parenthesised, s2);
    ApplyAllSteps(s);
    FillersChars(s, 0, FillerWords, '\n');
    assert s[0..] == s && s1[0..] == s1 && s2[0..] == s2;
    EnclosedCleared(s1, '[', ']', 0);
    EnclosedChars(s1, '[', ']', 0, '\n');
    EnclosedCleared(s2, '(', ')', 0);
    EnclosedKeeps(s2, '(', ')', 0, '[', ']');
  }

  /**
   * The cleaned transcript: single spaces only, none at either end, no `[...]`
   * or `(...)` left, and every other character taken from the transcript.
   */
  lemma CleanedShape(transcript: string)
    ensures var r := Cleaned(transcript);
            Tidy(r) && (r == [] || (r[0] != ' ' && r[|r| - 1] != ' '))
            && NoEnclosed(r, '[', ']') && NoEnclosed(r, '(', ')')
  {
    var s0 := Collapse(Strip(transcript));
    var s3 := ApplyAll(CleanPatterns, s0);
    CollapseTidy(Strip(transcript));
    NoNewlineWhenTidy(s0);
    PatternsClear(s0);
    CollapseTidy(s3);
    StripTidy(Collapse(s3));
    CollapseNoEnclosed(s3, '[', ']');
    CollapseNoEnclosed(s3, '(', ')');
    StripNoEnclosed(Collapse(s3), '[', ']');
    StripNoEnclosed(Collapse(s3), '(', ')');
  }

  lemma CleanedChars(transcript: string, x: char)
    requires !IsSpace(x)
    ensures x in Cleaned(transcript) ==> x in transcript
  {
    var s0 := Collapse(Strip(transcript));
    var s3 := ApplyAll(CleanPatterns, s0);
    StripChars(Collapse(s3), x);
    CollapseChars(s3, x);
    PatternsChars(s0, x);
    CollapseChars(Strip(transcript), x);
    StripChars(transcript, x);
  }

  lemma CleanedCharsAll(transcript: string)
    ensures forall x :: !IsSpace(x) && x in Cleaned(transcript) ==> x in transcript
  {
    forall x | !IsSpace(x) && x in Cleaned(transcript)
      ensures x in transcript
    {
      CleanedChars(transcript, x);
    }
  }

  /** `_clean_transcript`: normalise whitespace, apply the three patterns in order, normalise again. */
  method CleanTranscript(transcript: string) returns (r: string)
    ensures r == Cleaned(transcript)
    ensures Tidy(r) && (r == [] || (r[0] != ' ' && r[|r| - 1] != ' '))
    ensures NoEnclosed(r, '[', ']') && NoEnclosed(r, '(', ')')
    ensures forall x :: !IsSpace(x) && x in r ==> x in transcript
  {
    var cleaned := Collapse(Strip(transcript));
    for n := 0 to |CleanPatterns|
      invariant ApplyAll(CleanPatterns, Collapse(Strip(transcript))) == ApplyAll(CleanPatterns[n..], cleaned)
    {
      assert CleanPatterns[n..][1..] == CleanPatterns[n + 1..];
      cleaned := Apply(CleanPatterns[n], cleaned);
    }
    assert cleaned == ApplyAll(CleanPatterns, Collapse(Strip(transcript)));
    r := Strip(Collapse(cleaned));
    CleanedShape(transcript);
    CleanedCharsAll(transcript);
  }

  // ---------------------------------------------------------------------------
  // Choosing a track: `get_transcript`

  /** One entry of `list_transcripts`: its language code and what its `fetch()` returns (the segments' texts) or raises. */
  datatype Track = Track(language: string, fetched: Result<seq<string>>)

  /** The language codes `get_transcript` asks for, in order. */
  const Languages: seq<string> := ["en", "en-US", "en-GB"]

  /** `find_transcript([lang])`: the position of the first track in the listing with that code. */
  function Find(tracks: seq<Track>, lang: string): (i: Option<nat>)
    ensures i.Some? ==> i.value < |tracks| && tracks[i.value].language == lang
    ensures i.Some? ==> forall k :: 0 <= k < i.value ==> tracks[k].language != lang
    ensures i.None? ==> forall k :: 0 <= k < |tracks| ==> tracks[k].language != lang
  {
    if tracks == [] then None
    else if tracks[0].language == lang then Some(0)
    else match Find(tracks[1..], lang)
         case Some(i) => Some(i + 1)
         case None => None
  }

  /** The track of the first language in langs that the listing has. */
  function Preferred(tracks: seq<Track>, langs: seq<string>): Option<Track> {
    if langs == [] then None
    else match Find(tracks, langs[0])
         case Some(i) => Some(tracks[i])
         case None => Preferred(tracks, langs[1..])
  }

  /** The segments `get_transcript` settles on, or the exception a `fetch()` raised. */
  function Segments(tracks: seq<Track>): Result<seq<string>> {
    var preferred := Preferred(tracks, Languages);
    if preferred.Some? && (preferred.value.fetched.Failure? || preferred.value.fetched.value != []) then
      preferred.value.fetched
    else if tracks == [] then Success([])
    else tracks[0].fetched
  }

  /** What `get_transcript` returns: the cleaned, joined segments, or None (the sample transcript). */
  function Transcript(listing: Result<seq<Track>>): Option<string> {
    match listing
    case Failure(_) => None
    case Success(tracks) =>
      match Segments(tracks)
      case Failure(_) => None
      case Success(segments) => if segments == [] then None else Some(Cleaned(Join(segments, " ")))
  }

  method GetTranscript(listing: Result<seq<Track>>) returns (r: Option<string>)
    ensures r == Transcript(listing)
  {
    if listing.Failure? {
      return None;
    }
    var tracks := listing.value;
    var segments: Option<seq<string>> := None;
    var k := 0;
    while k < |Languages|
      invariant 0 <= k <= |Languages|
      invariant Preferred(tracks, Languages) == Preferred(tracks, Languages[k..])
    {
      var i := Find(tracks, Languages[k]);
      if i.Some? {
        var track := tracks[i.value];
        if track.fetched.Failure? {
          return None;
        }
        segments := Some(track.fetched.value);
        break;
      }
      assert Languages[k..][1..] == Languages[k + 1..];
      k := k + 1;
    }
    if segments.None? || segments.value == [] {
      if tracks != [] {
        if tracks[0].fetched.Failure? {
          return None;
        }
        segments := Some(tracks[0].fetched.value);
      }
    }
    if segments.None? || segments.value == [] {
      return None;
    }
    var cleaned := CleanTranscript(Join(segments.value, " "));
    return Some(cleaned);
  }

  // ---------------------------------------------------------------------------
  // Properties of the choice

  /** A listing without any of the preferred codes has no preferred track. */
  lemma {:induction false} PreferredNone(tracks: seq<Track>, langs: seq<string>)
    requires forall k :: 0 <= k < |tracks| ==> tracks[k].language !in langs
    ensures Preferred(tracks, langs) == None
  {
    if langs != [] {
      assert langs[0] in langs;
      PreferredNone(tracks, langs[1..]);
    }
  }

  /** A fetchable, non-empty `en` track is the one used, wherever it sits in the listing. */
  lemma EnglishFirst(tracks: seq<Track>, i: nat, segments: seq<string>)
    requires Find(tracks, "en") == Some(i) && tracks[i].fetched == Success(segments) && segments != []
    ensures Transcript(Success(tracks)) == Some(Cleaned(Join(segments, " ")))
  {
    assert Languages[0] == "en";
    assert Preferred(tracks, Languages) == Some(tracks[i]);
  }

  /** Without an English track, the first track of the listing is fetched. */
  lemma FirstTrackFallback(tracks: seq<Track>)
    requires tracks != []
    requires forall k :: 0 <= k < |tracks| ==> tracks[k].language !in Languages
    ensures Transcript(Success(tracks)) ==
              match tracks[0].fetched
              case Failure(_) => None
              case Success(segments) => if segments == [] then None else Some(Cleaned(Join(segments, " ")))
  {
    PreferredNone(tracks, Languages);
  }

  /**
   * Without an `en` track, a fetchable, non-empty `en-US` track is the one used,
   * even when an `en-GB` track is listed before it.
   */
  lemma UsEnglishNext(tracks: seq<Track>, i: nat, segments: seq<string>)
    requires Find(tracks, "en") == None
    requires Find(tracks, "en-US") == Some(i) && tracks[i].fetched == Success(segments) && segments != []
    ensures Transcript(Success(tracks)) == Some(Cleaned(Join(segments, " ")))
  {
    assert Languages[0] == "en" && Languages[1..][0] == "en-US";
    assert Preferred(tracks, Languages[1..]) == Some(tracks[i]);
    assert Preferred(tracks, Languages) == Some(tracks[i]);
  }

  /** Without `en` and `en-US` tracks, a fetchable, non-empty `en-GB` track is the one used. */
  lemma GbEnglishThird(tracks: seq<Track>, i: nat, segments: seq<string>)
    requires Find(tracks, "en") == None && Find(tracks, "en-US") == None
    requires Find(tracks, "en-GB") == Some(i) && tracks[i].fetched == Success(segments) && segments != []
    ensures Transcript(Success(tracks)) == Some(Cleaned(Join(segments, " ")))
  {
    var rest := Languages[1..];
    assert Languages[0] == "en" && rest[0] == "en-US" && rest[1..][0] == "en-GB";
    assert Preferred(tracks, rest[1..]) == Some(tracks[i]);
    assert Preferred(tracks, rest) == Some(tracks[i]);
    assert Preferred(tracks, Languages) == Some(tracks[i]);
  }

  /**
   * Every exception ends in the sample transcript: a listing that raises, or a
   * `fetch()` of the chosen track that raises.
   */
  lemma TranscriptFailures(listing: Result<seq<Track>>, track: Track)
    requires listing.Success? ==> Preferred(listing.value, Languages) == Some(track)
    requires track.fetched.Failure?
    ensures Transcript(listing) == None
  {
  }

  /** Text with no `o` followed later by `c` is left as it is by the removal pass. */
  lemma {:induction false} EnclosedUnchanged(s: string, o: char, c: char, i: nat)
    requires c != '\n' && i <= |s| && NoEnclosed(s, o, c)
    ensures RemoveEnclosed(s, o, c, i) == s[i..]
    decreases |s| - i
  {
    if i < |s| {
      var r := CloseIndex(s, i + 1, c);
      assert s[i] == o ==> forall j :: i < j < |s| ==> s[j] != c;
      assert s[i] == o ==> r.None?;
      EnclosedUnchanged(s, o, c, i + 1);
      assert s[i..] == [s[i]] + s[i + 1..];
    }
  }

  /**
   * A transcript that is already clean is returned as it is: single spaces,
   * none at either end, no `[...]` or `(...)` pair and no filler word standing
   * alone.
   */
  lemma CleanedFixedPoint(t: string)
    requires Tidy(t) && (t == [] || (t[0] != ' ' && t[|t| - 1] != ' '))
    requires NoEnclosed(t, '[', ']') && NoEnclosed(t, '(', ')')
    requires forall k, w :: 0 <= k < |t| && w in FillerWords ==> !StandsAlone(t, k, w)
    ensures Cleaned(t) == t
  {
    if t != [] {
      StripUnchanged(t);
    }
    TidyCollapseId(t);
    assert Collapse(Strip(t)) == t;
    PatternsUnchanged(t);
  }

  /** The three removal passes leave alone text that none of the patterns matches. */
  lemma PatternsUnchanged(t: string)
    requires NoEnclosed(t, '[', ']') && NoEnclosed(t, '(', ')')
    requires forall k, w :: 0 <= k < |t| && w in FillerWords ==> !StandsAlone(t, k, w)
    ensures ApplyAll(CleanPatterns, t) == t
  {
    assert t[0..] == t;
    NoFillersUnchanged(t, 0);
    EnclosedUnchanged(t, '[', ']', 0);
    EnclosedUnchanged(t, '(', ')', 0);
    ApplyAllSteps(t);
  }

  /** Text in which no filler word stands alone is left as it is. */
  lemma {:induction false} NoFillersUnchanged(s: string, i: nat)
    requires i <= |s|
    requires forall k, w :: i <= k < |s| && w in FillerWords ==> !StandsAlone(s, k, w)
    ensures RemoveFillers(s, i, FillerWords) == s[i..]
    decreases |s| - i
  {
    if i < |s| {
      assert FillerAt(s, i, FillerWords).None?;
      var k, kept := FillersStep(s, i, FillerWords);
      NoFillersUnchanged(s, i + 1);
      assert s[i..] == [s[i]] + s[i + 1..];
    }
  }

  /** A filler word is matched whatever its case. */
  lemma FillerExample()
    ensures RemoveFillers("Um", 0, FillerWords) == ""
  {
    assert FillerWords[0] == "um";
    assert WordMatch("Um", 0, "um");
    assert Boundary("Um", 0) && Boundary("Um", 2);
    assert FillerAt("Um", 0, FillerWords) == Some("um");
    assert RemoveFillers("Um", 2, FillerWords) == "";
  }
}
