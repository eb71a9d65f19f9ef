/**
  `extract_video_id`: the two regular expressions of the backend, tried in
  order with `re.search` (leftmost position first), written out as matchers
  over strings.

    pattern one  (?:youtube\.com/watch\?v=|youtu\.be/|youtube\.com/embed/)([^&\n?#]+)
    pattern two  youtube\.com/watch\?.*v=([^&\n?#]+)

  Each matcher is checked against a declarative description of what a match
  is (PrefixMatch, QueryMatch) by lemmas in both directions.
 */
module VideoId {
  import opened Wrappers
  import opened Strings
  import opened Errors

  const WatchPrefix := "youtube.com/watch?v="
  const ShortPrefix := "youtu.be/"
  const EmbedPrefix := "youtube.com/embed/"
  /** The alternatives of pattern one, in the order the regular expression lists them. */
  const PrefixAlternatives := [WatchPrefix, ShortPrefix, EmbedPrefix]

  const QueryPrefix := "youtube.com/watch?"
  const VParam := "v="

  const InvalidUrlMessage := "Invalid YouTube URL"

  /** The character class `[^&\n?#]` of the capture group. */
  predicate IdChar(c: char) {
    c != '&' && c != '\n' && c != '?' && c != '#'
  }

  /** What `extract_video_id` can return: a non-empty run of `IdChar`s. */
  predicate IsVideoId(id: string) {
    id != [] && forall k :: 0 <= k < |id| ==> IdChar(id[k])
  }

  /** The position a match starts at, where its group starts, and the group's text. */
  datatype Match = Match(start: nat, groupStart: nat, group: string)

  datatype Pattern = PrefixPattern | QueryPattern

  // ---------------------------------------------------------------- the capture group

  /** Number of `IdChar`s in a row from position g. */
  function IdRunLength(s: string, g: nat): (n: nat)
    requires g <= |s|
    ensures g + n <= |s|
    ensures forall k :: g <= k < g + n ==> IdChar(s[k])
    ensures g + n == |s| || !IdChar(s[g + n])
    decreases |s| - g
  {
    if g == |s| || !IdChar(s[g]) then 0 else 1 + IdRunLength(s, g + 1)
  }

  /** id is a longest non-empty run of `IdChar`s starting at g. */
  ghost predicate IsIdRun(s: string, g: nat, id: string) {
    && g + |id| <= |s|
    && s[g..g + |id|] == id
    && IsVideoId(id)
    && (g + |id| == |s| || !IdChar(s[g + |id|]))
  }

  /** The greedy group `([^&\n?#]+)` at position g: the longest run, and no match when it is empty. */
  function GroupAt(s: string, g: nat): (r: Option<string>)
    ensures r.Some? ==> IsIdRun(s, g, r.value)
    ensures r.None? <==> g >= |s| || !IdChar(s[g])
  {
    if g < |s| && IdChar(s[g]) then Some(s[g..g + IdRunLength(s, g)]) else None
  }

  lemma IdRunIsGroup(s: string, g: nat, id: string)
    requires IsIdRun(s, g, id)
    ensures GroupAt(s, g) == Some(id)
  {
    var n := IdRunLength(s, g);
    assert forall k | g <= k < g + |id| :: s[k] == id[k - g];
    assert n == |id|;
  }

  // ---------------------------------------------------------------- pattern one

  /** The alternation followed by the group at position i; the alternatives are tried in
      order and the engine backtracks to the next one when the group is empty. */
  function AlternativesAt(s: string, i: nat, alts: seq<string>): (r: Option<Match>)
    ensures r.Some? ==> r.value.start == i && IsIdRun(s, r.value.groupStart, r.value.group)
    ensures r.Some? ==> exists k :: 0 <= k < |alts| && OccursAt(s, i, alts[k]) && r.value.groupStart == i + |alts[k]|
    ensures r.None? ==> forall k :: 0 <= k < |alts| && OccursAt(s, i, alts[k]) ==> GroupAt(s, i + |alts[k]|).None?
  {
    if alts == [] then None
    else if OccursAt(s, i, alts[0]) && GroupAt(s, i + |alts[0]|).Some? then
      Some(Match(i, i + |alts[0]|, GroupAt(s, i + |alts[0]|).value))
    else
      var r := AlternativesAt(s, i, alts[1..]);
      assert forall k :: 1 <= k < |alts| ==> alts[k] == alts[1..][k - 1];
      r
  }

  /** Declarative pattern one: one of the three prefixes occurs at i, and id is the
      longest run of allowed characters right after it. */
  ghost predicate PrefixMatch(s: string, i: nat, g: nat, id: string) {
    && (|| (OccursAt(s, i, WatchPrefix) && g == i + |WatchPrefix|)
        || (OccursAt(s, i, ShortPrefix) && g == i + |ShortPrefix|)
        || (OccursAt(s, i, EmbedPrefix) && g == i + |EmbedPrefix|))
    && IsIdRun(s, g, id)
  }

  lemma CharOfOccurrence(s: string, i: nat, p: string, k: nat)
    requires OccursAt(s, i, p) && k < |p|
    ensures s[i + k] == p[k]
  {
    assert s[i..i + |p|][k] == s[i + k];
  }

  /** At most one of the three prefixes occurs at any position. */
  lemma PrefixesExclusive(s: string, i: nat)
    ensures !(OccursAt(s, i, WatchPrefix) && OccursAt(s, i, ShortPrefix))
    ensures !(OccursAt(s, i, WatchPrefix) && OccursAt(s, i, EmbedPrefix))
    ensures !(OccursAt(s, i, ShortPrefix) && OccursAt(s, i, EmbedPrefix))
  {
    if OccursAt(s, i, ShortPrefix) {
      CharOfOccurrence(s, i, ShortPrefix, 5);
      if OccursAt(s, i, WatchPrefix) {
        CharOfOccurrence(s, i, WatchPrefix, 5);
      }
      if OccursAt(s, i, EmbedPrefix) {
        CharOfOccurrence(s, i, EmbedPrefix, 5);
      }
    }
    if OccursAt(s, i, WatchPrefix) && OccursAt(s, i, EmbedPrefix) {
      CharOfOccurrence(s, i, WatchPrefix, 12);
      CharOfOccurrence(s, i, EmbedPrefix, 12);
    }
  }

  /** The matcher of pattern one at a position agrees with the declarative description. */
  lemma PrefixMatchAtIff(s: string, i: nat, g: nat, id: string)
    ensures AlternativesAt(s, i, PrefixAlternatives) == Some(Match(i, g, id)) <==> PrefixMatch(s, i, g, id)
  {
    var r := AlternativesAt(s, i, PrefixAlternatives);
    PrefixesExclusive(s, i);
    assert PrefixAlternatives[0] == WatchPrefix && PrefixAlternatives[1] == ShortPrefix;
    assert PrefixAlternatives[2] == EmbedPrefix;
    if PrefixMatch(s, i, g, id) {
      IdRunIsGroup(s, g, id);
      assert r.Some?;
      IdRunIsGroup(s, r.value.groupStart, r.value.group);
    }
  }

  // ---------------------------------------------------------------- pattern two

  /** Position of the first newline at or after k, or the end of s: how far `.*` can reach. */
  function LineEnd(s: string, k: nat): (e: nat)
    requires k <= |s|
    ensures k <= e <= |s|
    ensures e == |s| || s[e] == '\n'
    ensures forall t :: k <= t < e ==> s[t] != '\n'
    decreases |s| - k
  {
    if k == |s| || s[k] == '\n' then k else LineEnd(s, k + 1)
  }

  /** `v=` at j followed by a non-empty group. */
  predicate VParamAt(s: string, j: nat) {
    OccursAt(s, j, VParam) && GroupAt(s, j + |VParam|).Some?
  }

  /** Greedy `.*` followed by `v=` and the group: the engine tries the longest `.*` first, so
      this is the last position in lo..hi where `v=` and a non-empty group follow. */
  function LastVParam(s: string, lo: nat, hi: nat): (r: Option<nat>)
    requires lo <= hi
    ensures r.Some? ==> lo <= r.value <= hi && VParamAt(s, r.value)
    ensures r.Some? ==> forall j :: r.value < j <= hi ==> !VParamAt(s, j)
    ensures r.None? ==> forall j :: lo <= j <= hi ==> !VParamAt(s, j)
    decreases hi - lo
  {
    if VParamAt(s, hi) then Some(hi)
    else if hi == lo then None
    else LastVParam(s, lo, hi - 1)
  }

  /** Pattern two at position i. */
  function QueryAt(s: string, i: nat): (r: Option<Match>)
    ensures r.Some? ==> r.value.start == i && IsIdRun(s, r.value.groupStart, r.value.group)
    ensures r.Some? ==> r.value.groupStart >= |VParam|
    ensures r.Some? ==> OccursAt(s, i, QueryPrefix) && OccursAt(s, r.value.groupStart - |VParam|, VParam)
  {
    if OccursAt(s, i, QueryPrefix) then
      var lo := i + |QueryPrefix|;
      match LastVParam(s, lo, LineEnd(s, lo))
      case Some(j) => Some(Match(i, j + |VParam|, GroupAt(s, j + |VParam|).value))
      case None => None
    else None
  }

  /** `youtube.com/watch?` at i, then a newline-free stretch, then `v=` at j and an allowed character. */
  ghost predicate QueryCandidate(s: string, i: nat, j: nat) {
    && OccursAt(s, i, QueryPrefix)
    && i + |QueryPrefix| <= j
    && j + |VParam| < |s|
    && (forall t :: i + |QueryPrefix| <= t < j ==> s[t] != '\n')
    && OccursAt(s, j, VParam)
    && IdChar(s[j + |VParam|])
  }

  /** Declarative pattern two: j is the last candidate for the start i (greedy `.*`), and id is
      the longest run of allowed characters after that `v=`. */
  ghost predicate QueryMatch(s: string, i: nat, j: nat, id: string) {
    && QueryCandidate(s, i, j)
    && (forall j' :: j < j' ==> !QueryCandidate(s, i, j'))
    && IsIdRun(s, j + |VParam|, id)
  }

  /** A candidate `v=` lies on the first line after the prefix, where `.*` can reach. */
  lemma CandidateWithinLine(s: string, i: nat, j: nat)
    requires QueryCandidate(s, i, j)
    ensures j <= LineEnd(s, i + |QueryPrefix|) && VParamAt(s, j)
  {
  }

  /** Every `v=` with a group on that first line is a candidate. */
  lemma VParamWithinLineIsCandidate(s: string, i: nat, j: nat)
    requires OccursAt(s, i, QueryPrefix)
    requires i + |QueryPrefix| <= j <= LineEnd(s, i + |QueryPrefix|) && VParamAt(s, j)
    ensures QueryCandidate(s, i, j)
  {
  }

  lemma QueryMatchIsFound(s: string, i: nat, j: nat, id: string)
    requires QueryMatch(s, i, j, id)
    ensures QueryAt(s, i) == Some(Match(i, j + |VParam|, id))
  {
    var lo := i + |QueryPrefix|;
    var e := LineEnd(s, lo);
    var r := LastVParam(s, lo, e);
    CandidateWithinLine(s, i, j);
    assert lo <= j <= e && VParamAt(s, j);
    assert r.Some?;
    var k := r.value;
    assert j <= k;
    VParamWithinLineIsCandidate(s, i, k);
    assert QueryCandidate(s, i, k);
    assert k == j;
    IdRunIsGroup(s, j + |VParam|, id);
    assert GroupAt(s, j + |VParam|) == Some(id);
    assert QueryAt(s, i) == Some(Match(i, j + |VParam|, GroupAt(s, j + |VParam|).value));
  }

  lemma QueryFoundIsMatch(s: string, i: nat, j: nat, id: string)
    requires QueryAt(s, i) == Some(Match(i, j + |VParam|, id))
    ensures QueryMatch(s, i, j, id)
  {
    var lo := i + |QueryPrefix|;
    var r := LastVParam(s, lo, LineEnd(s, lo));
    assert r == Some(j);
    VParamWithinLineIsCandidate(s, i, j);
    forall j': nat | j < j' ensures !QueryCandidate(s, i, j') {
      if QueryCandidate(s, i, j') {
        CandidateWithinLine(s, i, j');
      }
    }
  }

  /** The matcher of pattern two at a position agrees with the declarative description. */
  lemma QueryMatchAtIff(s: string, i: nat, j: nat, id: string)
    ensures QueryAt(s, i) == Some(Match(i, j + |VParam|, id)) <==> QueryMatch(s, i, j, id)
  {
    if QueryMatch(s, i, j, id) {
      QueryMatchIsFound(s, i, j, id);
    }
    if QueryAt(s, i) == Some(Match(i, j + |VParam|, id)) {
      QueryFoundIsMatch(s, i, j, id);
    }
  }

  // ---------------------------------------------------------------- re.search

  function MatchAt(p: Pattern, s: string, i: nat): (r: Option<Match>)
    ensures r.Some? ==> r.value.start == i && IsIdRun(s, r.value.groupStart, r.value.group)
  {
    match p
    case PrefixPattern => AlternativesAt(s, i, PrefixAlternatives)
    case QueryPattern => QueryAt(s, i)
  }

  /** `re.search` from position k on: the first position where the pattern matches. */
  function SearchFrom(p: Pattern, s: string, k: nat): (r: Option<Match>)
    ensures r.Some? ==> k <= r.value.start <= |s| && MatchAt(p, s, r.value.start) == r
    ensures r.Some? ==> forall j :: k <= j < r.value.start ==> MatchAt(p, s, j).None?
    ensures r.None? ==> forall j :: k <= j <= |s| ==> MatchAt(p, s, j).None?
    decreases |s| + 1 - k
  {
    if k > |s| then None
    else if MatchAt(p, s, k).Some? then MatchAt(p, s, k)
    else SearchFrom(p, s, k + 1)
  }

  function Search(p: Pattern, s: string): Option<Match> {
    SearchFrom(p, s, 0)
  }

  /** A match never starts past the end of the string. */
  lemma MatchWithinString(p: Pattern, s: string, i: nat)
    requires MatchAt(p, s, i).Some?
    ensures i < |s|
  {
  }

  /** What `re.search` with pattern one returns is a declarative match, and no declarative
      match starts further left. */
  lemma PrefixSearchSound(s: string, m: Match)
    requires Search(PrefixPattern, s) == Some(m)
    ensures PrefixMatch(s, m.start, m.groupStart, m.group)
    ensures forall i: nat, g: nat, id: string :: i < m.start ==> !PrefixMatch(s, i, g, id)
  {
    assert MatchAt(PrefixPattern, s, m.start) == Some(m);
    PrefixMatchAtIff(s, m.start, m.groupStart, m.group);
    forall i: nat, g: nat, id: string | i < m.start ensures !PrefixMatch(s, i, g, id) {
      assert MatchAt(PrefixPattern, s, i).None?;
      PrefixMatchAtIff(s, i, g, id);
    }
  }

  /** The leftmost declarative match is what `re.search` with pattern one returns. */
  lemma PrefixSearchComplete(s: string, m: Match)
    requires PrefixMatch(s, m.start, m.groupStart, m.group)
    requires forall i: nat, g: nat, id: string :: i < m.start ==> !PrefixMatch(s, i, g, id)
    ensures Search(PrefixPattern, s) == Some(m)
  {
    var r := Search(PrefixPattern, s);
    PrefixMatchAtIff(s, m.start, m.groupStart, m.group);
    assert MatchAt(PrefixPattern, s, m.start) == Some(m);
    MatchWithinString(PrefixPattern, s, m.start);
    assert r.Some?;
    if r.value.start < m.start {
      assert MatchAt(PrefixPattern, s, r.value.start) == r;
      PrefixMatchAtIff(s, r.value.start, r.value.groupStart, r.value.group);
      assert false;
    }
    assert r.value.start <= m.start;
    assert r == MatchAt(PrefixPattern, s, r.value.start);
  }

  /** Pattern one fails on s exactly when no position holds a declarative match. */
  lemma PrefixSearchFailsIff(s: string)
    ensures Search(PrefixPattern, s).None? <==> forall i: nat, g: nat, id: string :: !PrefixMatch(s, i, g, id)
  {
    var r := Search(PrefixPattern, s);
    if r.Some? {
      PrefixMatchAtIff(s, r.value.start, r.value.groupStart, r.value.group);
    } else {
      forall i: nat, g: nat, id: string ensures !PrefixMatch(s, i, g, id) {
        PrefixMatchAtIff(s, i, g, id);
        if PrefixMatch(s, i, g, id) {
          MatchWithinString(PrefixPattern, s, i);
        }
      }
    }
  }

  /** What `re.search` with pattern two returns is a declarative match, and no declarative
      match starts further left. */
  lemma QuerySearchSound(s: string, m: Match)
    requires Search(QueryPattern, s) == Some(m)
    ensures m.groupStart >= |VParam|
    ensures QueryMatch(s, m.start, m.groupStart - |VParam|, m.group)
    ensures forall i: nat, j: nat, id: string :: i < m.start ==> !QueryMatch(s, i, j, id)
  {
    assert MatchAt(QueryPattern, s, m.start) == Some(m);
    QueryMatchAtIff(s, m.start, m.groupStart - |VParam|, m.group);
    forall i: nat, j: nat, id: string | i < m.start ensures !QueryMatch(s, i, j, id) {
      assert MatchAt(QueryPattern, s, i).None?;
      QueryMatchAtIff(s, i, j, id);
    }
  }

  /** The leftmost declarative match is what `re.search` with pattern two returns. */
  lemma QuerySearchComplete(s: string, i: nat, j: nat, id: string)
    requires QueryMatch(s, i, j, id)
    requires forall i': nat, j': nat, id': string :: i' < i ==> !QueryMatch(s, i', j', id')
    ensures Search(QueryPattern, s) == Some(Match(i, j + |VParam|, id))
  {
    var r := Search(QueryPattern, s);
    QueryMatchAtIff(s, i, j, id);
    assert MatchAt(QueryPattern, s, i) == Some(Match(i, j + |VParam|, id));
    MatchWithinString(QueryPattern, s, i);
    assert r.Some?;
    if r.value.start < i {
      var q := r.value;
      assert MatchAt(QueryPattern, s, q.start) == r;
      QueryMatchAtIff(s, q.start, q.groupStart - |VParam|, q.group);
      assert false;
    }
    assert r.value.start <= i;
    assert r == MatchAt(QueryPattern, s, r.value.start);
  }

  /** Pattern two fails on s exactly when no position holds a declarative match. */
  lemma QuerySearchFailsIff(s: string)
    ensures Search(QueryPattern, s).None? <==> forall i: nat, j: nat, id: string :: !QueryMatch(s, i, j, id)
  {
    var r := Search(QueryPattern, s);
    if r.Some? {
      var q := r.value;
      assert q.groupStart >= |VParam|;
      QueryMatchAtIff(s, q.start, q.groupStart - |VParam|, q.group);
    } else {
      forall i: nat, j: nat, id: string ensures !QueryMatch(s, i, j, id) {
        QueryMatchAtIff(s, i, j, id);
        if QueryMatch(s, i, j, id) {
          MatchWithinString(QueryPattern, s, i);
        }
      }
    }
  }

  // ---------------------------------------------------------------- extract_video_id

  /** What `extract_video_id(url)` returns or raises: pattern one's group if it matches,
      else pattern two's, else `ValueError("Invalid YouTube URL")`. */
  function VideoIdOf(url: string): (r: Result<string, Exception>)
    ensures r.Success? ==> IsVideoId(r.value)
    ensures r.Failure? <==> Search(PrefixPattern, url).None? && Search(QueryPattern, url).None?
    ensures r.Failure? ==> r.error == ValueError(InvalidUrlMessage)
  {
    match Search(PrefixPattern, url)
    case Some(m) => Success(m.group)
    case None =>
      match Search(QueryPattern, url)
      case Some(m) => Success(m.group)
      case None => Failure(ValueError(InvalidUrlMessage))
  }

  /** `extract_video_id`: tries the patterns in list order and returns the first group found. */
  method ExtractVideoId(url: string) returns (r: Result<string, Exception>)
    ensures r == VideoIdOf(url)
  {
    var patterns := [PrefixPattern, QueryPattern];
    for i := 0 to |patterns|
      invariant forall k :: 0 <= k < i ==> Search(patterns[k], url).None?
    {
      var m := Search(patterns[i], url);
      if m.Some? {
        assert i == 0 ==> m == Search(PrefixPattern, url);
        assert i == 1 ==> m == Search(QueryPattern, url) && Search(patterns[0], url).None?;
        return Success(m.value.group);
      }
    }
    assert Search(patterns[0], url).None? && Search(patterns[1], url).None?;
    return Failure(ValueError(InvalidUrlMessage));
  }

  // ---------------------------------------------------------------- what the result means

  /** Pattern one matches at i, and at no position further left. */
  ghost predicate FirstPrefixMatch(s: string, i: nat, g: nat, id: string) {
    && PrefixMatch(s, i, g, id)
    && forall i': nat, g': nat, id': string :: i' < i ==> !PrefixMatch(s, i', g', id')
  }

  /** Pattern two matches at i, and at no position further left. */
  ghost predicate FirstQueryMatch(s: string, i: nat, j: nat, id: string) {
    && QueryMatch(s, i, j, id)
    && forall i': nat, j': nat, id': string :: i' < i ==> !QueryMatch(s, i', j', id')
  }

  ghost predicate NoPrefixMatch(s: string) {
    forall i: nat, g: nat, id: string :: !PrefixMatch(s, i, g, id)
  }

  ghost predicate NoQueryMatch(s: string) {
    forall i: nat, j: nat, id: string :: !QueryMatch(s, i, j, id)
  }

  /** The group of pattern one's leftmost match is the id, whatever pattern two would find. */
  lemma ExtractsFirstPrefixMatch(url: string, i: nat, g: nat, id: string)
    requires FirstPrefixMatch(url, i, g, id)
    ensures VideoIdOf(url) == Success(id)
  {
    PrefixSearchComplete(url, Match(i, g, id));
  }

  /** Without any match of pattern one, the group of pattern two's leftmost match is the id. */
  lemma ExtractsFirstQueryMatch(url: string, i: nat, j: nat, id: string)
    requires NoPrefixMatch(url) && FirstQueryMatch(url, i, j, id)
    ensures VideoIdOf(url) == Success(id)
  {
    PrefixSearchFailsIff(url);
    QuerySearchComplete(url, i, j, id);
  }

  /** Conversely, every id returned is one of those two. */
  lemma ExtractedIdIsFirstMatch(url: string)
    requires VideoIdOf(url).Success?
    ensures || (exists i: nat, g: nat :: FirstPrefixMatch(url, i, g, VideoIdOf(url).value))
            || (NoPrefixMatch(url) && exists i: nat, j: nat :: FirstQueryMatch(url, i, j, VideoIdOf(url).value))
  {
    var id := VideoIdOf(url).value;
    match Search(PrefixPattern, url)
    case Some(m) =>
      PrefixSearchSound(url, m);
      assert FirstPrefixMatch(url, m.start, m.groupStart, id);
    case None =>
      PrefixSearchFailsIff(url);
      var m := Search(QueryPattern, url).value;
      QuerySearchSound(url, m);
      assert FirstQueryMatch(url, m.start, m.groupStart - |VParam|, id);
  }

  /** `ValueError("Invalid YouTube URL")` is raised exactly when neither pattern matches anywhere. */
  lemma InvalidUrlIff(url: string)
    ensures VideoIdOf(url).Failure? <==> NoPrefixMatch(url) && NoQueryMatch(url)
  {
    PrefixSearchFailsIff(url);
    QuerySearchFailsIff(url);
  }
}
