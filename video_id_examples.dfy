/** `extract_video_id` on three typical links, one per way an id is found. */
module VideoIdExamples {
  import opened Wrappers
  import opened Strings
  import opened VideoId

  /** Every prefix of either pattern starts with 'y', so no match starts where s has another character. */
  lemma NoMatchBetween(s: string, lo: nat, hi: nat)
    requires forall k :: lo <= k < hi && k < |s| ==> s[k] != 'y'
    ensures forall i: nat, g: nat, id: string :: lo <= i < hi ==> !PrefixMatch(s, i, g, id)
    ensures forall i: nat, j: nat, id: string :: lo <= i < hi ==> !QueryMatch(s, i, j, id)
  {
    forall i: nat, g: nat, id: string | lo <= i < hi ensures !PrefixMatch(s, i, g, id) {
      if OccursAt(s, i, WatchPrefix) { CharOfOccurrence(s, i, WatchPrefix, 0); }
      if OccursAt(s, i, ShortPrefix) { CharOfOccurrence(s, i, ShortPrefix, 0); }
      if OccursAt(s, i, EmbedPrefix) { CharOfOccurrence(s, i, EmbedPrefix, 0); }
    }
    forall i: nat, j: nat, id: string | lo <= i < hi ensures !QueryMatch(s, i, j, id) {
      if OccursAt(s, i, QueryPrefix) { CharOfOccurrence(s, i, QueryPrefix, 0); }
    }
  }

  /** No match starts inside the piece of s at lo, from the piece's index `from` on, when
      the piece has no 'y' there. */
  lemma NoMatchAlong(s: string, lo: nat, piece: string, from: nat)
    requires lo + |piece| <= |s| && s[lo..lo + |piece|] == piece
    requires forall k :: from <= k < |piece| ==> piece[k] != 'y'
    ensures forall i: nat, g: nat, id: string :: lo + from <= i < lo + |piece| ==> !PrefixMatch(s, i, g, id)
    ensures forall i: nat, j: nat, id: string :: lo + from <= i < lo + |piece| ==> !QueryMatch(s, i, j, id)
  {
    forall k | lo + from <= k < lo + |piece| && k < |s| ensures s[k] != 'y' {
      assert s[k] == s[lo..lo + |piece|][k - lo];
    }
    NoMatchBetween(s, lo + from, lo + |piece|);
  }

  const ShortLinkUrl := "https://" + ShortPrefix + "abc123"

  /** A short link, "https://youtu.be/abc123": the id runs to the end of the URL. */
  lemma ShortLink()
    ensures VideoIdOf(ShortLinkUrl) == Success("abc123")
  {
    var s := ShortLinkUrl;
    assert s[0..8] == "https://";
    assert s[8..17] == ShortPrefix;
    assert s[17..23] == "abc123" && |s| == 23;
    NoMatchAlong(s, 0, "https://", 0);
    ExtractsFirstPrefixMatch(s, 8, 17, "abc123");
  }

  const WatchLinkUrl := "https://www." + WatchPrefix + "abc" + "&t=1"

  /** A watch link with a further parameter, "https://www.youtube.com/watch?v=abc&t=1":
      the id stops at '&'. */
  lemma WatchLink()
    ensures VideoIdOf(WatchLinkUrl) == Success("abc")
  {
    var s := WatchLinkUrl;
    assert s[0..12] == "https://www.";
    assert s[12..32] == WatchPrefix;
    assert s[32..35] == "abc";
    assert s[35] == '&';
    NoMatchAlong(s, 0, "https://www.", 0);
    ExtractsFirstPrefixMatch(s, 12, 32, "abc");
  }

  const QueryLinkUrl := "https://www." + QueryPrefix + "feature=share&" + VParam + "abc"

  /** Pattern one matches nowhere in QueryLinkUrl: its only 'y' starts `youtube.com/watch?f`. */
  lemma QueryLinkHasNoPrefixMatch()
    ensures NoPrefixMatch(QueryLinkUrl)
  {
    var s := QueryLinkUrl;
    assert |s| == 49;
    assert s[0..12] == "https://www.";
    assert s[12..30] == QueryPrefix;
    assert s[30..44] == "feature=share&";
    assert s[44..49] == VParam + "abc";
    NoMatchAlong(s, 0, "https://www.", 0);
    NoMatchAlong(s, 12, QueryPrefix, 1);
    NoMatchAlong(s, 30, "feature=share&", 0);
    NoMatchAlong(s, 44, VParam + "abc", 0);
    QueryLinkNoPrefixAtY();
  }

  /** At its 'y', QueryLinkUrl reads `youtube.com/watch?f`, which none of pattern one's prefixes is. */
  lemma QueryLinkNoPrefixAtY()
    ensures forall g: nat, id: string :: !PrefixMatch(QueryLinkUrl, 12, g, id)
  {
    var s := QueryLinkUrl;
    assert s[12..30] == QueryPrefix;
    assert s[30] == 'f';
    assert s[12..32][18] != WatchPrefix[18];
    assert s[12..21][5] != ShortPrefix[5];
    assert s[12..30][12] != EmbedPrefix[12];
  }

  /** Pattern two matches QueryLinkUrl at the 'y', through the `v=` at 44. */
  lemma QueryLinkQueryMatch()
    ensures FirstQueryMatch(QueryLinkUrl, 12, 44, "abc")
  {
    var s := QueryLinkUrl;
    assert |s| == 49;
    assert s[0..12] == "https://www.";
    assert s[12..30] == QueryPrefix;
    assert s[44..46] == VParam;
    assert s[46..49] == "abc";
    NoMatchAlong(s, 0, "https://www.", 0);
    assert QueryCandidate(s, 12, 44);
    forall j': nat | 44 < j' ensures !QueryCandidate(s, 12, j') {
      if OccursAt(s, j', VParam) { CharOfOccurrence(s, j', VParam, 0); }
    }
  }

  /** A watch link whose `v=` is not the first parameter,
      "https://www.youtube.com/watch?feature=share&v=abc": pattern one finds nothing, and
      pattern two's `.*` skips to the `v=`. */
  lemma QueryLink()
    ensures VideoIdOf(QueryLinkUrl) == Success("abc")
  {
    QueryLinkHasNoPrefixMatch();
    QueryLinkQueryMatch();
    ExtractsFirstQueryMatch(QueryLinkUrl, 12, 44, "abc");
  }
}
