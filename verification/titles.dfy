/** The artist and title tags derived from a video's display title: the .NET
    regular expression `^(?<artist>.*?)-(?<title>.*?)$` is matched against the
    display title and both captured groups are trimmed of white space. A
    failed match reads back as two empty groups. */
module Titles {
  import opened Errors

  /** The two tag fields written into the encoded file. */
  datatype TagFields = TagFields(artist: string, title: string)

  /** .NET `Char.IsWhiteSpace`: the space, line and paragraph separators of
      Unicode, the controls U+0009 to U+000D, and U+0085. */
  predicate IsWhiteSpace(c: char)
  {
    || '\U{0009}' <= c <= '\U{000D}'
    || c == ' ' || c == '\U{0085}' || c == '\U{00A0}' || c == '\U{1680}'
    || '\U{2000}' <= c <= '\U{200A}'
    || c == '\U{2028}' || c == '\U{2029}' || c == '\U{202F}' || c == '\U{205F}'
    || c == '\U{3000}'
  }

  /** `s` neither starts nor ends with white space. */
  predicate IsTrimmed(s: string)
  {
    |s| > 0 ==> !IsWhiteSpace(s[0]) && !IsWhiteSpace(s[|s| - 1])
  }

  /** The number of white-space characters `s` starts with. */
  function LeadingWhiteSpace(s: string): (n: nat)
    ensures n <= |s|
    ensures forall i :: 0 <= i < n ==> IsWhiteSpace(s[i])
    ensures n < |s| ==> !IsWhiteSpace(s[n])
  {
    if |s| > 0 && IsWhiteSpace(s[0]) then 1 + LeadingWhiteSpace(s[1..]) else 0
  }

  /** The number of white-space characters `s` ends with. */
  function TrailingWhiteSpace(s: string): (n: nat)
    ensures n <= |s|
    ensures forall i :: |s| - n <= i < |s| ==> IsWhiteSpace(s[i])
    ensures n < |s| ==> !IsWhiteSpace(s[|s| - 1 - n])
  {
    if |s| > 0 && IsWhiteSpace(s[|s| - 1]) then 1 + TrailingWhiteSpace(s[..|s| - 1]) else 0
  }

  /** `r` is the infix of `s` that starts at `lead`, and everything of `s`
      before and after it is white space. */
  ghost predicate CutsOnlyWhiteSpace(s: string, r: string, lead: int)
  {
    && 0 <= lead <= |s| - |r|
    && r == s[lead..lead + |r|]
    && (forall i :: 0 <= i < lead ==> IsWhiteSpace(s[i]))
    && (forall i :: lead + |r| <= i < |s| ==> IsWhiteSpace(s[i]))
  }

  /** .NET `String.Trim()`: `s` without its leading and trailing white space. */
  function Trim(s: string): string
  {
    var rest := s[LeadingWhiteSpace(s)..];
    rest[..|rest| - TrailingWhiteSpace(rest)]
  }

  /** The trimmed string neither starts nor ends with white space, and it is
      an infix of `s` with only white space cut off on either side. */
  lemma TrimCutsOnlyWhiteSpace(s: string)
    ensures IsTrimmed(Trim(s))
    ensures exists lead :: CutsOnlyWhiteSpace(s, Trim(s), lead)
  {
    var lead := LeadingWhiteSpace(s);
    var rest := s[lead..];
    var r := rest[..|rest| - TrailingWhiteSpace(rest)];
    assert CutsOnlyWhiteSpace(s, r, lead);
  }

  // The regular expression engine, restricted to this one pattern. The
  // engine backtracks: the lazy artist group tries lengths 0, 1, 2, ... and,
  // for each artist that is followed by '-', the lazy title group tries
  // lengths 0, 1, 2, ... until `$` matches.

  /** `.` without RegexOptions.Singleline: any character but a line feed. */
  predicate MatchesDot(c: char)
  {
    c != '\n'
  }

  /** `$` without RegexOptions.Multiline: the end of the input, or just
      before a line feed that ends it. */
  predicate MatchesEnd(s: string, p: nat)
  {
    p == |s| || (p + 1 == |s| && s[p] == '\n')
  }

  /** The lazy title group `(?<title>.*?)$` starting at `start`, having
      already consumed `len` characters: the length it settles on, if any. */
  function MatchTitleGroup(s: string, start: nat, len: nat): (r: Option<nat>)
    requires start + len <= |s|
    ensures r.Some? ==> len <= r.value && start + r.value <= |s| && MatchesEnd(s, start + r.value)
    decreases |s| - start - len
  {
    if MatchesEnd(s, start + len) then Some(len)
    else if start + len < |s| && MatchesDot(s[start + len]) then MatchTitleGroup(s, start, len + 1)
    else None
  }

  /** A successful match: the lengths of the artist and the title group; the
      hyphen sits between them. */
  datatype Groups = Groups(artistLength: nat, titleLength: nat)

  /** The lazy artist group `^(?<artist>.*?)` having consumed `len`
      characters, followed by `-` and the title group. */
  function MatchArtistGroup(s: string, len: nat): (r: Option<Groups>)
    requires len <= |s|
    ensures r.Some? ==> len <= r.value.artistLength < |s| && s[r.value.artistLength] == '-'
    ensures r.Some? ==> r.value.artistLength + 1 + r.value.titleLength <= |s|
    decreases |s| - len
  {
    if len < |s| && s[len] == '-' && MatchTitleGroup(s, len + 1, 0).Some? then
      Some(Groups(len, MatchTitleGroup(s, len + 1, 0).value))
    else if len < |s| && MatchesDot(s[len]) then MatchArtistGroup(s, len + 1)
    else None
  }

  /** `^(?<artist>.*?)-(?<title>.*?)$` against `s`; the pattern is anchored,
      so only the match attempt at position 0 can succeed. */
  function MatchTitlePattern(s: string): Option<Groups>
  {
    MatchArtistGroup(s, 0)
  }

  /** The values of the artist and the title group; the groups of a failed
      match read back as empty strings. */
  function CapturedGroups(s: string): TagFields
  {
    match MatchTitlePattern(s)
    case None => TagFields("", "")
    case Some(g) => TagFields(s[..g.artistLength], s[g.artistLength + 1..g.artistLength + 1 + g.titleLength])
  }

  /** The tags of a display title: both groups trimmed; a failed match is not
      an error. */
  function ParseTitle(s: string): TagFields
  {
    var groups := CapturedGroups(s);
    TagFields(Trim(groups.artist), Trim(groups.title))
  }

  predicate NoLineFeed(s: string)
  {
    forall i :: 0 <= i < |s| ==> s[i] != '\n'
  }

  /** On a title without line feeds the lazy title group runs to the end. */
  lemma {:induction false} TitleGroupRunsToEnd(s: string, start: nat, len: nat)
    requires NoLineFeed(s) && start + len <= |s|
    ensures MatchTitleGroup(s, start, len) == Some(|s| - start)
    decreases |s| - start - len
  {
    if start + len < |s| {
      TitleGroupRunsToEnd(s, start, len + 1);
    }
  }

  /** On a title without line feeds the artist group stops at the first
      hyphen at or after `len`. */
  lemma {:induction false} ArtistGroupStopsAtHyphen(s: string, len: nat, k: nat)
    requires NoLineFeed(s) && len <= k < |s| && s[k] == '-'
    requires forall i :: len <= i < k ==> s[i] != '-'
    ensures MatchArtistGroup(s, len) == Some(Groups(k, |s| - k - 1))
    decreases k - len
  {
    if len == k {
      TitleGroupRunsToEnd(s, k + 1, 0);
    } else {
      ArtistGroupStopsAtHyphen(s, len + 1, k);
    }
  }

  /** On a title without line feeds and without a hyphen at or after `len`,
      the artist group finds no match. */
  lemma {:induction false} ArtistGroupFailsWithoutHyphen(s: string, len: nat)
    requires NoLineFeed(s) && len <= |s|
    requires forall i :: len <= i < |s| ==> s[i] != '-'
    ensures MatchArtistGroup(s, len) == None
    decreases |s| - len
  {
    if len < |s| {
      ArtistGroupFailsWithoutHyphen(s, len + 1);
    }
  }

  /** For a title without line feeds that contains a hyphen, the artist is
      the trimmed text before the first hyphen and the title is the trimmed
      text after it. */
  lemma SplitAtFirstHyphen(s: string, k: nat)
    requires NoLineFeed(s)
    requires k < |s| && s[k] == '-' && '-' !in s[..k]
    ensures ParseTitle(s) == TagFields(Trim(s[..k]), Trim(s[k + 1..]))
  {
    assert CapturedGroups(s) == TagFields(s[..k], s[k + 1..]) by {
      forall i | 0 <= i < k
        ensures s[i] != '-'
      {
        assert s[i] == s[..k][i];
      }
      ArtistGroupStopsAtHyphen(s, 0, k);
      assert s[k + 1..k + 1 + (|s| - k - 1)] == s[k + 1..];
    }
  }

  /** For a title without line feeds and without a hyphen, both tags are
      empty and nothing fails. */
  lemma NoHyphenGivesEmptyTags(s: string)
    requires NoLineFeed(s) && '-' !in s
    ensures ParseTitle(s) == TagFields("", "")
  {
    ArtistGroupFailsWithoutHyphen(s, 0);
    assert CapturedGroups(s) == TagFields("", "");
  }

  /** The usual shape "Artist - Title" splits into its two parts. */
  lemma ArtistDashTitle(artist: string, title: string)
    requires NoLineFeed(artist) && NoLineFeed(title)
    requires '-' !in artist
    requires IsTrimmed(artist) && IsTrimmed(title)
    ensures ParseTitle(artist + " - " + title) == TagFields(artist, title)
  {
    var s := artist + " - " + title;
    var k := |artist| + 1;
    assert s[..k] == artist + " ";
    assert s[k + 1..] == " " + title;
    assert s[..k][..|artist|] == artist;
    assert NoLineFeed(s) by {
      forall i | 0 <= i < |s|
        ensures s[i] != '\n'
      {
        if i >= k + 2 {
          assert s[i] == title[i - k - 2];
        } else if i < |artist| {
          assert s[i] == artist[i];
        }
      }
    }
    SplitAtFirstHyphen(s, k);
    TrimAroundSpace(artist, title);
  }

  /** One space after a trimmed string, or before one, is trimmed away. */
  lemma TrimAroundSpace(a: string, b: string)
    requires IsTrimmed(a) && IsTrimmed(b)
    ensures Trim(a + " ") == a
    ensures Trim(" " + b) == b
  {
    var s := a + " ";
    if |a| > 0 {
      assert LeadingWhiteSpace(s) == 0;
      assert s[0..] == s;
      assert TrailingWhiteSpace(s[..|s| - 1]) == 0 by { assert s[..|s| - 1] == a; }
      assert s[..|s| - 1] == a;
    } else {
      assert LeadingWhiteSpace(s[1..]) == 0;
    }
    var t := " " + b;
    assert t[1..] == b;
    assert LeadingWhiteSpace(t) == 1 by {
      if |b| > 0 {
        assert LeadingWhiteSpace(t[1..]) == 0;
      }
    }
    assert TrailingWhiteSpace(b) == 0;
    assert b[..|b| - 0] == b;
  }
}
