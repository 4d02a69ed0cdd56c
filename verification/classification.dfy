/** What a command-line argument names. Four checks run in a fixed order and
    the first that succeeds decides: a playlist ID, a URL holding a playlist
    ID, a video ID, a URL holding a video ID. An argument that passes none is
    rejected. The checks themselves belong to the resolver library and are
    parameters here. */
module Classification {
  import opened Errors

  /** The resolver library's ID checks. */
  datatype IdRules = IdRules(
    isPlaylistId: string -> bool,
    parsePlaylistId: string -> Option<string>,
    isVideoId: string -> bool,
    parseVideoId: string -> Option<string>)

  /** A recognised argument. */
  datatype Target = Playlist(playlistId: string) | Video(videoId: string)

  /** The argument's interpretation under the `n`-th check, if that check
      succeeds: the independent statement of each check, in priority order. */
  function Interpretation(rules: IdRules, arg: string, n: nat): Option<Target>
    requires n < 4
  {
    if n == 0 then (if rules.isPlaylistId(arg) then Some(Playlist(arg)) else None)
    else if n == 1 then
      (match rules.parsePlaylistId(arg) case Some(id) => Some(Playlist(id)) case None => None)
    else if n == 2 then (if rules.isVideoId(arg) then Some(Video(arg)) else None)
    else (match rules.parseVideoId(arg) case Some(id) => Some(Video(id)) case None => None)
  }

  /** Check `n` gives `t` and every earlier check fails. */
  ghost predicate IsFirstMatch(rules: IdRules, arg: string, n: int, t: Target)
  {
    && 0 <= n < 4
    && Interpretation(rules, arg, n) == Some(t)
    && forall m :: 0 <= m < n ==> Interpretation(rules, arg, m).None?
  }

  /** The argument-type dispatch of the main loop. */
  function Classify(rules: IdRules, arg: string): (r: Result<Target>)
    ensures r.Failure? <==> forall n :: 0 <= n < 4 ==> Interpretation(rules, arg, n).None?
    ensures r.Failure? ==> r.error == UnrecognizedInput(arg)
    ensures r.Success? ==> exists n :: IsFirstMatch(rules, arg, n, r.value)
  {
    if rules.isPlaylistId(arg) then
      assert IsFirstMatch(rules, arg, 0, Playlist(arg));
      Success(Playlist(arg))
    else if rules.parsePlaylistId(arg).Some? then
      assert IsFirstMatch(rules, arg, 1, Playlist(rules.parsePlaylistId(arg).value));
      Success(Playlist(rules.parsePlaylistId(arg).value))
    else if rules.isVideoId(arg) then
      assert IsFirstMatch(rules, arg, 2, Video(arg));
      Success(Video(arg))
    else if rules.parseVideoId(arg).Some? then
      assert IsFirstMatch(rules, arg, 3, Video(rules.parseVideoId(arg).value));
      Success(Video(rules.parseVideoId(arg).value))
    else
      assert forall n :: 0 <= n < 4 ==> Interpretation(rules, arg, n).None?;
      Failure(UnrecognizedInput(arg))
  }

  /** A playlist reading always beats a video reading: whenever either
      playlist check succeeds the argument is a playlist, whatever the video
      checks say. */
  lemma PlaylistBeatsVideo(rules: IdRules, arg: string)
    requires rules.isPlaylistId(arg) || rules.parsePlaylistId(arg).Some?
    ensures Classify(rules, arg).Success? && Classify(rules, arg).value.Playlist?
  {
  }

  /** An argument is read as a video only when both playlist checks fail and
      a video check succeeds; a bare video ID is taken as is, before any URL
      parse is tried. */
  lemma VideoOnlyWhenNoPlaylist(rules: IdRules, arg: string)
    ensures (Classify(rules, arg).Success? && Classify(rules, arg).value.Video?) <==>
      && !rules.isPlaylistId(arg) && rules.parsePlaylistId(arg).None?
      && (rules.isVideoId(arg) || rules.parseVideoId(arg).Some?)
    ensures rules.isVideoId(arg) && !rules.isPlaylistId(arg) && rules.parsePlaylistId(arg).None? ==>
      Classify(rules, arg) == Success(Video(arg))
  {
  }
}
