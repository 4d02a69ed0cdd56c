/** The orchestration of a run: each argument is classified and either one
    video or every video of a playlist goes through download, encode, delete
    of the temporary file and tag writing. Every collaborator (the resolver,
    the stream download, the encoder process, the file system, the tag
    library) is a field of `Env`; what the run does is the trace of calls it
    makes on them, and the first failure ends the run. */
module Pipeline {
  import opened Errors
  import opened Streams
  import opened FileNames
  import opened Titles
  import opened Classification

  /** A file the pipeline touches: a download in the temporary directory,
      named by a fresh name and the stream's extension, or an encoded file in
      the output directory. */
  datatype FilePath = TempFile(stem: string, extension: string) | OutputFile(name: string)

  /** What the resolver returns for one playlist: its videos in listing order. */
  datatype PlaylistInfo = PlaylistInfo(title: string, videoIds: seq<string>)

  /** One call on a collaborator. */
  datatype Effect =
    | FetchVideoInfo(videoId: string)
    | FetchPlaylistInfo(playlistId: string)
    | DownloadStream(stream: MediaStream, target: FilePath)
    | Encode(input: FilePath, output: FilePath)
    | DeleteFile(file: FilePath)
    | WriteTags(file: FilePath, tags: TagFields)

  /** The collaborators. A resolver call that throws gives `None`; an effect
      that throws is one whose verdict is `false`. `freshName(n)` is the
      `n`-th name drawn from `Guid.NewGuid()` in the run. */
  datatype Env = Env(
    videoInfo: string -> Option<VideoInfo>,
    playlistInfo: string -> Option<PlaylistInfo>,
    downloadSucceeds: (MediaStream, FilePath) -> bool,
    encodeSucceeds: (FilePath, FilePath) -> bool,
    deleteSucceeds: FilePath -> bool,
    tagWriteSucceeds: (FilePath, TagFields) -> bool,
    fileExtension: Container -> string,
    invalidFileNameChars: set<char>,
    freshName: nat -> string,
    idRules: IdRules)

  /** A stretch of a run: the calls made in order, how it ended, and how many
      fresh names the run has drawn by its end. */
  datatype Run = Run(trace: seq<Effect>, outcome: Outcome, namesDrawn: nat)

  /** The position of each kind of call in the per-video order. */
  function Stage(e: Effect): nat
  {
    match e
    case FetchVideoInfo(_) => 0
    case DownloadStream(_, _) => 1
    case Encode(_, _) => 2
    case DeleteFile(_) => 3
    case WriteTags(_, _) => 4
    case FetchPlaylistInfo(_) => 5
  }

  /** Whether the collaborators let a call go through. Fetching a video's
      metadata counts as failed also when no stream can be selected from it,
      since nothing else happens before selection. */
  predicate Succeeds(env: Env, e: Effect)
  {
    match e
    case FetchVideoInfo(id) => env.videoInfo(id).Some? && SelectStream(env.videoInfo(id).value).Success?
    case FetchPlaylistInfo(id) => env.playlistInfo(id).Some?
    case DownloadStream(s, target) => env.downloadSucceeds(s, target)
    case Encode(input, output) => env.encodeSucceeds(input, output)
    case DeleteFile(file) => env.deleteSucceeds(file)
    case WriteTags(file, tags) => env.tagWriteSucceeds(file, tags)
  }

  /** The error a failing call of a conversion of video `id` raises. */
  function StepError(env: Env, id: string, e: Effect): Error
  {
    match e
    case FetchVideoInfo(_) =>
      if env.videoInfo(id).None? then VideoUnavailable(id) else NoApplicableStreams
    case FetchPlaylistInfo(pid) => PlaylistUnavailable(pid)
    case DownloadStream(_, _) => DownloadFailed(id)
    case Encode(_, _) => EncodeFailed(id)
    case DeleteFile(_) => DeleteFailed(id)
    case WriteTags(_, _) => TagWriteFailed(id)
  }

  /** A call, whether it goes through, and the error the program raises
      when it does not. */
  datatype Step = Step(effect: Effect, succeeds: bool, error: Error)

  /** Straight-line code whose every call may throw: the calls are made in
      order until one fails, and that failure is the outcome. */
  function RunSteps(steps: seq<Step>): (r: (seq<Effect>, Outcome))
    ensures 0 < |r.0| <= |steps| || (|steps| == 0 && r.0 == [])
    ensures forall k :: 0 <= k < |r.0| ==> r.0[k] == steps[k].effect
    decreases |steps|
  {
    if |steps| == 0 then ([], Pass)
    else if !steps[0].succeeds then ([steps[0].effect], Fail(steps[0].error))
    else
      var rest := RunSteps(steps[1..]);
      var trace := [steps[0].effect] + rest.0;
      assert forall k :: 0 <= k < |rest.0| ==> trace[k + 1] == rest.0[k];
      (trace, rest.1)
  }

  /** Every call made but the last went through; the outcome is a pass
      exactly when every step was made and went through; otherwise the last
      call made is the one that failed, and its error is the outcome. */
  lemma {:induction false} RunStepsStopsAtFirstFailure(steps: seq<Step>)
    ensures var r := RunSteps(steps);
    && (forall k :: 0 <= k < |r.0| - 1 ==> steps[k].succeeds)
    && (r.1.Pass? <==> |r.0| == |steps| && forall k :: 0 <= k < |steps| ==> steps[k].succeeds)
    && (r.1.Fail? ==> 0 < |r.0| && !steps[|r.0| - 1].succeeds && r.1.error == steps[|r.0| - 1].error)
    decreases |steps|
  {
    if |steps| > 0 && steps[0].succeeds {
      var rest := RunSteps(steps[1..]);
      RunStepsStopsAtFirstFailure(steps[1..]);
      assert RunSteps(steps) == ([steps[0].effect] + rest.0, rest.1);
      assert forall k :: 0 <= k < |steps| - 1 ==> steps[1..][k] == steps[k + 1];
    }
  }

  /** The steps after a stream was selected: download into `temp`, encode
      it into `output`, delete `temp`, write `tags` into `output`. */
  function TransferSteps(env: Env, id: string, stream: MediaStream, temp: FilePath, output: FilePath, tags: TagFields): seq<Step>
  {
    [ Step(DownloadStream(stream, temp), env.downloadSucceeds(stream, temp), DownloadFailed(id)),
      Step(Encode(temp, output), env.encodeSucceeds(temp, output), EncodeFailed(id)),
      Step(DeleteFile(temp), env.deleteSucceeds(temp), DeleteFailed(id)),
      Step(WriteTags(output, tags), env.tagWriteSucceeds(output, tags), TagWriteFailed(id)) ]
  }

  /** `DownloadAndConvertVideoAsync`: fetch the metadata and select a
      stream; then download it into a temporary file named by the next fresh
      name, encode it into the output file named after the sanitised title,
      delete the temporary file and write the tags parsed from the title.
      `drawn` fresh names have been used before. */
  function ConvertVideo(env: Env, id: string, drawn: nat): Run
  {
    match env.videoInfo(id)
    case None => Run([FetchVideoInfo(id)], Fail(VideoUnavailable(id)), drawn)
    case Some(info) =>
      match SelectStream(info)
      case Failure(e) => Run([FetchVideoInfo(id)], Fail(e), drawn)
      case Success(stream) =>
        var temp := TempFile(env.freshName(drawn), env.fileExtension(stream.StreamContainer()));
        var output := OutputFile(OutputFileName(info.title, env.invalidFileNameChars));
        Transfer(env, id, stream, temp, output, ParseTitle(info.title), drawn)
  }

  /** A conversion once its stream is selected: the metadata fetch, then the
      transfer steps; one fresh name has been drawn for `temp`. */
  function Transfer(env: Env, id: string, stream: MediaStream, temp: FilePath, output: FilePath, tags: TagFields, drawn: nat): Run
  {
    var transfer := RunSteps(TransferSteps(env, id, stream, temp, output, tags));
    Run([FetchVideoInfo(id)] + transfer.0, transfer.1, drawn + 1)
  }

  /** The calls of a conversion after stream selection, in order, each at
      most once. */
  lemma TransferShape(env: Env, id: string, stream: MediaStream, temp: FilePath, output: FilePath, tags: TagFields, drawn: nat)
    ensures var r := Transfer(env, id, stream, temp, output, tags, drawn);
    && 2 <= |r.trace| <= 5
    && r.trace[0] == FetchVideoInfo(id)
    && (forall k :: 0 <= k < |r.trace| ==> Stage(r.trace[k]) == k)
    && r.trace[1] == DownloadStream(stream, temp)
    && (|r.trace| >= 3 ==> r.trace[2] == Encode(temp, output))
    && (|r.trace| >= 4 ==> r.trace[3] == DeleteFile(temp))
    && (|r.trace| >= 5 ==> r.trace[4] == WriteTags(output, tags))
    && r.namesDrawn == drawn + 1
  {
    var t := RunSteps(TransferSteps(env, id, stream, temp, output, tags)).0;
    var trace := [FetchVideoInfo(id)] + t;
    assert forall k :: 1 <= k < |trace| ==> trace[k] == t[k - 1];
  }

  /** A conversion after stream selection stops at its first failing call,
      with that call's error. */
  lemma TransferFailsFast(env: Env, id: string, stream: MediaStream, temp: FilePath, output: FilePath, tags: TagFields, drawn: nat)
    ensures var r := Transfer(env, id, stream, temp, output, tags, drawn);
    && 2 <= |r.trace|
    && (forall k :: 1 <= k < |r.trace| - 1 ==> Succeeds(env, r.trace[k]))
    && (r.outcome.Pass? <==> Succeeds(env, r.trace[|r.trace| - 1]))
    && (r.outcome.Pass? ==> |r.trace| == 5)
    && (r.outcome.Fail? ==> r.outcome.error == StepError(env, id, r.trace[|r.trace| - 1]))
  {
    var steps := TransferSteps(env, id, stream, temp, output, tags);
    assert forall k :: 0 <= k < |steps| ==>
      steps[k].succeeds == Succeeds(env, steps[k].effect) && steps[k].error == StepError(env, id, steps[k].effect);
    RunStepsStopsAtFirstFailure(steps);
    var t := RunSteps(steps).0;
    var trace := [FetchVideoInfo(id)] + t;
    assert forall k :: 1 <= k < |trace| ==> trace[k] == t[k - 1];
  }

  /** The per-video order: the metadata fetch, then download, encode,
      delete and tag write, each at most once and in that order. One fresh
      name is drawn once a stream has been selected. */
  lemma ConvertVideoStages(env: Env, id: string, drawn: nat)
    ensures var r := ConvertVideo(env, id, drawn);
    && 1 <= |r.trace| <= 5
    && r.trace[0] == FetchVideoInfo(id)
    && (forall k :: 0 <= k < |r.trace| ==> Stage(r.trace[k]) == k)
    && r.namesDrawn == (if |r.trace| >= 2 then drawn + 1 else drawn)
  {
    match env.videoInfo(id)
    case None =>
    case Some(info) =>
      match SelectStream(info)
      case Failure(e) =>
      case Success(stream) =>
        var temp := TempFile(env.freshName(drawn), env.fileExtension(stream.StreamContainer()));
        var output := OutputFile(OutputFileName(info.title, env.invalidFileNameChars));
        TransferShape(env, id, stream, temp, output, ParseTitle(info.title), drawn);
  }

  /** A conversion stops at its first failing call: every call but the last
      went through; it passes exactly when the last one did too, which is
      then the tag write; otherwise the error is that of the failing call. */
  lemma ConvertVideoFailsFast(env: Env, id: string, drawn: nat)
    ensures var r := ConvertVideo(env, id, drawn);
    && 1 <= |r.trace|
    && (forall k :: 0 <= k < |r.trace| - 1 ==> Succeeds(env, r.trace[k]))
    && (r.outcome.Pass? <==> Succeeds(env, r.trace[|r.trace| - 1]))
    && (r.outcome.Pass? ==> |r.trace| == 5)
    && (r.outcome.Fail? ==> r.outcome.error == StepError(env, id, r.trace[|r.trace| - 1]))
  {
    match env.videoInfo(id)
    case None =>
    case Some(info) =>
      match SelectStream(info)
      case Failure(e) =>
      case Success(stream) =>
        var temp := TempFile(env.freshName(drawn), env.fileExtension(stream.StreamContainer()));
        var output := OutputFile(OutputFileName(info.title, env.invalidFileNameChars));
        TransferFailsFast(env, id, stream, temp, output, ParseTitle(info.title), drawn);
  }

  /** The files of a conversion: the selected stream is downloaded into a
      file of its own in the temporary directory, named by the next fresh
      name; the encoder reads that file and writes a different one, in the
      output directory, named after the sanitised title; only the downloaded
      file is deleted, and only after it was encoded; the tags parsed from the
      title go into the encoded file. */
  lemma ConvertVideoFiles(env: Env, id: string, drawn: nat)
    ensures var r := ConvertVideo(env, id, drawn);
    && (|r.trace| >= 2 ==>
      && env.videoInfo(id).Some?
      && r.trace[1].DownloadStream?
      && SelectStream(env.videoInfo(id).value) == Success(r.trace[1].stream)
      && r.trace[1].target == TempFile(env.freshName(drawn), env.fileExtension(r.trace[1].stream.StreamContainer())))
    && (|r.trace| >= 3 ==>
      && r.trace[2].Encode?
      && r.trace[2].input == r.trace[1].target
      && r.trace[2].output == OutputFile(OutputFileName(env.videoInfo(id).value.title, env.invalidFileNameChars))
      && r.trace[2].input != r.trace[2].output)
    && (|r.trace| >= 4 ==> r.trace[3] == DeleteFile(r.trace[1].target) && Succeeds(env, r.trace[2]))
    && (|r.trace| >= 5 ==>
      r.trace[4] == WriteTags(r.trace[2].output, ParseTitle(env.videoInfo(id).value.title)))
  {
    match env.videoInfo(id)
    case None =>
    case Some(info) =>
      match SelectStream(info)
      case Failure(e) =>
      case Success(stream) =>
        var temp := TempFile(env.freshName(drawn), env.fileExtension(stream.StreamContainer()));
        var output := OutputFile(OutputFileName(info.title, env.invalidFileNameChars));
        TransferShape(env, id, stream, temp, output, ParseTitle(info.title), drawn);
        TransferFailsFast(env, id, stream, temp, output, ParseTitle(info.title), drawn);
  }

  /** A video titled "<artist> - <song>" with one audio-only stream of
      bitrate 128 and one muxed stream, on collaborators that all succeed:
      the audio-only stream is downloaded, the encoder runs once, the
      temporary file is deleted, and the artist and song go into the tags of
      the output file. */
  lemma ConvertOneVideoExample(env: Env, artist: string, song: string)
    requires NoLineFeed(artist) && NoLineFeed(song) && '-' !in artist
    requires IsTrimmed(artist) && IsTrimmed(song)
    requires env.videoInfo("abc123") == Some(VideoInfo("abc123", artist + " - " + song,
      [AudioStreamInfo(Container("webm"), 128)], [MixedStreamInfo(Container("mp4"), 4)]))
    requires forall s, f :: env.downloadSucceeds(s, f)
    requires forall i, o :: env.encodeSucceeds(i, o)
    requires forall f :: env.deleteSucceeds(f)
    requires forall f, t :: env.tagWriteSucceeds(f, t)
    ensures var temp := TempFile(env.freshName(0), env.fileExtension(Container("webm")));
      var output := OutputFile(Sanitize(artist + " - " + song, env.invalidFileNameChars) + ".mp3");
      ConvertVideo(env, "abc123", 0) == Run(
        [ FetchVideoInfo("abc123"),
          DownloadStream(Audio(AudioStreamInfo(Container("webm"), 128)), temp),
          Encode(temp, output),
          DeleteFile(temp),
          WriteTags(output, TagFields(artist, song)) ],
        Pass, 1)
  {
    var info := env.videoInfo("abc123").value;
    var audio := AudioStreamInfo(Container("webm"), 128);
    assert SelectStream(info) == Success(Audio(audio));
    ArtistDashTitle(artist, song);
    var temp := TempFile(env.freshName(0), env.fileExtension(Container("webm")));
    var output := OutputFile(OutputFileName(info.title, env.invalidFileNameChars));
    assert ConvertVideo(env, "abc123", 0)
      == Transfer(env, "abc123", Audio(audio), temp, output, TagFields(artist, song), 0);
    TransferPasses(env, "abc123", Audio(audio), temp, output, TagFields(artist, song), 0);
  }

  /** When every transfer call goes through, all four are made and the
      conversion passes. */
  lemma TransferPasses(env: Env, id: string, stream: MediaStream, temp: FilePath, output: FilePath, tags: TagFields, drawn: nat)
    requires env.downloadSucceeds(stream, temp) && env.encodeSucceeds(temp, output)
    requires env.deleteSucceeds(temp) && env.tagWriteSucceeds(output, tags)
    ensures Transfer(env, id, stream, temp, output, tags, drawn) == Run(
      [FetchVideoInfo(id), DownloadStream(stream, temp), Encode(temp, output), DeleteFile(temp), WriteTags(output, tags)],
      Pass, drawn + 1)
  {
    var steps := TransferSteps(env, id, stream, temp, output, tags);
    RunStepsStopsAtFirstFailure(steps);
    assert |RunSteps(steps).0| == 4;
  }

  /** The `foreach` loops of the program: `step` is applied to the items in
      order, and the first failing step ends the loop with its error. */
  function RunEach(items: seq<string>, drawn: nat, step: (string, nat) -> Run): Run
    decreases |items|
  {
    if |items| == 0 then Run([], Pass, drawn)
    else
      var first := step(items[0], drawn);
      if first.outcome.Fail? then first
      else
        var rest := RunEach(items[1..], first.namesDrawn, step);
        Run(first.trace + rest.trace, rest.outcome, rest.namesDrawn)
  }

  /** `r` followed by what runs after it, when `r` passed. */
  function Then(r: Run, next: Run): Run
  {
    Run(r.trace + next.trace, next.outcome, next.namesDrawn)
  }

  /** Running two lists of items one after the other is running their
      concatenation; once the first list fails, the second is never touched. */
  lemma {:induction false} RunEachAppend(items: seq<string>, more: seq<string>, drawn: nat, step: (string, nat) -> Run)
    ensures RunEach(items, drawn, step).outcome.Fail? ==>
      RunEach(items + more, drawn, step) == RunEach(items, drawn, step)
    ensures RunEach(items, drawn, step).outcome.Pass? ==>
      RunEach(items + more, drawn, step)
        == Then(RunEach(items, drawn, step), RunEach(more, RunEach(items, drawn, step).namesDrawn, step))
    decreases |items|
  {
    if |items| == 0 {
      assert items + more == more;
    } else {
      assert (items + more)[0] == items[0];
      assert (items + more)[1..] == items[1..] + more;
      var first := step(items[0], drawn);
      if first.outcome.Pass? {
        RunEachAppend(items[1..], more, first.namesDrawn, step);
        var rest := RunEach(items[1..], first.namesDrawn, step);
        if rest.outcome.Pass? {
          var next := RunEach(more, rest.namesDrawn, step);
          assert first.trace + (rest.trace + next.trace) == (first.trace + rest.trace) + next.trace;
        }
      }
    }
  }

  /** Fail-fast: when the item at position `k` is the first to fail, the
      loop ends with that failure and the items after it are never
      processed, whatever they are. */
  lemma FailureStopsLaterItems(items: seq<string>, k: nat, drawn: nat, step: (string, nat) -> Run)
    requires k < |items|
    requires RunEach(items[..k], drawn, step).outcome.Pass?
    requires step(items[k], RunEach(items[..k], drawn, step).namesDrawn).outcome.Fail?
    ensures RunEach(items, drawn, step)
      == Then(RunEach(items[..k], drawn, step), step(items[k], RunEach(items[..k], drawn, step).namesDrawn))
    ensures RunEach(items, drawn, step).outcome
      == step(items[k], RunEach(items[..k], drawn, step).namesDrawn).outcome
  {
    var before := RunEach(items[..k], drawn, step);
    var failing := step(items[k], before.namesDrawn);
    assert items == items[..k] + ([items[k]] + items[k + 1..]);
    RunEachAppend(items[..k], [items[k]] + items[k + 1..], drawn, step);
    assert ([items[k]] + items[k + 1..])[0] == items[k];
  }

  function VideoStep(env: Env): (string, nat) -> Run
  {
    (id: string, drawn: nat) => ConvertVideo(env, id, drawn)
  }

  /** `DownloadAndConvertPlaylistAsync`: fetch the playlist, then convert its
      videos in listing order, stopping at the first failure. */
  function ConvertPlaylist(env: Env, id: string, drawn: nat): Run
  {
    var fetch := [FetchPlaylistInfo(id)];
    match env.playlistInfo(id)
    case None => Run(fetch, Fail(PlaylistUnavailable(id)), drawn)
    case Some(playlist) => Then(Run(fetch, Pass, drawn), RunEach(playlist.videoIds, drawn, VideoStep(env)))
  }

  /** One iteration of the main loop: classify the argument and convert the
      playlist or the video it names; an unrecognised argument raises before
      any call is made. */
  function ProcessArgument(env: Env, arg: string, drawn: nat): Run
  {
    match Classify(env.idRules, arg)
    case Failure(e) => Run([], Fail(e), drawn)
    case Success(Playlist(pid)) => ConvertPlaylist(env, pid, drawn)
    case Success(Video(vid)) => ConvertVideo(env, vid, drawn)
  }

  function ArgumentStep(env: Env): (string, nat) -> Run
  {
    (arg: string, drawn: nat) => ProcessArgument(env, arg, drawn)
  }

  /** `MainAsync`: the arguments in the order given; "Done" is printed when
      the outcome is `Pass`. */
  function ProcessArguments(env: Env, args: seq<string>): Run
  {
    RunEach(args, 0, ArgumentStep(env))
  }

  /** An unrecognised argument ends the run with the unrecognised-input
      error; no call is made for it or for any later argument. */
  lemma UnrecognizedArgumentStopsRun(env: Env, args: seq<string>, k: nat)
    requires k < |args|
    requires ProcessArguments(env, args[..k]).outcome.Pass?
    requires Classify(env.idRules, args[k]).Failure?
    ensures ProcessArguments(env, args).outcome == Fail(UnrecognizedInput(args[k]))
    ensures ProcessArguments(env, args).trace == ProcessArguments(env, args[..k]).trace
  {
    FailureStopsLaterItems(args, k, 0, ArgumentStep(env));
    assert ProcessArguments(env, args[..k]).trace + [] == ProcessArguments(env, args[..k]).trace;
  }

  /** A run that passes recognised every argument. */
  lemma {:induction false} PassingRunRecognizedEveryArgument(env: Env, args: seq<string>, drawn: nat)
    requires RunEach(args, drawn, ArgumentStep(env)).outcome.Pass?
    ensures forall i :: 0 <= i < |args| ==> Classify(env.idRules, args[i]).Success?
    decreases |args|
  {
    if |args| > 0 {
      var first := ProcessArgument(env, args[0], drawn);
      assert first == ArgumentStep(env)(args[0], drawn);
      PassingRunRecognizedEveryArgument(env, args[1..], first.namesDrawn);
      forall i | 0 < i < |args|
        ensures Classify(env.idRules, args[i]).Success?
      {
        assert args[i] == args[1..][i - 1];
      }
    }
  }

  // Gathering facts from traces.

  /** The values `pick` finds in the calls of `trace`, in order. */
  function Collect<U>(trace: seq<Effect>, pick: Effect -> Option<U>): seq<U>
    decreases |trace|
  {
    if |trace| == 0 then []
    else
      (match pick(trace[0]) case Some(u) => [u] case None => []) + Collect(trace[1..], pick)
  }

  lemma {:induction false} CollectAppend<U>(a: seq<Effect>, b: seq<Effect>, pick: Effect -> Option<U>)
    ensures Collect(a + b, pick) == Collect(a, pick) + Collect(b, pick)
    decreases |a|
  {
    if |a| == 0 {
      assert a + b == b;
    } else {
      assert (a + b)[0] == a[0];
      assert (a + b)[1..] == a[1..] + b;
      CollectAppend(a[1..], b, pick);
    }
  }

  lemma {:induction false} CollectNothing<U>(trace: seq<Effect>, pick: Effect -> Option<U>)
    requires forall k :: 0 <= k < |trace| ==> pick(trace[k]).None?
    ensures Collect(trace, pick) == []
    decreases |trace|
  {
    if |trace| > 0 {
      CollectNothing(trace[1..], pick);
    }
  }

  function PickFetchedVideo(e: Effect): Option<string>
  {
    if e.FetchVideoInfo? then Some(e.videoId) else None
  }

  /** The videos whose metadata a trace fetched, in order: one per conversion begun. */
  function FetchedVideos(trace: seq<Effect>): seq<string>
  {
    Collect(trace, PickFetchedVideo)
  }

  function PickTempStem(e: Effect): Option<string>
  {
    if e.DownloadStream? && e.target.TempFile? then Some(e.target.stem) else None
  }

  /** The names of the temporary files a trace downloaded to, in order. */
  function TempStems(trace: seq<Effect>): seq<string>
  {
    Collect(trace, PickTempStem)
  }

  lemma ConvertVideoFetchesOnce(env: Env, id: string, drawn: nat)
    ensures FetchedVideos(ConvertVideo(env, id, drawn).trace) == [id]
  {
    ConvertVideoStages(env, id, drawn);
    var t := ConvertVideo(env, id, drawn).trace;
    assert forall k :: 0 <= k < |t[1..]| ==> Stage(t[1..][k]) == k + 1;
    CollectNothing(t[1..], PickFetchedVideo);
  }

  /** `fetched` is the items up to and including the one at position `k`. */
  ghost predicate StoppedAt(fetched: seq<string>, items: seq<string>, k: int)
  {
    0 <= k < |items| && fetched == items[..k + 1]
  }

  /** A loop whose every step fetches exactly its own item fetches the items
      exactly once each, in order, when it passes; when it fails it has
      fetched the items up to and including the failing one and none after
      it. */
  lemma {:induction false} RunEachFetchesInOrder(items: seq<string>, drawn: nat, step: (string, nat) -> Run)
    requires forall x, n :: FetchedVideos(step(x, n).trace) == [x]
    ensures RunEach(items, drawn, step).outcome.Pass? ==>
      FetchedVideos(RunEach(items, drawn, step).trace) == items
    ensures RunEach(items, drawn, step).outcome.Fail? ==>
      exists k :: StoppedAt(FetchedVideos(RunEach(items, drawn, step).trace), items, k)
    decreases |items|
  {
    if |items| > 0 {
      var first := step(items[0], drawn);
      assert FetchedVideos(first.trace) == [items[0]];
      if first.outcome.Fail? {
        assert StoppedAt(FetchedVideos(RunEach(items, drawn, step).trace), items, 0);
      } else {
        var rest := RunEach(items[1..], first.namesDrawn, step);
        RunEachFetchesInOrder(items[1..], first.namesDrawn, step);
        CollectAppend(first.trace, rest.trace, PickFetchedVideo);
        if rest.outcome.Pass? {
          assert [items[0]] + items[1..] == items;
        } else {
          var k :| StoppedAt(FetchedVideos(rest.trace), items[1..], k);
          assert [items[0]] + items[1..][..k + 1] == items[..k + 2];
          assert StoppedAt(FetchedVideos(RunEach(items, drawn, step).trace), items, k + 1);
        }
      }
    }
  }

  /** Converting a playlist's videos fetches each listed video exactly once,
      in listing order, when it passes; when it fails it has fetched the
      videos up to and including the failing one and none after it. */
  lemma VideosProcessedInListingOrder(env: Env, ids: seq<string>, drawn: nat)
    ensures RunEach(ids, drawn, VideoStep(env)).outcome.Pass? ==>
      FetchedVideos(RunEach(ids, drawn, VideoStep(env)).trace) == ids
    ensures RunEach(ids, drawn, VideoStep(env)).outcome.Fail? ==>
      exists k :: StoppedAt(FetchedVideos(RunEach(ids, drawn, VideoStep(env)).trace), ids, k)
  {
    forall x, n
      ensures FetchedVideos(VideoStep(env)(x, n).trace) == [x]
    {
      ConvertVideoFetchesOnce(env, x, n);
    }
    RunEachFetchesInOrder(ids, drawn, VideoStep(env));
  }

  /** A playlist whose metadata is available is fetched first and its videos
      are then processed in listing order, each once. */
  lemma PlaylistProcessedInListingOrder(env: Env, id: string, drawn: nat)
    requires env.playlistInfo(id).Some?
    ensures ConvertPlaylist(env, id, drawn).trace[0] == FetchPlaylistInfo(id)
    ensures ConvertPlaylist(env, id, drawn).outcome.Pass? ==>
      FetchedVideos(ConvertPlaylist(env, id, drawn).trace) == env.playlistInfo(id).value.videoIds
    ensures ConvertPlaylist(env, id, drawn).outcome.Fail? ==>
      exists k :: StoppedAt(FetchedVideos(ConvertPlaylist(env, id, drawn).trace), env.playlistInfo(id).value.videoIds, k)
  {
    var ids := env.playlistInfo(id).value.videoIds;
    var videos := RunEach(ids, drawn, VideoStep(env));
    VideosProcessedInListingOrder(env, ids, drawn);
    CollectNothing([FetchPlaylistInfo(id)], PickFetchedVideo);
    CollectAppend([FetchPlaylistInfo(id)], videos.trace, PickFetchedVideo);
    if videos.outcome.Fail? {
      var k :| StoppedAt(FetchedVideos(videos.trace), ids, k);
      assert StoppedAt(FetchedVideos(ConvertPlaylist(env, id, drawn).trace), ids, k);
    }
  }

  // Fresh names: every download goes to a temporary file of its own.

  /** The temporary files of `r` are named by the fresh names `drawn`,
      `drawn + 1`, ... in order, one per name drawn. */
  ghost predicate DrawsNamesInOrder(env: Env, r: Run, drawn: nat)
  {
    && r.namesDrawn == drawn + |TempStems(r.trace)|
    && forall i :: 0 <= i < |TempStems(r.trace)| ==> TempStems(r.trace)[i] == env.freshName(drawn + i)
  }

  /** A trace in the per-video order downloads at most once, to the stem of
      its download call. */
  lemma StemsOfConversion(t: seq<Effect>)
    requires 1 <= |t| && forall k :: 0 <= k < |t| ==> Stage(t[k]) == k
    ensures |t| >= 2 ==> t[1].DownloadStream? && (t[1].target.TempFile? ==> TempStems(t) == [t[1].target.stem])
    ensures |t| < 2 ==> TempStems(t) == []
  {
    assert forall k :: 0 <= k < |t[1..]| ==> Stage(t[1..][k]) == k + 1;
    if |t| >= 2 {
      assert forall k :: 0 <= k < |t[2..]| ==> Stage(t[2..][k]) == k + 2;
      CollectNothing(t[2..], PickTempStem);
      assert t[1..][1..] == t[2..];
      if t[1].target.TempFile? {
        assert Collect(t[1..], PickTempStem) == [t[1].target.stem] + Collect(t[2..], PickTempStem);
      }
    } else {
      CollectNothing(t[1..], PickTempStem);
    }
  }

  /** A run in the per-video order that downloads to the next fresh name
      and draws it draws its names in order. */
  lemma ConversionDrawsInOrder(env: Env, r: Run, drawn: nat)
    requires 1 <= |r.trace| && forall k :: 0 <= k < |r.trace| ==> Stage(r.trace[k]) == k
    requires |r.trace| >= 2 ==>
      r.trace[1].DownloadStream? && r.trace[1].target.TempFile? && r.trace[1].target.stem == env.freshName(drawn)
    requires r.namesDrawn == (if |r.trace| >= 2 then drawn + 1 else drawn)
    ensures DrawsNamesInOrder(env, r, drawn)
  {
    StemsOfConversion(r.trace);
  }

  lemma ConvertVideoDrawsInOrder(env: Env, id: string, drawn: nat)
    ensures DrawsNamesInOrder(env, ConvertVideo(env, id, drawn), drawn)
  {
    ConvertVideoStages(env, id, drawn);
    ConvertVideoFiles(env, id, drawn);
    ConversionDrawsInOrder(env, ConvertVideo(env, id, drawn), drawn);
  }

  /** If every step draws its names in order, so does a loop over steps. */
  lemma {:induction false} RunEachDrawsInOrder(env: Env, items: seq<string>, drawn: nat, step: (string, nat) -> Run)
    requires forall x, n :: DrawsNamesInOrder(env, step(x, n), n)
    ensures DrawsNamesInOrder(env, RunEach(items, drawn, step), drawn)
    decreases |items|
  {
    if |items| > 0 {
      var first := step(items[0], drawn);
      assert DrawsNamesInOrder(env, first, drawn);
      if first.outcome.Pass? {
        var rest := RunEach(items[1..], first.namesDrawn, step);
        RunEachDrawsInOrder(env, items[1..], first.namesDrawn, step);
        CollectAppend(first.trace, rest.trace, PickTempStem);
        var a := TempStems(first.trace);
        var b := TempStems(rest.trace);
        forall i | 0 <= i < |a + b|
          ensures (a + b)[i] == env.freshName(drawn + i)
        {
          if i >= |a| {
            assert (a + b)[i] == b[i - |a|];
          }
        }
      }
    }
  }

  /** A call that downloads nothing, followed by a run that draws its names
      in order, draws them in order as a whole. */
  lemma AfterFetchDrawsInOrder(env: Env, e: Effect, r: Run, drawn: nat)
    requires PickTempStem(e).None? && DrawsNamesInOrder(env, r, drawn)
    ensures DrawsNamesInOrder(env, Then(Run([e], Pass, drawn), r), drawn)
  {
    CollectNothing([e], PickTempStem);
    CollectAppend([e], r.trace, PickTempStem);
  }

  lemma ConvertPlaylistDrawsInOrder(env: Env, id: string, drawn: nat)
    ensures DrawsNamesInOrder(env, ConvertPlaylist(env, id, drawn), drawn)
  {
    CollectNothing([FetchPlaylistInfo(id)], PickTempStem);
    if env.playlistInfo(id).Some? {
      forall x, n
        ensures DrawsNamesInOrder(env, VideoStep(env)(x, n), n)
      {
        ConvertVideoDrawsInOrder(env, x, n);
      }
      var videos := RunEach(env.playlistInfo(id).value.videoIds, drawn, VideoStep(env));
      RunEachDrawsInOrder(env, env.playlistInfo(id).value.videoIds, drawn, VideoStep(env));
      AfterFetchDrawsInOrder(env, FetchPlaylistInfo(id), videos, drawn);
    }
  }

  lemma ProcessArgumentDrawsInOrder(env: Env, arg: string, drawn: nat)
    ensures DrawsNamesInOrder(env, ProcessArgument(env, arg, drawn), drawn)
  {
    match Classify(env.idRules, arg)
    case Failure(e) =>
      assert TempStems([]) == [];
    case Success(Playlist(pid)) =>
      ConvertPlaylistDrawsInOrder(env, pid, drawn);
    case Success(Video(vid)) =>
      ConvertVideoDrawsInOrder(env, vid, drawn);
  }

  /** With `Guid.NewGuid()` never repeating itself, no two downloads of a
      run share a temporary file. */
  lemma TempFilesAreDistinct(env: Env, args: seq<string>)
    requires forall m, n :: m != n ==> env.freshName(m) != env.freshName(n)
    ensures var stems := TempStems(ProcessArguments(env, args).trace);
      forall i, j :: 0 <= i < j < |stems| ==> stems[i] != stems[j]
  {
    forall x, n
      ensures DrawsNamesInOrder(env, ArgumentStep(env)(x, n), n)
    {
      ProcessArgumentDrawsInOrder(env, x, n);
    }
    RunEachDrawsInOrder(env, args, 0, ArgumentStep(env));
  }
}
