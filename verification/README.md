# YoutubeMusicDownloader — a Dafny model of its decision logic

YoutubeMusicDownloader is a command-line tool. For each argument it decides
whether the argument names a playlist or a video, given as a bare ID or as a
URL. For every video involved it picks the best audio stream, downloads it to
a temporary file and has ffmpeg encode it into `Output/<cleaned title>.mp3`. It then
deletes the temporary file and writes artist and title tags split from the
video's display title. All of this lives in `YoutubeMusicDownloader/Program.cs`.

This project models that file's logic as pure Dafny functions over immutable
data. The collaborators are fields of an `Env` value:

- the YoutubeExplode client: video and playlist metadata, the ID checks, the stream download and the container's file extension;
- the ffmpeg process;
- `File.Delete`;
- TagLib;
- `Guid.NewGuid()`.

A run is the trace of calls it makes on these collaborators, plus an outcome. An exception anywhere ends the run, so the model's outcome is the first failure.

Modules, one per component:

- `Errors` (`errors.dfy`): `Option`, `Result`, `Outcome`, and the errors a run can end with.
- `Streams` (`streams.dfy`): `GetBestAudioStreamInfo`. LINQ's `OrderBy(key).Last()` is modelled literally, as a stable insertion sort followed by taking the last element. It is proved equal to an independent "last position of maximal key" scan.
- `FileNames` (`file_names.dfy`): removing invalid file-name characters from the title, and the `.mp3` output name.
- `Titles` (`titles.dfy`): .NET `String.Trim()`, with the exact `Char.IsWhiteSpace` set. It also holds a backtracking model of the .NET regex engine on the one pattern `^(?<artist>.*?)-(?<title>.*?)$`, with `.` excluding line feed and `$` also matching before a final line feed. The closed-form split at the first hyphen is proved from it.
- `Classification` (`classification.dfy`): the four-way argument dispatch of `MainAsync`.
- `Pipeline` (`pipeline.dfy`): the per-video steps (`RunSteps`, `ConvertVideo`, `Transfer`), the playlist and argument loops (`RunEach`, `ConvertPlaylist`, `ProcessArguments`), and the properties of their traces.

## Model

| member | source | states |
|---|---|---|
| Streams.LastMaxIndex | YoutubeMusicDownloader/Program.cs:25 | the reference scan returns a position whose key no other key exceeds and which no later key ties |
| Streams.LastMaxUnique | YoutubeMusicDownloader/Program.cs:25 | that position is unique, so "the last maximal stream" names one stream |
| Streams.OrderBySorted | YoutubeMusicDownloader/Program.cs:25 | the stable insertion sort modelling `OrderBy` yields keys in ascending order |
| Streams.OrderByLastIsLastMax | YoutubeMusicDownloader/Program.cs:25 | the last element of `OrderBy(key)` is the element at the last position of maximal key (the last one listed wins a tie) |
| Streams.SelectStream | YoutubeMusicDownloader/Program.cs:22-29 | with any audio-only stream, the result is the last audio-only stream of maximal bitrate; with none but some muxed stream, it is the last muxed stream of maximal quality; it fails exactly when both lists are empty, with the no-applicable-streams error |
| Streams.SelectionPrefersAudio | YoutubeMusicDownloader/Program.cs:24-25 | while an audio-only stream exists, a muxed stream is never chosen, and the chosen bitrate is at least every audio-only bitrate |
| FileNames.Sanitize | YoutubeMusicDownloader/Program.cs:37 | the cleaned title is no longer than the title and contains no invalid character |
| FileNames.SanitizeKeepsValidPositions | YoutubeMusicDownloader/Program.cs:37 | the cleaned title is the title read at exactly its valid positions, in order: a subsequence that drops every invalid character and keeps every other one |
| FileNames.SanitizeFixedPoints | YoutubeMusicDownloader/Program.cs:37 | cleaning leaves a title unchanged if and only if it has no invalid character |
| FileNames.SanitizeIdempotent | YoutubeMusicDownloader/Program.cs:37 | cleaning a cleaned title changes nothing |
| FileNames.OutputFileName | YoutubeMusicDownloader/Program.cs:53 | the output name is the cleaned title followed by ".mp3": its stem is the title read at exactly its valid positions, in order, so it has no invalid character |
| Titles.TrimCutsOnlyWhiteSpace | YoutubeMusicDownloader/Program.cs:63-64 | a trimmed group neither starts nor ends with white space, and is an infix of the group with only white space removed on either side |
| Titles.TitleGroupRunsToEnd | YoutubeMusicDownloader/Program.cs:62 | on a title without line feeds, the lazy title group extends to the end of the title |
| Titles.ArtistGroupStopsAtHyphen | YoutubeMusicDownloader/Program.cs:62 | on a title without line feeds, the lazy artist group ends at the first hyphen |
| Titles.ArtistGroupFailsWithoutHyphen | YoutubeMusicDownloader/Program.cs:62 | on a title without line feeds or hyphens, the pattern does not match |
| Titles.SplitAtFirstHyphen | YoutubeMusicDownloader/Program.cs:62-64 | for a title without line feeds, artist = trimmed text before the first hyphen and title = trimmed text after it |
| Titles.NoHyphenGivesEmptyTags | YoutubeMusicDownloader/Program.cs:62-64 | for a title without line feeds or hyphens, both tags are empty and nothing fails |
| Titles.ArtistDashTitle | YoutubeMusicDownloader/Program.cs:62-64 | "A - B" gives artist A and title B when A has no hyphen and neither has line feeds or surrounding white space |
| Classification.Classify | YoutubeMusicDownloader/Program.cs:98-126 | the argument is rejected with the unrecognized-input error exactly when all four checks fail; otherwise the result is the interpretation of the first check, in the order playlist ID, playlist URL, video ID, video URL, that succeeds |
| Classification.PlaylistBeatsVideo | YoutubeMusicDownloader/Program.cs:98-108 | whenever a playlist check succeeds, the argument is a playlist, whatever the video checks say |
| Classification.VideoOnlyWhenNoPlaylist | YoutubeMusicDownloader/Program.cs:110-120 | an argument is a video exactly when both playlist checks fail and a video check succeeds; a bare video ID is then taken as is |
| Pipeline.RunSteps | YoutubeMusicDownloader/Program.cs:44-69 | the calls made are a non-empty prefix of the steps, in their order (empty only when there are no steps) |
| Pipeline.RunStepsStopsAtFirstFailure | YoutubeMusicDownloader/Program.cs:44-69 | each call is made only after the previous one succeeded; the outcome is a pass exactly when every step was made and succeeded; otherwise the last call made is the one that failed, and its error is the outcome |
| Pipeline.TransferShape | YoutubeMusicDownloader/Program.cs:43-69 | once a stream is selected: fetch, download into the temporary file, encode it into the output file, delete the temporary file, write the tags into the output file, in that order and each at most once; one fresh name is drawn |
| Pipeline.TransferFailsFast | YoutubeMusicDownloader/Program.cs:43-69 | once a stream is selected, the conversion stops at its first failing call with that call's error, and passes only after the tag write went through |
| Pipeline.TransferPasses | YoutubeMusicDownloader/Program.cs:43-69 | when every collaborator call goes through, all four calls are made and the conversion passes |
| Pipeline.ConvertVideoStages | YoutubeMusicDownloader/Program.cs:31-73 | per video, the calls are fetch, download, encode, delete and tag write, strictly in that order and each at most once; a fresh name is drawn exactly when a download was attempted |
| Pipeline.ConvertVideoFailsFast | YoutubeMusicDownloader/Program.cs:31-73 | per video, every call but the last went through; the conversion passes exactly when the last call went through, which is then the tag write; otherwise the error is that of the failing call (missing metadata, no stream, or the failing collaborator) |
| Pipeline.ConvertVideoFiles | YoutubeMusicDownloader/Program.cs:37-64 | the selected stream is downloaded to a temporary file named by the next fresh name; the encoder reads that file and writes a different file in the output directory, named after the cleaned title; only the temporary file is deleted, and only after the encode of it went through; the tags parsed from the title go into the encoded file |
| Pipeline.ConvertVideoFetchesOnce | YoutubeMusicDownloader/Program.cs:31-73 | a video conversion fetches the metadata of its own video, once, and of no other video |
| Pipeline.ConvertOneVideoExample | YoutubeMusicDownloader/Program.cs:22-73 | a video "A - B" with one audio-only and one muxed stream, on collaborators that all succeed, downloads the audio-only stream, encodes once, deletes the temporary file, and tags the output with A and B |
| Pipeline.RunEachAppend | YoutubeMusicDownloader/Program.cs:94-129 | a loop over two lists in a row is the loop over their concatenation; once the first list fails, the second list is never touched |
| Pipeline.FailureStopsLaterItems | YoutubeMusicDownloader/Program.cs:85-89 | when item k is the first to fail, the loop ends with its failure, and nothing after it is processed |
| Pipeline.UnrecognizedArgumentStopsRun | YoutubeMusicDownloader/Program.cs:122-126 | an unrecognized argument ends the run with the unrecognized-input error, without a call for it or for any later argument |
| Pipeline.PassingRunRecognizedEveryArgument | YoutubeMusicDownloader/Program.cs:94-131 | a run that reaches "Done" has recognized every argument |
| Pipeline.RunEachFetchesInOrder | YoutubeMusicDownloader/Program.cs:85-89 | a loop whose every step fetches exactly its own item fetches each item exactly once, in order, when it passes; when it fails, it has fetched the items up to the failing one and none after it |
| Pipeline.VideosProcessedInListingOrder | YoutubeMusicDownloader/Program.cs:85-89 | a passing loop over a playlist's videos fetches each listed video exactly once, in listing order; a failing loop has fetched the videos up to the failing one and none after it |
| Pipeline.PlaylistProcessedInListingOrder | YoutubeMusicDownloader/Program.cs:75-90 | a playlist is fetched first, and its videos are then processed in listing order, each once, stopping at the first failure |
| Pipeline.ConvertVideoDrawsInOrder | YoutubeMusicDownloader/Program.cs:47 | the temporary files a video conversion downloads to are named by the fresh names drawn from the current count on, in order, and the count advances by exactly the number of downloads |
| Pipeline.RunEachDrawsInOrder | YoutubeMusicDownloader/Program.cs:85-89 | a loop whose every step draws fresh names in order draws them in order as a whole |
| Pipeline.ConvertPlaylistDrawsInOrder | YoutubeMusicDownloader/Program.cs:75-90 | a playlist's conversions download to consecutively drawn fresh names, and the count advances by exactly the number of downloads |
| Pipeline.ProcessArgumentDrawsInOrder | YoutubeMusicDownloader/Program.cs:98-126 | processing one argument, video or playlist, downloads to consecutively drawn fresh names, and the count advances by exactly the number of downloads |
| Pipeline.TempFilesAreDistinct | YoutubeMusicDownloader/Program.cs:47 | when fresh names never repeat, no two downloads of a run share a temporary file |

## Left out

- Network calls (`GetVideoInfoAsync`, `GetPlaylistInfoAsync`, `DownloadMediaStreamAsync`): these are YoutubeExplode I/O. They are `Env` fields: metadata as `Option`, and the download as a success verdict.
- ID checks (`ValidatePlaylistId`, `TryParsePlaylistId`, `ValidateVideoId`, `TryParseVideoId`) and `Container.GetFileExtension`: this is library code whose rules are not part of this model. They are parameters: two predicates, two partial functions and an extension function.
- ffmpeg via CliWrap, and TagLib: these are a foreign process and library. Each is a verdict on whether the call raised. Two things are not modelled: the ffmpeg arguments (`-q:a 0 -map a`, overwrite with `-y`), and whether a non-zero exit status raises, which depends on the CliWrap version.
- `Path.GetInvalidFileNameChars()` is platform-specific, so the invalid set is a parameter. `Except` is modelled as a character filter.
- `Path.Combine` and the `Temp`/`Output` directories are modelled as the two constructors of `FilePath`, not as path strings.
- `Guid.NewGuid()`: the n-th name drawn in a run is `freshName(n)`. Distinct temporary files are proved only under the assumption that these names never repeat.
- Console output, `Console.Title`, `Directory.CreateDirectory` and the `Main` wrapper are UI and file-system plumbing.
- async/await: execution is sequential, so it is ordinary sequencing.
- The regex engine models `.` and `$` with their line-feed behaviour. The split theorems are proved only for titles without line feeds.
- Each collaborator verdict is a function of the call's arguments. Repeating an identical call therefore gives the same verdict, which is a simplification of nondeterministic I/O.

## Behaviour of the code worth noting

- `File.Delete` (Program.cs:58) raises on failure, and the exception ends the run. The model lets the delete fail and stops there.
- The stream is downloaded to `Temp/<Guid>.<extension>` (Program.cs:47-48). Only the encoded file is named after the cleaned title (Program.cs:53).
- The title pattern (Program.cs:62) requires a hyphen, so a title without one does not match. The groups of a failed match read back as empty strings, so both tags are empty and nothing raises.
