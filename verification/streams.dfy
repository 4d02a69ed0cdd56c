/** Choice of the media stream to download for one video: the highest-bitrate
    audio-only stream, else the highest-quality muxed stream, else an error.
    The program picks with LINQ's `OrderBy(key).Last()`; `OrderBy` is a stable
    sort, so among streams with equal keys the last one listed wins. */
module Streams {
  import opened Errors

  /** The container format of a stream; only its file extension is used, and
      that mapping belongs to the resolver library. */
  datatype Container = Container(name: string)

  /** An audio-only stream and its bitrate. */
  datatype AudioStreamInfo = AudioStreamInfo(container: Container, bitrate: int)

  /** A muxed (audio and video) stream; `videoQuality` is the ordinal of the
      library's video-quality enumeration, which is what `OrderBy` compares. */
  datatype MixedStreamInfo = MixedStreamInfo(container: Container, videoQuality: int)

  /** The stream chosen for download. */
  datatype MediaStream = Audio(audio: AudioStreamInfo) | Mixed(mixed: MixedStreamInfo)
  {
    function StreamContainer(): Container
    {
      match this
      case Audio(a) => a.container
      case Mixed(m) => m.container
    }
  }

  /** What the resolver returns for one video: its title and both stream
      lists, each in the resolver's listing order. */
  datatype VideoInfo = VideoInfo(
    id: string,
    title: string,
    audioStreams: seq<AudioStreamInfo>,
    mixedStreams: seq<MixedStreamInfo>)

  function Bitrate(s: AudioStreamInfo): int { s.bitrate }

  function Quality(s: MixedStreamInfo): int { s.videoQuality }

  /** `i` is the position of the last element of `s` whose key is maximal:
      no key exceeds it, and every later key is strictly smaller. */
  ghost predicate IsLastMax<T>(s: seq<T>, key: T -> int, i: int)
  {
    && 0 <= i < |s|
    && (forall j :: 0 <= j < |s| ==> key(s[j]) <= key(s[i]))
    && (forall j :: i < j < |s| ==> key(s[j]) < key(s[i]))
  }

  /** Reference definition of the winner of `OrderBy(key).Last()`, by a
      single left-to-right scan in which a later key that ties takes over. */
  function LastMaxIndex<T>(s: seq<T>, key: T -> int): (i: nat)
    requires |s| > 0
    ensures IsLastMax(s, key, i)
  {
    if |s| == 1 then 0
    else
      var j := LastMaxIndex(s[..|s| - 1], key);
      if key(s[j]) <= key(s[|s| - 1]) then |s| - 1 else j
  }

  /** At most one position is the last maximal one. */
  lemma LastMaxUnique<T>(s: seq<T>, key: T -> int, i: int, j: int)
    requires IsLastMax(s, key, i) && IsLastMax(s, key, j)
    ensures i == j
  {
    assert key(s[i]) == key(s[j]);
  }

  ghost predicate SortedBy<T>(s: seq<T>, key: T -> int)
  {
    forall i, j :: 0 <= i < j < |s| ==> key(s[i]) <= key(s[j])
  }

  /** One step of a stable insertion sort: `x` goes after every element whose
      key is at most `key(x)`, so it follows the equal keys already placed. */
  function InsertStable<T>(sorted: seq<T>, x: T, key: T -> int): (r: seq<T>)
    ensures |r| == |sorted| + 1
    ensures multiset(r) == multiset(sorted) + multiset{x}
    decreases |sorted|
  {
    if |sorted| == 0 || key(sorted[|sorted| - 1]) <= key(x) then sorted + [x]
    else
      var init := sorted[..|sorted| - 1];
      assert sorted == init + [sorted[|sorted| - 1]];
      InsertStable(init, x, key) + [sorted[|sorted| - 1]]
  }

  /** LINQ's `OrderBy`: a stable sort by ascending key, here as an insertion
      sort that inserts the elements in listing order. */
  function OrderBy<T>(s: seq<T>, key: T -> int): (r: seq<T>)
    ensures |r| == |s|
    ensures multiset(r) == multiset(s)
  {
    if |s| == 0 then []
    else
      assert s == s[..|s| - 1] + [s[|s| - 1]];
      InsertStable(OrderBy(s[..|s| - 1], key), s[|s| - 1], key)
  }

  lemma {:induction false} InsertStableSorted<T>(sorted: seq<T>, x: T, key: T -> int)
    requires SortedBy(sorted, key)
    ensures SortedBy(InsertStable(sorted, x, key), key)
    decreases |sorted|
  {
    if |sorted| == 0 || key(sorted[|sorted| - 1]) <= key(x) {
    } else {
      var init := sorted[..|sorted| - 1];
      var last := sorted[|sorted| - 1];
      InsertStableSorted(init, x, key);
      var r := InsertStable(init, x, key);
      forall y | y in r
        ensures key(y) <= key(last)
      {
        assert y in multiset(r);
        if y != x {
          assert y in multiset(init);
        }
      }
      assert InsertStable(sorted, x, key) == r + [last];
    }
  }

  /** `OrderBy` does sort. */
  lemma {:induction false} OrderBySorted<T>(s: seq<T>, key: T -> int)
    ensures SortedBy(OrderBy(s, key), key)
  {
    if |s| > 0 {
      OrderBySorted(s[..|s| - 1], key);
      InsertStableSorted(OrderBy(s[..|s| - 1], key), s[|s| - 1], key);
    }
  }

  /** Inserting after the last element keeps whichever of the two has the
      larger key last, `x` on a tie. */
  lemma InsertStableLast<T>(sorted: seq<T>, x: T, key: T -> int)
    requires |sorted| > 0
    ensures InsertStable(sorted, x, key)[|sorted|]
      == if key(sorted[|sorted| - 1]) <= key(x) then x else sorted[|sorted| - 1]
  {
  }

  /** The last element of the stable sort is the last element of maximal key:
      `OrderBy(key).Last()` agrees with the reference scan. */
  lemma {:induction false} OrderByLastIsLastMax<T>(s: seq<T>, key: T -> int)
    requires |s| > 0
    ensures OrderBy(s, key)[|s| - 1] == s[LastMaxIndex(s, key)]
  {
    var n := |s|;
    if n > 1 {
      var init := s[..n - 1];
      OrderByLastIsLastMax(init, key);
      var sorted := OrderBy(init, key);
      var m := LastMaxIndex(init, key);
      assert sorted[n - 2] == s[m];
      assert OrderBy(s, key) == InsertStable(sorted, s[n - 1], key);
      InsertStableLast(sorted, s[n - 1], key);
    }
  }

  /** `GetBestAudioStreamInfo`: the last audio-only stream of maximal bitrate
      if there is any audio-only stream, else the last muxed stream of maximal
      video quality if there is any muxed stream, else the
      no-applicable-streams error. */
  function SelectStream(v: VideoInfo): (r: Result<MediaStream>)
    ensures r.Failure? <==> |v.audioStreams| == 0 && |v.mixedStreams| == 0
    ensures r.Failure? ==> r.error == NoApplicableStreams
    ensures |v.audioStreams| > 0 ==>
      && r.Success? && r.value.Audio?
      && exists i :: IsLastMax(v.audioStreams, Bitrate, i) && r.value.audio == v.audioStreams[i]
    ensures |v.audioStreams| == 0 && |v.mixedStreams| > 0 ==>
      && r.Success? && r.value.Mixed?
      && exists i :: IsLastMax(v.mixedStreams, Quality, i) && r.value.mixed == v.mixedStreams[i]
  {
    if |v.audioStreams| > 0 then
      OrderByLastIsLastMax(v.audioStreams, Bitrate);
      Success(Audio(OrderBy(v.audioStreams, Bitrate)[|v.audioStreams| - 1]))
    else if |v.mixedStreams| > 0 then
      OrderByLastIsLastMax(v.mixedStreams, Quality);
      Success(Mixed(OrderBy(v.mixedStreams, Quality)[|v.mixedStreams| - 1]))
    else
      Failure(NoApplicableStreams)
  }

  /** Selection never settles for a muxed stream while an audio-only stream
      exists, and the audio stream it takes has at least the bitrate of
      every audio-only stream. */
  lemma SelectionPrefersAudio(v: VideoInfo)
    requires |v.audioStreams| > 0
    ensures SelectStream(v).Success? && !SelectStream(v).value.Mixed?
    ensures forall s :: s in v.audioStreams ==> s.bitrate <= SelectStream(v).value.audio.bitrate
  {
  }
}
