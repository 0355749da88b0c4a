/**
 * The playlist cursor of `musicPlayer` in src/main.js: a playlist of
 * tracks, the index of the current one, the playing flag, the audio
 * element's `src` and the track-name label.
 */
module MusicPlayer {

  datatype Track = Track(title: string, src: string)

  /** The playlist `init` installs. */
  const DefaultPlaylist := [
    Track("Ambient Track 1", "public/music/01-02. Your Own Personal Universe.mp3"),
    Track("Ambient Track 2", "public/music/01-04. Sporepedia Galactica.mp3"),
    Track("Ambient Track 3", "public/music/08. Heal.mp3")
  ]

  const NoTracks := "No tracks found"

  /** The index `nextTrack` asks for: the following one, or 0 after the last. */
  function NextIndex(i: int, n: nat): int {
    if i < n - 1 then i + 1 else 0
  }

  /** The index `prevTrack` asks for: the preceding one, or the last from 0. */
  function PrevIndex(i: int, n: nat): int {
    if i > 0 then i - 1 else n - 1
  }

  /** On a non-empty playlist both moves stay in range and undo each other. */
  lemma NextPrevInverse(i: int, n: nat)
    requires 0 <= i < n
    ensures 0 <= NextIndex(i, n) < n && 0 <= PrevIndex(i, n) < n
    ensures PrevIndex(NextIndex(i, n), n) == i
    ensures NextIndex(PrevIndex(i, n), n) == i
  {
  }

  /** Moving on `k` times from `i`. */
  function NextTimes(i: int, n: nat, k: nat): int {
    if k == 0 then i else NextIndex(NextTimes(i, n, k - 1), n)
  }

  /** Below the last index, each move on adds one. */
  lemma {:induction false} NextTimesCounts(i: int, n: nat, k: nat)
    requires 0 <= i && i + k < n
    ensures NextTimes(i, n, k) == i + k
  {
    if k > 0 {
      NextTimesCounts(i, n, k - 1);
    }
  }

  /** Moving on `a` times and then `b` times is moving on `a + b` times. */
  lemma {:induction false} NextTimesCompose(i: int, n: nat, a: nat, b: nat)
    ensures NextTimes(NextTimes(i, n, a), n, b) == NextTimes(i, n, a + b)
  {
    if b > 0 {
      NextTimesCompose(i, n, a, b - 1);
    }
  }

  /** The cursor cycles: `n` moves on from any track of `n` come back to it. */
  lemma NextCycles(i: int, n: nat)
    requires 0 <= i < n
    ensures NextTimes(i, n, n) == i
  {
    NextTimesCounts(i, n, n - 1 - i);
    assert NextTimes(i, n, n - i) == 0;
    NextTimesCompose(i, n, n - i, i);
    if i > 0 {
      NextTimesCounts(0, n, i);
    }
  }

  /** What `updateTrackInfo` shows for a cursor on a playlist. */
  function TrackLabel(playlist: seq<Track>, i: nat): string
    requires playlist == [] || i < |playlist|
  {
    if playlist == [] then NoTracks else playlist[i].title
  }

  class Player {
    var playlist: seq<Track>
    var currentIndex: int
    var isPlaying: bool
    var audioSrc: string
    var trackName: string

    /** The cursor is 0 on an empty playlist and in range otherwise; the label shows it. */
    predicate Valid()
      reads this
    {
      && 0 <= currentIndex
      && (playlist == [] ==> currentIndex == 0)
      && (playlist != [] ==> currentIndex < |playlist|)
      && trackName == TrackLabel(playlist, currentIndex)
    }

    /** The object literal followed by `init`: the default playlist, nothing loaded, not playing. */
    constructor ()
      ensures Valid()
      ensures playlist == DefaultPlaylist && currentIndex == 0 && !isPlaying && audioSrc == ""
      ensures trackName == "Ambient Track 1"
    {
      playlist := DefaultPlaylist;
      currentIndex := 0;
      isPlaying := false;
      audioSrc := "";
      trackName := DefaultPlaylist[0].title;
    }

    /** `updateTrackInfo`. */
    method UpdateTrackInfo()
      requires 0 <= currentIndex && (playlist == [] || currentIndex < |playlist|)
      modifies this
      ensures playlist == old(playlist) && currentIndex == old(currentIndex)
      ensures isPlaying == old(isPlaying) && audioSrc == old(audioSrc)
      ensures trackName == TrackLabel(playlist, currentIndex)
    {
      if |playlist| == 0 {
        trackName := NoTracks;
        return;
      }
      trackName := playlist[currentIndex].title;
    }

    /** `loadTrack`: an index outside the playlist changes nothing; otherwise it becomes current and its file is loaded. */
    method LoadTrack(index: int)
      requires Valid()
      modifies this
      ensures Valid()
      ensures playlist == old(playlist) && isPlaying == old(isPlaying)
      ensures index < 0 || index >= |playlist| ==> currentIndex == old(currentIndex) && audioSrc == old(audioSrc)
      ensures 0 <= index < |playlist| ==> currentIndex == index && audioSrc == playlist[index].src
    {
      if index < 0 || index >= |playlist| {
        return;
      }
      currentIndex := index;
      audioSrc := playlist[index].src;
      UpdateTrackInfo();
    }

    /** `prevTrack` (playback of the new file is audio I/O). */
    method PrevTrack()
      requires Valid()
      modifies this
      ensures Valid()
      ensures playlist == old(playlist) && isPlaying == old(isPlaying)
      ensures playlist != [] ==> currentIndex == PrevIndex(old(currentIndex), |playlist|)
      ensures playlist != [] ==> audioSrc == playlist[currentIndex].src
      ensures playlist == [] ==> currentIndex == old(currentIndex) && audioSrc == old(audioSrc)
    {
      var newIndex := if currentIndex > 0 then currentIndex - 1 else |playlist| - 1;
      LoadTrack(newIndex);
    }

    /** `nextTrack`, also run when a track ends. */
    method NextTrack()
      requires Valid()
      modifies this
      ensures Valid()
      ensures playlist == old(playlist) && isPlaying == old(isPlaying)
      ensures playlist != [] ==> currentIndex == NextIndex(old(currentIndex), |playlist|)
      ensures playlist != [] ==> audioSrc == playlist[currentIndex].src
      ensures playlist == [] ==> currentIndex == old(currentIndex) && audioSrc == old(audioSrc)
    {
      var newIndex := if currentIndex < |playlist| - 1 then currentIndex + 1 else 0;
      LoadTrack(newIndex);
    }

    /**
     * `togglePlay`: nothing on an empty playlist; otherwise pause, or load
     * the current track when none is loaded and play.
     */
    method TogglePlay()
      requires Valid()
      modifies this
      ensures Valid()
      ensures playlist == old(playlist) && currentIndex == old(currentIndex)
      ensures playlist == [] ==> isPlaying == old(isPlaying) && audioSrc == old(audioSrc)
      ensures playlist != [] ==> isPlaying == !old(isPlaying)
      ensures playlist != [] && !old(isPlaying) && old(audioSrc) == "" ==> audioSrc == playlist[currentIndex].src
      ensures playlist != [] && (old(isPlaying) || old(audioSrc) != "") ==> audioSrc == old(audioSrc)
    {
      if |playlist| == 0 {
        return;
      }
      if isPlaying {
        isPlaying := false;
      } else {
        if audioSrc == "" {
          LoadTrack(currentIndex);
        }
        isPlaying := true;
      }
    }

    /** `setPlaylist`: the new tracks, with the cursor back at 0. */
    method SetPlaylist(tracks: seq<Track>)
      requires Valid()
      modifies this
      ensures Valid()
      ensures playlist == tracks && currentIndex == 0
      ensures isPlaying == old(isPlaying) && audioSrc == old(audioSrc)
    {
      playlist := tracks;
      currentIndex := 0;
      UpdateTrackInfo();
    }
  }
}
