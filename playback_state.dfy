/**
 * The player state record of App.js and the handlers that rebuild it.
 * Every handler replaces the whole record by spreading the old one and
 * overriding one or two fields; `Changed` names the fields a handler
 * altered, so each contract says which fields move and that no other does.
 */
module PlaybackState {
  import opened Wrappers

  /**
   * The record held by `useState`. `volume` and `played` are fractions;
   * the last three fields are absent until the first progress report is
   * spread into the record.
   */
  datatype PlayerState = PlayerState(
    playing: bool,
    muted: bool,
    volume: real,
    playbackRate: real,
    played: real,
    seeking: bool,
    playedSeconds: Option<real>,
    loaded: Option<real>,
    loadedSeconds: Option<real>)

  /** The record the component starts with. */
  const Initial: PlayerState :=
    PlayerState(true, true, 0.5, 1.0, 0.0, false, None, None, None)

  /** The object the player backend passes to `onProgress`. */
  datatype ProgressReport = ProgressReport(
    played: real,
    playedSeconds: real,
    loaded: real,
    loadedSeconds: real)

  datatype Field =
    | Playing | Muted | Volume | PlaybackRate | Played | Seeking
    | PlayedSeconds | Loaded | LoadedSeconds

  /** The fields in which two records differ. */
  function Changed(s: PlayerState, r: PlayerState): set<Field>
  {
    (if s.playing != r.playing then {Playing} else {})
    + (if s.muted != r.muted then {Muted} else {})
    + (if s.volume != r.volume then {Volume} else {})
    + (if s.playbackRate != r.playbackRate then {PlaybackRate} else {})
    + (if s.played != r.played then {Played} else {})
    + (if s.seeking != r.seeking then {Seeking} else {})
    + (if s.playedSeconds != r.playedSeconds then {PlayedSeconds} else {})
    + (if s.loaded != r.loaded then {Loaded} else {})
    + (if s.loadedSeconds != r.loadedSeconds then {LoadedSeconds} else {})
  }

  /** Records that differ in no field are equal. */
  lemma ChangedEmptyIff(s: PlayerState, r: PlayerState)
    ensures Changed(s, r) == {} <==> s == r
  {
    if Changed(s, r) == {} {
      assert Playing !in Changed(s, r) && Muted !in Changed(s, r) && Volume !in Changed(s, r);
      assert PlaybackRate !in Changed(s, r) && Played !in Changed(s, r) && Seeking !in Changed(s, r);
      assert PlayedSeconds !in Changed(s, r) && Loaded !in Changed(s, r) && LoadedSeconds !in Changed(s, r);
    }
  }

  /** A slider position in percent as the fraction `newValue / 100`. */
  function Percent(v: real): (f: real)
    ensures f * 100.0 == v
  {
    v / 100.0
  }

  /** `handlePlayPause`: flips `playing` and nothing else. */
  function PlayPause(s: PlayerState): (r: PlayerState)
    ensures r.playing == !s.playing
    ensures Changed(s, r) == {Playing}
  {
    s.(playing := !s.playing)
  }

  /** `handleMute`: flips `muted` and nothing else. */
  function Mute(s: PlayerState): (r: PlayerState)
    ensures r.muted == !s.muted
    ensures Changed(s, r) == {Muted}
  {
    s.(muted := !s.muted)
  }

  /**
   * `handleVolumeChange` and `handleVolumeSeekUp` (identical bodies):
   * stores the fraction and mutes exactly when the slider is at 0, so any
   * nonzero volume unmutes.
   */
  function SetVolume(s: PlayerState, v: real): (r: PlayerState)
    ensures r.volume == Percent(v)
    ensures r.muted <==> v == 0.0
    ensures Changed(s, r) <= {Volume, Muted}
  {
    s.(volume := Percent(v), muted := v == 0.0)
  }

  /** `handlePlaybackRateChange`: any rate is stored as given. */
  function SetPlaybackRate(s: PlayerState, rate: real): (r: PlayerState)
    ensures r.playbackRate == rate
    ensures Changed(s, r) <= {PlaybackRate}
  {
    s.(playbackRate := rate)
  }

  /** `{ ...state, ...changeState }`: the report's keys override the record's. */
  function Merge(s: PlayerState, p: ProgressReport): (r: PlayerState)
    ensures r.played == p.played
    ensures r.playedSeconds == Some(p.playedSeconds)
    ensures r.loaded == Some(p.loaded) && r.loadedSeconds == Some(p.loadedSeconds)
    ensures Changed(s, r) <= {Played, PlayedSeconds, Loaded, LoadedSeconds}
  {
    s.(played := p.played, playedSeconds := Some(p.playedSeconds),
       loaded := Some(p.loaded), loadedSeconds := Some(p.loadedSeconds))
  }

  /** The record part of `handleProgress`: a report is merged only when not seeking. */
  function ApplyProgress(s: PlayerState, p: ProgressReport): (r: PlayerState)
    ensures s.seeking ==> r == s
    ensures !s.seeking ==> r == Merge(s, p)
  {
    if s.seeking then s else Merge(s, p)
  }

  /** `handleSeekChange`: a drag moves `played` and nothing else. */
  function SeekChange(s: PlayerState, v: real): (r: PlayerState)
    ensures r.played == Percent(v)
    ensures Changed(s, r) <= {Played}
  {
    s.(played := Percent(v))
  }

  /** `handleSeekMouseDown`: enters seeking. */
  function SeekMouseDown(s: PlayerState): (r: PlayerState)
    ensures r.seeking
    ensures Changed(s, r) <= {Seeking}
  {
    s.(seeking := true)
  }

  /**
   * The record part of `handleSeekMouseUp`: leaves seeking. It does not
   * write `played`; the committed position only reaches the backend.
   */
  function SeekMouseUp(s: PlayerState): (r: PlayerState)
    ensures !r.seeking
    ensures Changed(s, r) <= {Seeking}
  {
    s.(seeking := false)
  }

  /** Play/pause and mute undo themselves. */
  lemma TogglesAreInvolutions(s: PlayerState)
    ensures PlayPause(PlayPause(s)) == s
    ensures Mute(Mute(s)) == s
  {
  }

  /** Any number of progress reports, in order. */
  function ProgressAll(s: PlayerState, ps: seq<ProgressReport>): PlayerState
    decreases |ps|
  {
    if ps == [] then s else ProgressAll(ApplyProgress(s, ps[0]), ps[1..])
  }

  /** While seeking, progress reports leave the record as it is. */
  lemma {:induction false} ProgressWhileSeeking(s: PlayerState, ps: seq<ProgressReport>)
    requires s.seeking
    ensures ProgressAll(s, ps) == s
    decreases |ps|
  {
    if ps != [] {
      ProgressWhileSeeking(ApplyProgress(s, ps[0]), ps[1..]);
    }
  }

  /** When not seeking, the last report wins and seeking stays off. */
  lemma {:induction false} ProgressWhenNotSeeking(s: PlayerState, ps: seq<ProgressReport>)
    requires !s.seeking && ps != []
    ensures ProgressAll(s, ps) == Merge(s, ps[|ps| - 1])
    decreases |ps|
  {
    if |ps| > 1 {
      var s' := ApplyProgress(s, ps[0]);
      ProgressWhenNotSeeking(s', ps[1..]);
      assert ps[1..][|ps| - 2] == ps[|ps| - 1];
    }
  }

  /** What can happen between pressing and releasing the seek slider. */
  datatype DragEvent = Drag(v: real) | Progress(report: ProgressReport)

  /** Applies drag moves and progress reports in order. */
  function Replay(s: PlayerState, es: seq<DragEvent>): PlayerState
    decreases |es|
  {
    if es == [] then s
    else
      var s' := match es[0]
        case Drag(v) => SeekChange(s, v)
        case Progress(p) => ApplyProgress(s, p);
      Replay(s', es[1..])
  }

  /** The slider position after the given events: the last drag, else `current`. */
  function LastDrag(es: seq<DragEvent>, current: real): real
    decreases |es|
  {
    if es == [] then current
    else LastDrag(es[1..], if es[0].Drag? then Percent(es[0].v) else current)
  }

  /** While seeking, only drags move `played`; progress reports are ignored. */
  lemma {:induction false} ReplayWhileSeeking(s: PlayerState, es: seq<DragEvent>)
    requires s.seeking
    ensures Replay(s, es) == s.(played := LastDrag(es, s.played))
    decreases |es|
  {
    if es != [] {
      var s' := match es[0]
        case Drag(v) => SeekChange(s, v)
        case Progress(p) => ApplyProgress(s, p);
      ReplayWhileSeeking(s', es[1..]);
    }
  }

  /**
   * A whole drag gesture (press, any drags and reports, release) changes
   * `played` to the last dragged position, clears `seeking`, and leaves
   * every other field as it was.
   */
  lemma DragGesture(s: PlayerState, es: seq<DragEvent>)
    ensures SeekMouseUp(Replay(SeekMouseDown(s), es))
      == s.(played := LastDrag(es, s.played), seeking := false)
  {
    ReplayWhileSeeking(SeekMouseDown(s), es);
  }
}
