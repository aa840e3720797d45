/**
 * The `App` component as one object. Its fields are the three pieces of
 * React state (the player record, the display mode, the bookmark list),
 * the module-level idle counter and the overlay's inline visibility, and
 * the argument of the latest `seekTo` call on the player backend. Each
 * handler is one atomic step; times the backend reports are parameters.
 */
module App {
  import opened Wrappers
  import opened JsNumber
  import opened PlaybackState
  import opened ControlsOverlay
  import opened Display

  /** One bookmark: the time read at capture, the label shown then, and the encoded thumbnail. */
  datatype Bookmark = Bookmark(time: Reading, display: string, image: string)

  /** How far `handleRewind` and `handleFastForward` jump, in seconds. */
  const SkipSeconds: real := 10.0

  class Player {
    var state: PlayerState
    var mode: DisplayMode
    var bookmarks: seq<Bookmark>
    var count: int
    var visibility: Visibility
    var lastSeek: Option<Reading>

    /** The idle counter and visibility as one overlay value. */
    function OverlayState(): Overlay
      reads this
    {
      Overlay(count, visibility)
    }

    /**
     * The overlay invariant. Only `HandleProgress` and `HandleMouseMove`
     * may change `count` and `visibility`, and both keep it; every other
     * method's field frame leaves those two fields, and so `Valid()`, as
     * they were.
     */
    ghost predicate Valid()
      reads this
    {
      ControlsOverlay.Valid(OverlayState())
    }

    constructor ()
      ensures Valid()
      ensures state == Initial && mode == Normal && bookmarks == []
      ensures OverlayState() == Start && lastSeek == None
    {
      state := Initial;
      mode := Normal;
      bookmarks := [];
      count := 0;
      visibility := Unset;
      lastSeek := None;
    }

    method HandlePlayPause()
      modifies this`state
      ensures state == PlayPause(old(state))
    {
      state := PlayPause(state);
    }

    /**
     * Seeks ten seconds back from `getCurrentTime()`, without clamping;
     * `null` from a backend that is not ready counts as 0. The handler
     * reads the mounted player, so the placeholder cannot reach it.
     */
    method HandleRewind(currentTime: Reading)
      requires !currentTime.Placeholder?
      modifies this`lastSeek
      ensures lastSeek == Some(Reported(Offset(ToNumber(currentTime), -SkipSeconds)))
    {
      lastSeek := Some(Reported(Offset(ToNumber(currentTime), -SkipSeconds)));
    }

    /** Seeks ten seconds forward from `getCurrentTime()`, as `HandleRewind` does backwards. */
    method HandleFastForward(currentTime: Reading)
      requires !currentTime.Placeholder?
      modifies this`lastSeek
      ensures lastSeek == Some(Reported(Offset(ToNumber(currentTime), SkipSeconds)))
    {
      lastSeek := Some(Reported(Offset(ToNumber(currentTime), SkipSeconds)));
    }

    method HandleMute()
      modifies this`state
      ensures state == Mute(old(state))
    {
      state := Mute(state);
    }

    method HandleVolumeChange(v: real)
      modifies this`state
      ensures state == SetVolume(old(state), v)
    {
      state := SetVolume(state, v);
    }

    method HandleVolumeSeekUp(v: real)
      modifies this`state
      ensures state == SetVolume(old(state), v)
    {
      state := SetVolume(state, v);
    }

    method HandlePlaybackRateChange(rate: real)
      modifies this`state
      ensures state == SetPlaybackRate(old(state), rate)
    {
      state := SetPlaybackRate(state, rate);
    }

    /**
     * A progress tick: the overlay counter runs whatever `seeking` is,
     * and the report is merged only when not seeking.
     */
    method HandleProgress(report: ProgressReport)
      requires Valid()
      modifies this`state, this`count, this`visibility
      ensures Valid()
      ensures OverlayState() == Tick(old(OverlayState()))
      ensures state == ApplyProgress(old(state), report)
    {
      if count > 1 {
        visibility := Hidden;
        count := 0;
      }
      if visibility == Visible {
        count := count + 1;
      }
      if !state.seeking {
        state := Merge(state, report);
      }
    }

    method HandleSeekChange(v: real)
      modifies this`state
      ensures state == SeekChange(old(state), v)
    {
      state := SeekChange(state, v);
    }

    method HandleSeekMouseDown()
      modifies this`state
      ensures state == SeekMouseDown(old(state))
    {
      state := SeekMouseDown(state);
    }

    /** Leaves seeking and sends the slider fraction to the backend; `played` is not written. */
    method HandleSeekMouseUp(v: real)
      modifies this`state, this`lastSeek
      ensures state == SeekMouseUp(old(state))
      ensures lastSeek == Some(Reported(Finite(Percent(v))))
    {
      state := SeekMouseUp(state);
      lastSeek := Some(Reported(Finite(Percent(v))));
    }

    method HandleChangeDisplayFormat()
      modifies this`mode
      ensures mode == ToggleMode(old(mode))
    {
      mode := ToggleMode(mode);
    }

    method HandleMouseMove()
      modifies this`count, this`visibility
      ensures Valid()
      ensures OverlayState() == MouseMove(old(OverlayState()))
    {
      visibility := Visible;
      count := 0;
    }

    /**
     * `addBookmark`: appends one entry holding the time and the elapsed
     * label of this render; earlier entries keep their order and content.
     */
    method AddBookmark(currentTime: Reading, duration: Reading, image: string)
      modifies this`bookmarks
      ensures |bookmarks| == |old(bookmarks)| + 1
      ensures bookmarks[..|old(bookmarks)|] == old(bookmarks)
      ensures bookmarks[|old(bookmarks)|] == Bookmark(currentTime, ElapsedLabel(mode, currentTime, duration), image)
    {
      bookmarks := bookmarks + [Bookmark(currentTime, ElapsedLabel(mode, currentTime, duration), image)];
    }

    /** Clicking a bookmark seeks to the time it recorded, `null` included. */
    method SeekToBookmark(i: nat)
      requires i < |bookmarks|
      modifies this`lastSeek
      ensures lastSeek == Some(bookmarks[i].time)
    {
      lastSeek := Some(bookmarks[i].time);
    }
  }

  /**
   * Drives a fresh player: a mouse move and then three progress ticks.
   * Reports whether the overlay is shown after each tick, and the record
   * after the ticks (merged, since nobody is seeking).
   */
  method IdleHideScenario(p: ProgressReport) returns (shown: seq<bool>, played: real)
    ensures shown == [true, true, false]
    ensures played == p.played
  {
    var player := new Player();
    player.HandleMouseMove();
    shown := [];
    player.HandleProgress(p);
    shown := shown + [Shown(player.OverlayState())];
    player.HandleProgress(p);
    shown := shown + [Shown(player.OverlayState())];
    player.HandleProgress(p);
    shown := shown + [Shown(player.OverlayState())];
    played := player.state.played;
  }

  /**
   * Drives a fresh player's volume slider to 0 and then back to 50:
   * zero mutes, and the nonzero value unmutes again.
   */
  method VolumeScenario() returns (mutedAtZero: bool, mutedAtFifty: bool, volume: real)
    ensures mutedAtZero && !mutedAtFifty
    ensures volume == 0.5
  {
    var player := new Player();
    player.HandleVolumeChange(0.0);
    mutedAtZero := player.state.muted;
    player.HandleVolumeChange(50.0);
    player.HandleVolumeSeekUp(50.0);
    mutedAtFifty := player.state.muted;
    volume := player.state.volume;
  }

  /**
   * A drag on a fresh player: press, drag to `v`, a progress report
   * arrives, release at `v`. The report is ignored, `played` holds the
   * dragged fraction, seeking is over and one seek to that fraction is issued.
   */
  method DragScenario(v: real, p: ProgressReport) returns (played: real, seeking: bool, target: Option<Reading>)
    ensures played == v / 100.0 && !seeking
    ensures target == Some(Reported(Finite(v / 100.0)))
  {
    var player := new Player();
    player.HandleSeekMouseDown();
    player.HandleSeekChange(v);
    player.HandleProgress(p);
    player.HandleSeekMouseUp(v);
    played, seeking, target := player.state.played, player.state.seeking, player.lastSeek;
  }
}
