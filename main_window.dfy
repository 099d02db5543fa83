/**
 * The transport and playlist controller of the player's main window.
 *
 * The Qt media player, the GStreamer pipeline and the delay timer are kept
 * as abstract state of the window: the media player as its transport
 * state, loaded media, position and duration plus the log of requests made
 * of it; the pipeline as its last requested state plus the log of state
 * requests; the timer as idle or running with an interval. Widgets are
 * reduced to the enable flags of the transport actions and the two labels.
 */
module Player {
  import opened Wrappers
  import opened MimeTypes
  import opened Transport
  import opened Seek
  import TimeText

  /** The previous action goes back a track only at or before this position. */
  const RestartThresholdMs: int := 5000

  /** A media locator as chosen in the open dialog. */
  type Url = string

  datatype PipelineState = PipelineNull | PipelinePaused

  /** A request made of the media player. */
  datatype Command = SetMedia(url: Url) | Play | Pause | Stop | SeekTo(ms: int)

  /** The delay timer. A started QTimer that is not single-shot keeps firing until stopped. */
  datatype DelayTimer = Idle | Running(intervalMs: int)

  /** What stopping issues: a stop request unless the player is already stopped. */
  function StopIfRunning(s: TransportState): seq<Command>
  {
    if s != Stopped then [Stop] else []
  }

  class MainWindow {
    // playlist and filter list
    var playlist: seq<Url>
    var playlistIndex: int
    var mimeTypes: seq<MimeType>
    // the media player
    var state: TransportState
    var media: Option<Url>
    var position: int
    var duration: int
    var commands: seq<Command>
    // the buffering pipeline
    var pipelineState: PipelineState
    var pipelineRequests: seq<PipelineState>
    // the delay timer, whose timeout restarts playback
    var delayTimer: DelayTimer
    // widgets
    var controls: Controls
    var playbackTimeLabel: string
    var totalDurationLabel: string

    /** The playlist index is -1 exactly when the playlist is empty, and a valid index otherwise. */
    ghost predicate Valid()
      reads this
    {
      -1 <= playlistIndex < |playlist| && (playlistIndex == -1 <==> playlist == [])
    }

    constructor ()
      ensures Valid()
      ensures playlist == [] && playlistIndex == -1 && mimeTypes == []
      ensures state == Stopped && media == None && position == 0 && duration == 0 && commands == []
      ensures pipelineState == PipelineNull && pipelineRequests == [] && delayTimer == Idle
      ensures controls == AllEnabled && playbackTimeLabel == "0:00" && totalDurationLabel == "0:00"
    {
      playlist, playlistIndex, mimeTypes := [], -1, [];
      state, media, position, duration, commands := Stopped, None, 0, 0, [];
      pipelineState, pipelineRequests, delayTimer := PipelineNull, [], Idle;
      controls, playbackTimeLabel, totalDurationLabel := AllEnabled, "0:00", "0:00";
    }

    /** `setMedia(url)` then `play()`: the new media starts at 0 with its duration not yet known. */
    method LoadAndPlay(url: Url)
      modifies this`commands, this`state, this`media, this`position, this`duration
      ensures commands == old(commands) + [SetMedia(url), Play]
      ensures state == Playing && media == Some(url) && position == 0 && duration == 0
    {
      commands := commands + [SetMedia(url), Play];
      media, position, duration := Some(url), 0, 0;
      state := Playing;
    }

    /** The play action; a player with nothing loaded stays as it is. */
    method PlayAction()
      modifies this`commands, this`state
      ensures commands == old(commands) + [Play]
      ensures state == if media.Some? then Playing else old(state)
    {
      commands := commands + [Play];
      if media.Some? {
        state := Playing;
      }
    }

    /** The pause action; a player with nothing loaded stays as it is. */
    method PauseAction()
      modifies this`commands, this`state
      ensures commands == old(commands) + [Pause]
      ensures state == if media.Some? then Paused else old(state)
    {
      commands := commands + [Pause];
      if media.Some? {
        state := Paused;
      }
    }

    /**
     * The stop action: stops the player unless it is already stopped.
     * Stopping a QMediaPlayer resets its position to the beginning.
     */
    method EnsureStopped()
      modifies this`commands, this`state, this`position
      ensures state == Stopped
      ensures commands == old(commands) + StopIfRunning(old(state))
      ensures position == if old(state) != Stopped then 0 else old(position)
    {
      if state != Stopped {
        commands := commands + [Stop];
        state := Stopped;
        position := 0;
      }
    }

    /** Appends `t` to the filter list unless it is already listed. */
    method AddIfAbsent(t: MimeType)
      modifies this`mimeTypes
      ensures mimeTypes == AppendIfAbsent(old(mimeTypes), t)
    {
      if t !in mimeTypes {
        mimeTypes := mimeTypes + [t];
      }
    }

    /**
     * The filter step of the open action: rebuild an empty list, append the
     * platform default, TS, FLV and 3GP where absent, and preselect the
     * platform default when it is listed.
     */
    method PrepareMimeFilters(isWindows: bool, backendTypes: seq<MimeType>)
      returns (preselected: Option<MimeType>)
      modifies this`mimeTypes
      ensures mimeTypes == FilterStep(old(mimeTypes), isWindows, backendTypes)
      ensures preselected == Some(PlatformDefault(isWindows))
    {
      if mimeTypes == [] {
        mimeTypes := GetSupportedMimeTypes(backendTypes);
      }
      ghost var m0 := mimeTypes;
      if isWindows {
        AddIfAbsent(AVI);
      } else {
        AddIfAbsent(MP4);
      }
      ghost var m1 := mimeTypes;
      AddIfAbsent(TS);
      ghost var m2 := mimeTypes;
      AddIfAbsent(FLV);
      ghost var m3 := mimeTypes;
      AddIfAbsent(ThreeGP);
      ghost var req := RequiredTypes(isWindows);
      assert AppendAllAbsent(m3, req[3..]) == mimeTypes by {
        assert req[3..][1..] == [];
      }
      assert AppendAllAbsent(m2, req[2..]) == mimeTypes by {
        assert req[2..][1..] == req[3..];
      }
      assert AppendAllAbsent(m1, req[1..]) == mimeTypes by {
        assert req[1..][1..] == req[2..];
      }
      assert AppendAllAbsent(m0, req) == mimeTypes;
      FilterStepContainsRequired(old(mimeTypes), isWindows, backendTypes);
      var defaultType := PlatformDefault(isWindows);
      preselected := if defaultType in mimeTypes then Some(defaultType) else None;
    }

    /**
     * The open action. `selected` is the locator the file dialog returns
     * (None when the dialog is cancelled), `isWindows` the platform test and
     * `backendTypes` the media backend's supported types; `preselected` is
     * the filter the dialog is told to preselect.
     */
    method Open(selected: Option<Url>, isWindows: bool, backendTypes: seq<MimeType>)
      returns (preselected: Option<MimeType>)
      requires Valid()
      modifies this`commands, this`state, this`mimeTypes, this`playlist, this`playlistIndex
      modifies this`media, this`position, this`duration
      ensures Valid()
      ensures mimeTypes == FilterStep(old(mimeTypes), isWindows, backendTypes)
      ensures preselected == Some(PlatformDefault(isWindows))
      ensures selected.None? ==>
        && playlist == old(playlist) && playlistIndex == old(playlistIndex)
        && commands == old(commands) + StopIfRunning(old(state)) && state == Stopped
        && media == old(media) && duration == old(duration)
        && position == if old(state) != Stopped then 0 else old(position)
      ensures selected.Some? ==>
        && playlist == old(playlist) + [selected.value] && playlistIndex == |playlist| - 1
        && commands == old(commands) + StopIfRunning(old(state)) + [SetMedia(selected.value), Play]
        && state == Playing && media == selected && position == 0 && duration == 0
    {
      EnsureStopped();
      preselected := PrepareMimeFilters(isWindows, backendTypes);
      if selected.Some? {
        AppendAndPlay(selected.value);
      }
    }

    /** The accepted-dialog branch of the open action: append, select the new last entry, play it. */
    method AppendAndPlay(url: Url)
      requires Valid()
      modifies this`playlist, this`playlistIndex, this`commands, this`state, this`media, this`position, this`duration
      ensures Valid()
      ensures playlist == old(playlist) + [url] && playlistIndex == |playlist| - 1
      ensures commands == old(commands) + [SetMedia(url), Play]
      ensures state == Playing && media == Some(url) && position == 0 && duration == 0
    {
      playlist := playlist + [url];
      playlistIndex := |playlist| - 1;
      LoadAndPlay(url);
    }

    /**
     * The previous action: at or before 5000 ms, and when there is an
     * earlier entry, step back and play it; otherwise rewind to 0.
     */
    method PreviousClicked()
      requires Valid()
      modifies this`playlistIndex, this`commands, this`state, this`media, this`position, this`duration
      ensures Valid()
      ensures old(position) <= RestartThresholdMs && old(playlistIndex) > 0 ==>
        && playlistIndex == old(playlistIndex) - 1
        && commands == old(commands) + [SetMedia(playlist[playlistIndex]), Play]
        && state == Playing && media == Some(playlist[playlistIndex]) && position == 0 && duration == 0
      ensures !(old(position) <= RestartThresholdMs && old(playlistIndex) > 0) ==>
        && playlistIndex == old(playlistIndex)
        && commands == old(commands) + [SeekTo(0)] && position == 0
        && state == old(state) && media == old(media) && duration == old(duration)
    {
      if position <= RestartThresholdMs && playlistIndex > 0 {
        playlistIndex := playlistIndex - 1;
        LoadAndPlay(playlist[playlistIndex]);
      } else {
        commands := commands + [SeekTo(0)];
        position := 0;
      }
    }

    /** The next action: step forward and play when there is a later entry, else nothing. */
    method NextClicked()
      requires Valid()
      modifies this`playlistIndex, this`commands, this`state, this`media, this`position, this`duration
      ensures Valid()
      ensures old(playlistIndex) < |playlist| - 1 ==>
        && playlistIndex == old(playlistIndex) + 1
        && commands == old(commands) + [SetMedia(playlist[playlistIndex]), Play]
        && state == Playing && media == Some(playlist[playlistIndex]) && position == 0 && duration == 0
      ensures old(playlistIndex) >= |playlist| - 1 ==>
        && playlistIndex == old(playlistIndex) && commands == old(commands)
        && state == old(state) && media == old(media) && position == old(position) && duration == old(duration)
    {
      if playlistIndex < |playlist| - 1 {
        playlistIndex := playlistIndex + 1;
        LoadAndPlay(playlist[playlistIndex]);
      }
    }

    /** Reload and play the current entry, if there is one. */
    method StartMediaPlayback()
      requires Valid()
      modifies this`commands, this`state, this`media, this`position, this`duration
      ensures playlistIndex >= 0 ==>
        && commands == old(commands) + [SetMedia(playlist[playlistIndex]), Play]
        && state == Playing && media == Some(playlist[playlistIndex]) && position == 0 && duration == 0
      ensures playlistIndex < 0 ==>
        && playlist == []
        && commands == old(commands) && state == old(state) && media == old(media)
        && position == old(position) && duration == old(duration)
    {
      if playlistIndex >= 0 {
        LoadAndPlay(playlist[playlistIndex]);
      }
    }

    /** The delay timer fires: playback restarts, and the timer keeps running. */
    method DelayTimerTimeout()
      requires Valid() && delayTimer.Running?
      modifies this`commands, this`state, this`media, this`position, this`duration
      ensures playlistIndex >= 0 ==>
        && commands == old(commands) + [SetMedia(playlist[playlistIndex]), Play]
        && state == Playing && media == Some(playlist[playlistIndex]) && position == 0 && duration == 0
      ensures playlistIndex < 0 ==>
        && commands == old(commands) && state == old(state) && media == old(media)
        && position == old(position) && duration == old(duration)
      ensures delayTimer == old(delayTimer)
    {
      StartMediaPlayback();
    }

    /** QTimer.start: (re)starts the single timer with the given interval. */
    method StartDelayTimer(ms: int)
      modifies this`delayTimer
      ensures delayTimer == Running(ms)
    {
      delayTimer := Running(ms);
    }

    /** Forces the pipeline to Null, then to Paused, and (re)starts the 1000 ms timer. */
    method ResetBuffer()
      modifies this`pipelineState, this`pipelineRequests, this`delayTimer
      ensures pipelineRequests == old(pipelineRequests) + [PipelineNull, PipelinePaused]
      ensures pipelineState == PipelinePaused
      ensures delayTimer == Running(ResetDelayMs)
    {
      pipelineRequests := pipelineRequests + [PipelineNull];
      pipelineState := PipelineNull;
      pipelineRequests := pipelineRequests + [PipelinePaused];
      pipelineState := PipelinePaused;
      StartDelayTimer(ResetDelayMs);
    }

    /**
     * The slider moved to `newPosition`. With a known duration the player
     * is asked to seek to the matching millisecond and then reports
     * `landed`; with no known duration no seek is made and the target is 0.
     * A reported position more than 100 ms from the target resets the buffer.
     */
    method SetPosition(newPosition: int, landed: int)
      requires 0 <= newPosition
      modifies this`commands, this`position, this`pipelineState, this`pipelineRequests, this`delayTimer
      ensures duration > 0 ==>
        commands == old(commands) + [SeekTo(SeekTarget(newPosition, duration))] && position == landed
      ensures duration <= 0 ==> commands == old(commands) && position == old(position)
      ensures Mismatch(position, SeekTarget(newPosition, duration)) ==>
        && pipelineRequests == old(pipelineRequests) + [PipelineNull, PipelinePaused]
        && pipelineState == PipelinePaused && delayTimer == Running(ResetDelayMs)
      ensures !Mismatch(position, SeekTarget(newPosition, duration)) ==>
        && pipelineRequests == old(pipelineRequests)
        && pipelineState == old(pipelineState) && delayTimer == old(delayTimer)
    {
      var videoDuration := duration;
      var videoPosition := 0;
      if videoDuration > 0 {
        videoPosition := (newPosition * videoDuration) / SliderMax;
        commands := commands + [SeekTo(videoPosition)];
        position := landed;
      }
      if Mismatch(position, videoPosition) {
        ResetBuffer();
        StartDelayTimer(ResetDelayMs);
      }
    }

    /** The total-duration label shows `d` as hh:mm:ss. */
    method UpdateTotalDuration(d: int)
      modifies this`totalDurationLabel
      ensures totalDurationLabel == TimeText.TotalDurationLabel(d)
    {
      var t := TimeText.HmsByDivmod(d);
      totalDurationLabel := TimeText.HmsText(t);
    }

    /** The elapsed label shows `p` as hh:mm:ss, or "0:00:00" while stopped. */
    method UpdatePlaybackTime(p: int)
      modifies this`playbackTimeLabel
      ensures playbackTimeLabel == TimeText.PlaybackTimeLabel(state == Stopped, p)
    {
      if state == Stopped {
        playbackTimeLabel := "0:00:00";
      } else {
        var t := TimeText.HmsByFloor(p);
        playbackTimeLabel := TimeText.HmsText(t);
      }
    }

    /** Refreshes the action enable flags for `s` and shows position and duration as m:ss. */
    method UpdateButtons(s: TransportState)
      modifies this`controls, this`playbackTimeLabel, this`totalDurationLabel
      ensures controls == ControlsFor(|playlist|, s, position)
      ensures playbackTimeLabel == TimeText.MinSecText(TimeText.MinSecOf(position))
      ensures totalDurationLabel == TimeText.MinSecText(TimeText.MinSecOf(duration))
    {
      var mediaCount := |playlist|;
      controls := ControlsFor(mediaCount, s, position);
      var current := TimeText.MinSecOf(position);
      var total := TimeText.MinSecOf(duration);
      playbackTimeLabel := TimeText.MinSecText(current);
      totalDurationLabel := TimeText.MinSecText(total);
    }

    /** The player reports a new position; the elapsed label follows. */
    method PositionChanged(p: int)
      modifies this`position, this`playbackTimeLabel
      ensures position == p
      ensures playbackTimeLabel == TimeText.PlaybackTimeLabel(state == Stopped, p)
    {
      position := p;
      UpdatePlaybackTime(p);
    }

    /** The player reports the duration of the loaded media; the duration label follows. */
    method DurationChanged(d: int)
      modifies this`duration, this`totalDurationLabel
      ensures duration == d
      ensures totalDurationLabel == TimeText.TotalDurationLabel(d)
    {
      duration := d;
      UpdateTotalDuration(d);
    }
  }

  /** Stopping twice in a row issues one stop request at most. */
  method StopTwice(w: MainWindow)
    modifies w`commands, w`state, w`position
    ensures w.state == Stopped
    ensures w.commands == old(w.commands) + StopIfRunning(old(w.state))
    ensures w.position == if old(w.state) != Stopped then 0 else old(w.position)
  {
    w.EnsureStopped();
    w.EnsureStopped();
  }

  /** Opening one file plays it at index 0; next on a one-entry playlist changes nothing. */
  method OpenThenNextScenario()
  {
    var w := new MainWindow();
    var _ := w.Open(Some("a.mp4"), false, []);
    assert w.state == Playing && w.playlistIndex == 0;
    w.NextClicked();
    assert w.playlistIndex == 0 && w.commands == [SetMedia("a.mp4"), Play];
  }

  /** With three entries at index 1, previous rewinds at 6000 ms but goes back at 2000 ms. */
  method PreviousScenario(w: MainWindow)
    requires w.Valid() && |w.playlist| == 3 && w.playlistIndex == 1
    modifies w
  {
    w.PositionChanged(6000);
    w.PreviousClicked();
    assert w.playlistIndex == 1 && w.position == 0;
    w.PositionChanged(2000);
    w.PreviousClicked();
    assert w.playlistIndex == 0 && w.media == Some(w.playlist[0]) && w.state == Playing;
  }

  /** A seek that lands 150 ms early resets the pipeline and arms the 1000 ms timer once. */
  method StallScenario(w: MainWindow)
    requires w.duration == 10000 && w.pipelineRequests == []
    modifies w
  {
    assert SeekTarget(500, 10000) == 5000;
    w.SetPosition(500, 4850);
    assert w.commands[|w.commands| - 1] == SeekTo(5000);
    assert w.pipelineRequests == [PipelineNull, PipelinePaused] && w.delayTimer == Running(1000);
    w.SetPosition(500, 4990);
    assert w.pipelineRequests == [PipelineNull, PipelinePaused] && w.delayTimer == Running(1000);
  }
}
