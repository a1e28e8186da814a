/**
 * One video item of scripts/mediaVimeo.js (the live block, lines 414-834):
 * the handlers that react to the player's events, drive the range input
 * used as a timeline, and toggle playback on a click.
 *
 * The item's attributes (`data-v-ready`, `data-v-playing`,
 * `data-v-timeline-activated`), the text of the time displays, the value of
 * the progress element and of the range input, and the closure flags
 * `isDragging`, `isUserDragging` and `wasPlaying` are the fields of
 * `VideoItem`. Which optional elements exist is fixed when the item is set
 * up. Each event handler is a method. The player is the command log and
 * `PlayerState` of module Player.
 */
module MediaVimeo {
  import opened Wrappers
  import opened Player
  import opened TimeFormat

  class VideoItem {
    /** The video's length in seconds, as `getDuration` and the
        `timeupdate` data report it. */
    const duration: real
    /** `data-v-loop` and `data-v-autoplay`, read when the events fire. */
    const loop: Option<string>
    const autoplay: Option<string>
    /** Which of `[data-v-time='current']`, `[data-v-time='total']`,
        `[data-v-tl='progress']`, `[data-v-tl='input']` and the play and
        pause controls exist. */
    const hasCurrentTime: bool
    const hasTotalTime: bool
    const hasProgress: bool
    const hasInput: bool
    const hasPlayControl: bool
    const hasPauseControl: bool

    var ready: Option<string>
    var playing: Option<string>
    var timelineActivated: Option<string>
    var currentText: string
    var totalText: string
    /** The progress element's `value` and `max`. */
    var progressValue: real
    var progressMax: Option<string>
    /** The range input's value, a percentage of the video. */
    var inputValue: real
    var isDragging: bool
    var isUserDragging: bool
    var wasPlaying: bool
    /** The commands issued to the player, oldest first. */
    var log: seq<Command>
    var player: PlayerState

    ghost predicate Valid()
      reads this
    {
      && duration > 0.0
      && isDragging == isUserDragging
      && (isDragging ==> hasInput)
      && 0.0 <= inputValue <= 100.0
      && SeeksWithin(log, duration)
    }

    /** The item as the page gives it, with the input's initial value set
        to 0 when the input exists. */
    constructor (duration: real, loop: Option<string>, autoplay: Option<string>,
                 hasCurrentTime: bool, hasTotalTime: bool, hasProgress: bool, hasInput: bool,
                 hasPlayControl: bool, hasPauseControl: bool,
                 playing: Option<string>, player: PlayerState)
      requires duration > 0.0
      ensures Valid()
      ensures this.duration == duration && this.loop == loop && this.autoplay == autoplay
      ensures this.hasCurrentTime == hasCurrentTime && this.hasTotalTime == hasTotalTime
      ensures this.hasProgress == hasProgress && this.hasInput == hasInput
      ensures this.hasPlayControl == hasPlayControl && this.hasPauseControl == hasPauseControl
      ensures this.playing == playing && this.player == player
      ensures inputValue == 0.0 && !isDragging && !isUserDragging && !wasPlaying && log == []
    {
      this.duration := duration;
      this.loop := loop;
      this.autoplay := autoplay;
      this.hasCurrentTime := hasCurrentTime;
      this.hasTotalTime := hasTotalTime;
      this.hasProgress := hasProgress;
      this.hasInput := hasInput;
      this.hasPlayControl := hasPlayControl;
      this.hasPauseControl := hasPauseControl;
      this.playing := playing;
      this.player := player;
      ready := None;
      timelineActivated := None;
      currentText := "";
      totalText := "";
      progressValue := 0.0;
      progressMax := None;
      inputValue := 0.0;
      isDragging := false;
      isUserDragging := false;
      wasPlaying := false;
      log := [];
    }

    /** Issue one command: it is logged and the player carries it out. */
    method Issue(c: Command)
      requires Valid()
      requires c.Seek? ==> 0.0 <= c.time <= duration
      modifies this`log, this`player
      ensures Valid()
      ensures log == old(log) + [c] && player == Apply(old(player), c)
    {
      log := log + [c];
      player := Apply(player, c);
    }

    /** The `loaded` event: the item is ready, the total time is shown, and
        with `data-v-autoplay="true"` playback is requested. The attribute
        becomes "true" only when the player accepts (`autoplayOk`); a
        rejection is only logged to the console. */
    method OnLoaded(autoplayOk: bool)
      requires Valid()
      modifies this`ready, this`totalText, this`playing, this`log, this`player
      ensures Valid()
      ensures ready == Some("true")
      ensures totalText == if hasTotalTime then FormatTime(duration) else old(totalText)
      ensures IsTrue(autoplay) ==> log == old(log) + [Play]
      ensures !IsTrue(autoplay) ==> log == old(log)
      ensures playing == if IsTrue(autoplay) && autoplayOk then Some("true") else old(playing)
      ensures player == if IsTrue(autoplay) && autoplayOk then old(player).(paused := false) else old(player)
      ensures old(Agrees(playing, player)) ==> Agrees(playing, player)
    {
      ready := Some("true");
      if hasTotalTime {
        totalText := FormatTime(duration);
      }
      if IsTrue(autoplay) {
        log := log + [Play];
        if autoplayOk {
          player := Apply(player, Play);
          playing := Some("true");
        }
      }
    }

    /** The `ended` event: the player has stopped at the end of the video,
        and the loop rule decides what happens next. */
    method OnEnded()
      requires Valid()
      modifies this`playing, this`log, this`player
      ensures Valid()
      ensures log == old(log) + EndedRule(loop).commands
      ensures playing == Some(EndedRule(loop).playing)
      ensures IsTrue(playing) <==> loop == Some("true") || loop == Some("restart-and-play")
      ensures Restarts(loop) ==> player.position == 0.0
      ensures !Restarts(loop) ==> player == old(player).(paused := true)
      ensures Agrees(playing, player)
    {
      player := player.(paused := true);
      var r := EndedRule(loop);
      EndedRuleAgrees(loop, player);
      log := log + r.commands;
      player := Run(player, r.commands);
      playing := Some(r.playing);
    }

    /** The player's `play` event resets the timeline-activated marker. */
    method OnPlayEvent()
      modifies this`timelineActivated
      ensures timelineActivated == Some("false")
    {
      timelineActivated := Some("false");
    }

    /** The `timeupdate` event at `seconds` into the video: the current time
        is shown, the progress element always follows, and the input follows
        only while the user is not dragging it. */
    method OnTimeUpdate(seconds: real)
      requires Valid() && 0.0 <= seconds <= duration
      modifies this`currentText, this`progressValue, this`progressMax, this`inputValue, this`player
      ensures Valid()
      ensures currentText == if hasCurrentTime then FormatTime(seconds) else old(currentText)
      ensures hasProgress ==> progressValue == TimePercentage(seconds, duration) && progressMax == Some("100")
      ensures !hasProgress ==> progressValue == old(progressValue) && progressMax == old(progressMax)
      ensures inputValue == if hasInput && !isUserDragging then TimePercentage(seconds, duration) else old(inputValue)
      ensures player == old(player).(position := seconds)
    {
      player := player.(position := seconds);
      if hasCurrentTime {
        currentText := FormatTime(seconds);
      }
      var percentage := TimePercentage(seconds, duration);
      if hasProgress {
        progressValue := percentage;
        progressMax := Some("100");
      }
      if hasInput && !isUserDragging {
        inputValue := percentage;
      }
    }

    /** `mousedown` or `touchstart` on the input: a drag begins, remembering
        whether the video was playing, and the timeline is marked active. */
    method DragStart()
      requires Valid()
      modifies this`isDragging, this`isUserDragging, this`wasPlaying, this`timelineActivated
      ensures Valid()
      ensures !hasInput ==>
        isDragging == old(isDragging) && wasPlaying == old(wasPlaying) && timelineActivated == old(timelineActivated)
      ensures hasInput ==>
        isDragging && isUserDragging && wasPlaying == IsTrue(playing) && timelineActivated == Some("true")
    {
      if hasInput {
        isDragging := true;
        isUserDragging := true;
        wasPlaying := IsTrue(playing);
        timelineActivated := Some("true");
      }
    }

    /** The input's `input` event once the user has moved it to `value`
        (the range input keeps it between its `min` 0 and `max` 100): seek
        to that point of the video. */
    method OnInput(value: real)
      requires Valid() && hasInput && 0.0 <= value <= 100.0
      modifies this`inputValue, this`log, this`player
      ensures Valid()
      ensures inputValue == value
      ensures log == old(log) + [Seek(SeekTime(value, duration))]
      ensures player == old(player).(position := SeekTime(value, duration))
    {
      inputValue := value;
      Issue(Seek(SeekTime(value, duration)));
    }

    /** `mouseup` or `touchend` on the input: during a drag, seek to the
        input's value and resume playback only if the video was playing when
        the drag began. Both drag flags are cleared either way. */
    method DragEndOnInput()
      requires Valid()
      modifies this`isDragging, this`isUserDragging, this`playing, this`log, this`player
      ensures Valid()
      ensures !isDragging && !isUserDragging
      ensures var seek := [Seek(SeekTime(inputValue, duration))];
        log == old(log) + (if !old(isDragging) then [] else if wasPlaying then seek + [Play] else seek)
      ensures playing == if old(isDragging) && wasPlaying then Some("true") else old(playing)
      ensures player == if !old(isDragging) then old(player)
        else old(player).(position := SeekTime(inputValue, duration), paused := !wasPlaying && old(player.paused))
      ensures player == Run(old(player), log[|old(log)|..])
      ensures old(Agrees(playing, player)) ==> Agrees(playing, player)
    {
      if isDragging {
        var seek := Seek(SeekTime(inputValue, duration));
        Issue(seek);
        assert [seek][..0] == [];
        if wasPlaying {
          Issue(Play);
          RunAppend(old(player), [seek], [Play]);
          assert [seek] + [Play] == [seek, Play];
          playing := Some("true");
        }
      }
      isDragging := false;
      isUserDragging := false;
    }

    /** `mouseup` anywhere in the document (installed with the input): a
        drag that was playing resumes playback; both flags are cleared. */
    method DragEndOutside()
      requires Valid()
      modifies this`isDragging, this`isUserDragging, this`playing, this`log, this`player
      ensures Valid()
      ensures hasInput ==> !isDragging && !isUserDragging
      ensures !hasInput ==> isDragging == old(isDragging)
      ensures log == old(log) + (if hasInput && old(isDragging) && wasPlaying then [Play] else [])
      ensures playing == if hasInput && old(isDragging) && wasPlaying then Some("true") else old(playing)
      ensures player == if hasInput && old(isDragging) && wasPlaying then old(player).(paused := false) else old(player)
      ensures old(Agrees(playing, player)) ==> Agrees(playing, player)
    {
      if hasInput {
        if isDragging && wasPlaying {
          Issue(Play);
          playing := Some("true");
        }
        isDragging := false;
        isUserDragging := false;
      }
    }

    /** A mouse button released over the input: its own `mouseup` handler
        runs, then the document's. The first ends the drag, so playback is
        requested at most once. */
    method MouseUpOnInput()
      requires Valid()
      modifies this`isDragging, this`isUserDragging, this`playing, this`log, this`player
      ensures Valid()
      ensures !isDragging && !isUserDragging
      ensures var seek := [Seek(SeekTime(inputValue, duration))];
        log == old(log) + (if !old(isDragging) then [] else if wasPlaying then seek + [Play] else seek)
      ensures playing == if old(isDragging) && wasPlaying then Some("true") else old(playing)
      ensures player == if !old(isDragging) then old(player)
        else old(player).(position := SeekTime(inputValue, duration), paused := !wasPlaying && old(player.paused))
      ensures player == Run(old(player), log[|old(log)|..])
      ensures old(Agrees(playing, player)) ==> Agrees(playing, player)
    {
      DragEndOnInput();
      DragEndOutside();
    }

    /** A click on the item: ignored inside a `[data-v-controls]` element,
        otherwise it pauses a playing video and plays any other. */
    method Click(inControls: bool)
      requires Valid()
      modifies this`playing, this`log, this`player
      ensures Valid()
      ensures inControls ==> playing == old(playing) && log == old(log) && player == old(player)
      ensures !inControls ==>
        && log == old(log) + [ClickToggle(old(playing)).command]
        && playing == Some(ClickToggle(old(playing)).playing)
        && (IsTrue(playing) <==> !IsTrue(old(playing)))
        && player == Apply(old(player), ClickToggle(old(playing)).command)
        && Agrees(playing, player)
    {
      if inControls {
        return;
      }
      var t := ClickToggle(playing);
      ClickAgrees(playing, player);
      Issue(t.command);
      playing := Some(t.playing);
    }

    /** The `[data-v-controls='play']` control, when present. */
    method PlayControl()
      requires Valid()
      modifies this`playing, this`log, this`player
      ensures Valid()
      ensures hasPlayControl ==>
        && log == old(log) + [Play] && playing == Some("true")
        && player == old(player).(paused := false) && Agrees(playing, player)
      ensures !hasPlayControl ==> log == old(log) && playing == old(playing) && player == old(player)
    {
      if hasPlayControl {
        Issue(Play);
        playing := Some("true");
      }
    }

    /** The `[data-v-controls='pause']` control, when present. */
    method PauseControl()
      requires Valid()
      modifies this`playing, this`log, this`player
      ensures Valid()
      ensures hasPauseControl ==>
        && log == old(log) + [Pause] && playing == Some("false")
        && player == old(player).(paused := true) && Agrees(playing, player)
      ensures !hasPauseControl ==> log == old(log) && playing == old(playing) && player == old(player)
    {
      if hasPauseControl {
        Issue(Pause);
        playing := Some("false");
      }
    }
  }

}
