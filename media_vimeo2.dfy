/**
 * One video item of scripts/mediaVimeo-2.0.js: the second version of the
 * per-video controller, whose timeline is a track of divs (a progress
 * fill and a scrubber) dragged with the mouse or a finger instead of a
 * range input.
 *
 * The item's attributes (`data-v-ready`, `data-v-playing`,
 * `data-v-tl-active`), the text of the time displays, the fill's width and
 * the scrubber's left offset (both percentages), and the closure flags
 * `isDragging`, `isUserDragging` and `wasPlaying` are the fields of
 * `VideoItem`. Which optional elements exist is fixed when the item is set
 * up. Each event handler is a method; the mouse and touch variants of a
 * handler do the same thing and share one method, which receives the
 * pointer's `clientX` and the track's bounding rectangle at that moment.
 */
module MediaVimeo2 {
  import opened Wrappers
  import opened Arith
  import opened Player
  import opened TimeFormat

  /** The horizontal extent of a bounding client rectangle. */
  datatype Rect = Rect(left: real, width: real)

  function Min(a: real, b: real): real
  {
    if a <= b then a else b
  }

  function Max(a: real, b: real): real
  {
    if a >= b then a else b
  }

  /** `getPercentageFromPosition(clientX)`: how far along the track the
      pointer is, as a percentage clamped to [0, 100]. */
  function PercentageFromPosition(clientX: real, rect: Rect): (pct: real)
    requires rect.width > 0.0
    ensures 0.0 <= pct <= 100.0
    ensures clientX <= rect.left ==> pct == 0.0
    ensures clientX >= rect.left + rect.width ==> pct == 100.0
    ensures rect.left <= clientX <= rect.left + rect.width ==>
      pct == (clientX - rect.left) / rect.width * 100.0
  {
    var x := clientX - rect.left;
    TrackFraction(x, rect.width);
    Max(0.0, Min(100.0, (x / rect.width) * 100.0))
  }

  /** Where an offset along a track of the given width falls, as a fraction
      of the width. */
  lemma TrackFraction(x: real, width: real)
    requires width > 0.0
    ensures x <= 0.0 ==> x / width <= 0.0
    ensures x >= width ==> x / width >= 1.0
    ensures 0.0 <= x <= width ==> 0.0 <= x / width <= 1.0
  {
    var f := x / width;
    assert x == f * width;
    var g := f - 1.0;
    assert x - width == g * width;
    ScaleSign(f, width);
    ScaleSign(g, width);
    assert g < 0.0 ==> x - width < 0.0;
  }

  /** The pointer position at a percentage of the track. */
  function PositionOf(pct: real, rect: Rect): (clientX: real)
    requires rect.width > 0.0
    ensures 0.0 <= pct <= 100.0 ==> rect.left <= clientX <= rect.left + rect.width
  {
    TrackFraction(pct / 100.0 * rect.width, rect.width);
    rect.left + pct / 100.0 * rect.width
  }

  /** Every percentage in range is reached by some pointer position, the
      one `PositionOf` gives. */
  lemma PercentageOfPosition(pct: real, rect: Rect)
    requires rect.width > 0.0 && 0.0 <= pct <= 100.0
    ensures PercentageFromPosition(PositionOf(pct, rect), rect) == pct
  {
    var x := PositionOf(pct, rect);
    assert (x - rect.left) / rect.width == pct / 100.0;
  }

  /** Moving the pointer to the right never moves the percentage back. */
  lemma PercentageMonotone(x1: real, x2: real, rect: Rect)
    requires rect.width > 0.0 && x1 <= x2
    ensures PercentageFromPosition(x1, rect) <= PercentageFromPosition(x2, rect)
  {
    var f1, f2 := (x1 - rect.left) / rect.width, (x2 - rect.left) / rect.width;
    assert f2 - f1 == (x2 - x1) / rect.width;
    TrackFraction(x2 - x1, rect.width);
  }

  /** Where a click on the item lands. */
  datatype ClickTarget = InControls | InProgressWrap | Elsewhere

  class VideoItem {
    /** The video's length in seconds, as `getDuration` and the
        `timeupdate` data report it. */
    const duration: real
    /** `data-v-loop` and `data-v-autoplay`, read when the events fire. */
    const loop: Option<string>
    const autoplay: Option<string>
    /** Which of `[data-v-time='current']`, `[data-v-time='total']`,
        `[data-v-tl='progress-wrap']`, `.c-vimeo-tl-progress-2`,
        `[data-v-tl='progress-fill']`, `[data-v-tl='scrubber']` and the play
        and pause controls exist. */
    const hasCurrentTime: bool
    const hasTotalTime: bool
    const hasWrap: bool
    const hasContainer: bool
    const hasFill: bool
    const hasScrubber: bool
    const hasPlayControl: bool
    const hasPauseControl: bool

    var ready: Option<string>
    var playing: Option<string>
    var tlActive: Option<string>
    var currentText: string
    var totalText: string
    /** The fill's `width` and the scrubber's `left`, in percent. */
    var fillWidth: real
    var scrubberLeft: real
    var isDragging: bool
    var isUserDragging: bool
    var wasPlaying: bool
    /** The commands issued to the player, oldest first. */
    var log: seq<Command>
    var player: PlayerState

    /** The scrub handlers are installed only when all four timeline
        elements exist. */
    predicate Installed()
    {
      hasWrap && hasContainer && hasFill && hasScrubber
    }

    ghost predicate Valid()
      reads this
    {
      && duration > 0.0
      && isDragging == isUserDragging
      && (isDragging ==> Installed() && fillWidth == scrubberLeft)
      && 0.0 <= fillWidth <= 100.0
      && 0.0 <= scrubberLeft <= 100.0
      && SeeksWithin(log, duration)
    }

    /** The item as the page gives it. The script sets no initial width or
        offset on the fill and the scrubber; they start wherever the page's
        styles put them on the track. */
    constructor (duration: real, loop: Option<string>, autoplay: Option<string>,
                 hasCurrentTime: bool, hasTotalTime: bool,
                 hasWrap: bool, hasContainer: bool, hasFill: bool, hasScrubber: bool,
                 hasPlayControl: bool, hasPauseControl: bool,
                 playing: Option<string>, player: PlayerState,
                 fillWidth: real, scrubberLeft: real)
      requires duration > 0.0
      requires 0.0 <= fillWidth <= 100.0 && 0.0 <= scrubberLeft <= 100.0
      ensures Valid()
      ensures this.duration == duration && this.loop == loop && this.autoplay == autoplay
      ensures this.hasCurrentTime == hasCurrentTime && this.hasTotalTime == hasTotalTime
      ensures this.hasWrap == hasWrap && this.hasContainer == hasContainer
      ensures this.hasFill == hasFill && this.hasScrubber == hasScrubber
      ensures this.hasPlayControl == hasPlayControl && this.hasPauseControl == hasPauseControl
      ensures this.playing == playing && this.player == player
      ensures this.fillWidth == fillWidth && this.scrubberLeft == scrubberLeft
      ensures !isDragging && !isUserDragging && !wasPlaying && log == []
    {
      this.duration := duration;
      this.loop := loop;
      this.autoplay := autoplay;
      this.hasCurrentTime := hasCurrentTime;
      this.hasTotalTime := hasTotalTime;
      this.hasWrap := hasWrap;
      this.hasContainer := hasContainer;
      this.hasFill := hasFill;
      this.hasScrubber := hasScrubber;
      this.hasPlayControl := hasPlayControl;
      this.hasPauseControl := hasPauseControl;
      this.playing := playing;
      this.player := player;
      ready := None;
      tlActive := None;
      currentText := "";
      totalText := "";
      this.fillWidth := fillWidth;
      this.scrubberLeft := scrubberLeft;
      isDragging := false;
      isUserDragging := false;
      wasPlaying := false;
      log := [];
    }

    /** Issue one command: it is logged and the player carries it out. */
    method Issue(c: Command)
      requires Valid()
      requires c.Seek? ==> 0.0 <= c.time <= duration
      modifies this`log, this`player
      ensures Valid()
      ensures log == old(log) + [c] && player == Apply(old(player), c)
    {
      log := log + [c];
      player := Apply(player, c);
    }

    /** `updateVisualPosition(percentage)`: fill and scrubber both move to
        the percentage. */
    method UpdateVisualPosition(percentage: real)
      requires 0.0 <= percentage <= 100.0
      modifies this`fillWidth, this`scrubberLeft
      ensures fillWidth == percentage && scrubberLeft == percentage
    {
      fillWidth := percentage;
      scrubberLeft := percentage;
    }

    /** `seekToPercentage(percentage)`: seek to that point of the video. */
    method SeekToPercentage(percentage: real)
      requires Valid() && 0.0 <= percentage <= 100.0
      modifies this`log, this`player
      ensures Valid()
      ensures log == old(log) + [Seek(SeekTime(percentage, duration))]
      ensures player == old(player).(position := SeekTime(percentage, duration))
    {
      Issue(Seek(SeekTime(percentage, duration)));
    }

    /** `mousedown` or `touchstart` on the progress wrap: a drag begins,
        remembering whether the video was playing; the timeline is marked
        active, and fill, scrubber and player all jump to the pointer. */
    method PointerDown(clientX: real, rect: Rect)
      requires Valid() && rect.width > 0.0
      modifies this`isDragging, this`isUserDragging, this`wasPlaying, this`tlActive,
        this`fillWidth, this`scrubberLeft, this`log, this`player
      ensures Valid()
      ensures !Installed() ==>
        && isDragging == old(isDragging) && wasPlaying == old(wasPlaying) && tlActive == old(tlActive)
        && fillWidth == old(fillWidth) && scrubberLeft == old(scrubberLeft)
        && log == old(log) && player == old(player)
      ensures Installed() ==>
        var pct := PercentageFromPosition(clientX, rect);
        && isDragging && isUserDragging
        && wasPlaying == IsTrue(playing)
        && tlActive == Some("true")
        && fillWidth == pct && scrubberLeft == pct
        && log == old(log) + [Seek(SeekTime(pct, duration))]
        && player == old(player).(position := SeekTime(pct, duration))
    {
      if !Installed() {
        return;
      }
      isDragging := true;
      isUserDragging := true;
      wasPlaying := IsTrue(playing);
      tlActive := Some("true");
      var percentage := PercentageFromPosition(clientX, rect);
      UpdateVisualPosition(percentage);
      SeekToPercentage(percentage);
    }

    /** `mousemove` or `touchmove` on the document: only during a drag, the
        visuals and the player follow the pointer. */
    method PointerMove(clientX: real, rect: Rect)
      requires Valid() && rect.width > 0.0
      modifies this`fillWidth, this`scrubberLeft, this`log, this`player
      ensures Valid()
      ensures !isDragging ==>
        fillWidth == old(fillWidth) && scrubberLeft == old(scrubberLeft) && log == old(log) && player == old(player)
      ensures isDragging ==>
        var pct := PercentageFromPosition(clientX, rect);
        && fillWidth == pct && scrubberLeft == pct
        && log == old(log) + [Seek(SeekTime(pct, duration))]
        && player == old(player).(position := SeekTime(pct, duration))
    {
      if Installed() && isDragging {
        var percentage := PercentageFromPosition(clientX, rect);
        UpdateVisualPosition(percentage);
        SeekToPercentage(percentage);
      }
    }

    /** `mouseup` or `touchend` on the document: a drag ends, and playback
        is requested whether or not the video was playing before. Outside a
        drag nothing happens. */
    method PointerUp()
      requires Valid()
      modifies this`isDragging, this`isUserDragging, this`playing, this`log, this`player
      ensures Valid()
      ensures !isDragging && !isUserDragging
      ensures !old(isDragging) ==> playing == old(playing) && log == old(log) && player == old(player)
      ensures old(isDragging) ==>
        && log == old(log) + [Play]
        && playing == Some("true")
        && player == old(player).(paused := false)
        && Agrees(playing, player)
    {
      if Installed() && isDragging {
        isDragging := false;
        isUserDragging := false;
        Issue(Play);
        playing := Some("true");
      }
    }

    /** The `timeupdate` event at `seconds` into the video: the current time
        is shown; fill and scrubber follow the video only while the user is
        not dragging. */
    method OnTimeUpdate(seconds: real)
      requires Valid() && 0.0 <= seconds <= duration
      modifies this`currentText, this`fillWidth, this`scrubberLeft, this`player
      ensures Valid()
      ensures currentText == if hasCurrentTime then FormatTime(seconds) else old(currentText)
      ensures isUserDragging ==> fillWidth == old(fillWidth) && scrubberLeft == old(scrubberLeft)
      ensures !isUserDragging ==>
        && fillWidth == (if hasFill then TimePercentage(seconds, duration) else old(fillWidth))
        && scrubberLeft == (if hasScrubber then TimePercentage(seconds, duration) else old(scrubberLeft))
      ensures player == old(player).(position := seconds)
    {
      player := player.(position := seconds);
      if hasCurrentTime {
        currentText := FormatTime(seconds);
      }
      var percentage := TimePercentage(seconds, duration);
      if !isUserDragging {
        if hasFill {
          fillWidth := percentage;
        }
        if hasScrubber {
          scrubberLeft := percentage;
        }
      }
    }

    /** The `loaded` event: the item is ready, the total time is shown, and
        with `data-v-autoplay="true"` playback is requested. The attribute
        becomes "true" only when the player accepts (`autoplayOk`). */
    method OnLoaded(autoplayOk: bool)
      requires Valid()
      modifies this`ready, this`totalText, this`playing, this`log, this`player
      ensures Valid()
      ensures ready == Some("true")
      ensures totalText == if hasTotalTime then FormatTime(duration) else old(totalText)
      ensures log == old(log) + (if IsTrue(autoplay) then [Play] else [])
      ensures playing == if IsTrue(autoplay) && autoplayOk then Some("true") else old(playing)
      ensures player == if IsTrue(autoplay) && autoplayOk then old(player).(paused := false) else old(player)
      ensures old(Agrees(playing, player)) ==> Agrees(playing, player)
    {
      ready := Some("true");
      if hasTotalTime {
        totalText := FormatTime(duration);
      }
      if IsTrue(autoplay) {
        log := log + [Play];
        if autoplayOk {
          player := Apply(player, Play);
          playing := Some("true");
        }
      }
    }

    /** The `ended` event: the player has stopped at the end of the video,
        and the loop rule decides what happens next. */
    method OnEnded()
      requires Valid()
      modifies this`playing, this`log, this`player
      ensures Valid()
      ensures log == old(log) + EndedRule(loop).commands
      ensures playing == Some(EndedRule(loop).playing)
      ensures IsTrue(playing) <==> loop == Some("true") || loop == Some("restart-and-play")
      ensures Restarts(loop) ==> player.position == 0.0
      ensures !Restarts(loop) ==> player == old(player).(paused := true)
      ensures Agrees(playing, player)
    {
      player := player.(paused := true);
      var r := EndedRule(loop);
      EndedRuleAgrees(loop, player);
      log := log + r.commands;
      player := Run(player, r.commands);
      playing := Some(r.playing);
    }

    /** The player's `play` event marks the timeline inactive. */
    method OnPlayEvent()
      modifies this`tlActive
      ensures tlActive == Some("false")
    {
      tlActive := Some("false");
    }

    /** A click on the item: ignored inside a control or the progress wrap,
        otherwise it pauses a playing video and plays any other. */
    method Click(target: ClickTarget)
      requires Valid()
      modifies this`playing, this`log, this`player
      ensures Valid()
      ensures target != Elsewhere ==> playing == old(playing) && log == old(log) && player == old(player)
      ensures target == Elsewhere ==>
        && log == old(log) + [ClickToggle(old(playing)).command]
        && playing == Some(ClickToggle(old(playing)).playing)
        && (IsTrue(playing) <==> !IsTrue(old(playing)))
        && player == Apply(old(player), ClickToggle(old(playing)).command)
        && Agrees(playing, player)
    {
      if target == InControls || target == InProgressWrap {
        return;
      }
      var t := ClickToggle(playing);
      ClickAgrees(playing, player);
      Issue(t.command);
      playing := Some(t.playing);
    }

    /** The `[data-v-controls='play']` control, when present. */
    method PlayControl()
      requires Valid()
      modifies this`playing, this`log, this`player
      ensures Valid()
      ensures hasPlayControl ==>
        && log == old(log) + [Play] && playing == Some("true")
        && player == old(player).(paused := false) && Agrees(playing, player)
      ensures !hasPlayControl ==> log == old(log) && playing == old(playing) && player == old(player)
    {
      if hasPlayControl {
        Issue(Play);
        playing := Some("true");
      }
    }

    /** The `[data-v-controls='pause']` control, when present. */
    method PauseControl()
      requires Valid()
      modifies this`playing, this`log, this`player
      ensures Valid()
      ensures hasPauseControl ==>
        && log == old(log) + [Pause] && playing == Some("false")
        && player == old(player).(paused := true) && Agrees(playing, player)
      ensures !hasPauseControl ==> log == old(log) && playing == old(playing) && player == old(player)
    {
      if hasPauseControl {
        Issue(Pause);
        playing := Some("false");
      }
    }
  }
}
