/**
 * The embedded player, as both versions of the per-video controller see it
 * (scripts/mediaVimeo.js and scripts/mediaVimeo-2.0.js), and the decisions
 * the two versions share word for word: the `ended` loop rule, the item
 * click toggle and the conversions between a time and a timeline
 * percentage.
 *
 * The player is a foreign collaborator. The controller only issues commands
 * to it (`setCurrentTime`, `play`, `pause`) and writes `data-v-playing` when
 * a command's promise resolves. This model records the issued commands in a
 * log, resolves every promise at once and in order, and keeps what it knows
 * of the player (its position and whether it is paused) in a `PlayerState`.
 */
module Player {
  import opened Wrappers
  import opened Arith

  /** A command issued to the player. */
  datatype Command = Seek(time: real) | Play | Pause

  /** What the controller's commands determine about the player. */
  datatype PlayerState = PlayerState(position: real, paused: bool)

  /** The player's state once it has carried out one command. */
  function Apply(p: PlayerState, c: Command): (q: PlayerState)
    ensures c.Seek? ==> q.position == c.time && q.paused == p.paused
    ensures !c.Seek? ==> q.position == p.position && (q.paused <==> c == Pause)
  {
    match c
    case Seek(t) => p.(position := t)
    case Play => p.(paused := false)
    case Pause => p.(paused := true)
  }

  /** The player's state once it has carried out a run of commands. */
  function Run(p: PlayerState, cs: seq<Command>): PlayerState
    decreases |cs|
  {
    if cs == [] then p else Apply(Run(p, cs[..|cs| - 1]), cs[|cs| - 1])
  }

  /** Running two batches of commands is running them one after the other. */
  lemma {:induction false} RunAppend(p: PlayerState, a: seq<Command>, b: seq<Command>)
    ensures Run(p, a + b) == Run(Run(p, a), b)
    decreases |b|
  {
    if b == [] {
      assert a + b == a;
    } else {
      var init := b[..|b| - 1];
      assert (a + b)[..|a + b| - 1] == a + init;
      assert (a + b)[|a + b| - 1] == b[|b| - 1];
      RunAppend(p, a, init);
    }
  }

  /** `item.getAttribute(name) === "true"`: a missing attribute (`null`) is
      not "true", and neither is the "false" the handlers write. */
  predicate IsTrue(attr: Option<string>)
    ensures attr.None? ==> !IsTrue(attr)
    ensures attr == Some("false") ==> !IsTrue(attr)
  {
    attr == Some("true")
  }

  /** `data-v-playing` tells the truth about the player. */
  predicate Agrees(playing: Option<string>, p: PlayerState)
  {
    IsTrue(playing) <==> !p.paused
  }

  /** Every seek in the log lies within the video. */
  predicate SeeksWithin(log: seq<Command>, duration: real)
  {
    forall i :: 0 <= i < |log| ==> log[i].Seek? ==> 0.0 <= log[i].time <= duration
  }

  // ---------------------------------------------------------------------
  // The `ended` loop rule.
  // ---------------------------------------------------------------------

  /** The commands the `ended` handler issues and the value it finally
      writes to `data-v-playing`. */
  datatype EndOutcome = EndOutcome(commands: seq<Command>, playing: string)

  /** The restarting values of `data-v-loop`. */
  predicate Restarts(loop: Option<string>)
  {
    loop == Some("true") || loop == Some("restart-and-play") || loop == Some("restart-and-pause")
  }

  /** The `ended` handler: "true" and "restart-and-play" seek to the start
      and play, "restart-and-pause" seeks to the start and pauses, and any
      other value, a missing attribute included, only records that the video
      is no longer playing. */
  function EndedRule(loop: Option<string>): (r: EndOutcome)
    ensures r.playing == "true" <==> loop == Some("true") || loop == Some("restart-and-play")
    ensures r.playing == "true" || r.playing == "false"
    ensures Restarts(loop) ==> |r.commands| == 2 && r.commands[0] == Seek(0.0)
    ensures !Restarts(loop) ==> r.commands == []
    ensures forall i :: 0 <= i < |r.commands| ==> r.commands[i].Seek? ==> r.commands[i].time == 0.0
  {
    if loop == Some("true") || loop == Some("restart-and-play") then
      EndOutcome([Seek(0.0), Play], "true")
    else if loop == Some("restart-and-pause") then
      EndOutcome([Seek(0.0), Pause], "false")
    else
      EndOutcome([], "false")
  }

  /** Whatever `data-v-loop` says, once the player has stopped at the end and
      carried out the `ended` handler's commands, `data-v-playing` tells the
      truth about it, and a restart leaves it at the start of the video. */
  lemma EndedRuleAgrees(loop: Option<string>, p: PlayerState)
    requires p.paused
    ensures var r := EndedRule(loop);
      var q := Run(p, r.commands);
      && Agrees(Some(r.playing), q)
      && (Restarts(loop) ==> q.position == 0.0)
      && (!Restarts(loop) ==> q == p)
  {
    var r := EndedRule(loop);
    if Restarts(loop) {
      assert r.commands[..1] == [Seek(0.0)];
      assert r.commands[..1][..0] == [];
    }
  }

  // ---------------------------------------------------------------------
  // The item click toggle.
  // ---------------------------------------------------------------------

  /** The command an item click issues and the value it writes to
      `data-v-playing` once the command resolves. */
  datatype Toggle = Toggle(command: Command, playing: string)

  /** The item click: pause when `data-v-playing` is "true", play otherwise
      (a missing attribute included). */
  function ClickToggle(playing: Option<string>): (r: Toggle)
    ensures r.command == Pause <==> IsTrue(playing)
    ensures r.command == Play <==> !IsTrue(playing)
    ensures r.command == Pause ==> r.playing == "false"
    ensures r.command == Play ==> r.playing == "true"
    ensures IsTrue(Some(r.playing)) <==> r.command == Play
  {
    if IsTrue(playing) then Toggle(Pause, "false") else Toggle(Play, "true")
  }

  /** Two clicks in a row bring `data-v-playing` back to whether it was
      "true". */
  lemma ClickTwice(playing: Option<string>)
    ensures IsTrue(Some(ClickToggle(Some(ClickToggle(playing).playing)).playing)) == IsTrue(playing)
  {
  }

  /** After a click the attribute and the player agree, whatever they were
      before. */
  lemma ClickAgrees(playing: Option<string>, p: PlayerState)
    ensures var t := ClickToggle(playing);
      Agrees(Some(t.playing), Apply(p, t.command))
  {
  }

  // ---------------------------------------------------------------------
  // Times and timeline percentages.
  // ---------------------------------------------------------------------

  /** `(seconds / duration) * 100`: how far into the video a time lies. */
  function TimePercentage(seconds: real, duration: real): (pct: real)
    requires duration > 0.0
    ensures 0.0 <= seconds <= duration ==> 0.0 <= pct <= 100.0
    ensures seconds == 0.0 ==> pct == 0.0
    ensures seconds == duration ==> pct == 100.0
  {
    (seconds / duration) * 100.0
  }

  /** `(percentage / 100) * duration`: the time a seek to a timeline
      percentage asks for. */
  function SeekTime(percentage: real, duration: real): (t: real)
    requires duration > 0.0
    ensures 0.0 <= percentage <= 100.0 ==> 0.0 <= t <= duration
    ensures percentage == 0.0 ==> t == 0.0
    ensures percentage == 100.0 ==> t == duration
  {
    (percentage / 100.0) * duration
  }

  /** Seeking to the percentage a time update shows returns to that time,
      and a seek time shows as the percentage it came from. */
  lemma PercentageRoundTrip(seconds: real, percentage: real, duration: real)
    requires duration > 0.0
    ensures SeekTime(TimePercentage(seconds, duration), duration) == seconds
    ensures TimePercentage(SeekTime(percentage, duration), duration) == percentage
  {
    var f := seconds / duration;
    assert f * duration == seconds;
    var t := percentage / 100.0 * duration;
    assert t / duration == percentage / 100.0;
  }

  /** A later point on the timeline asks for a later time. */
  lemma SeekTimeMonotone(p1: real, p2: real, duration: real)
    requires duration > 0.0 && p1 <= p2
    ensures SeekTime(p1, duration) <= SeekTime(p2, duration)
  {
    var a := (p2 - p1) / 100.0;
    assert SeekTime(p2, duration) - SeekTime(p1, duration) == a * duration;
    ScaleSign(a, duration);
  }
}
