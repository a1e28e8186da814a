# Filter widget and Vimeo video controllers, modelled in Dafny

This project models the client-side logic of a small website's front end.
It covers three scripts:

- `scripts/filterSettings.js`: a filter widget. A list of labels each hold a
  checkbox and a close button, and an "All" button carries the `current`
  class when nothing is selected.
- `scripts/mediaVimeo.js`, the live block (lines 414-834): a per-video
  controller. It drives an embedded Vimeo player from a video item's
  attributes and handles the `loaded`, `ended`, `play` and `timeupdate`
  events. It also runs a range input used as a timeline, and toggles
  playback when the item is clicked.
- `scripts/mediaVimeo-2.0.js`: the second version of that controller. Its
  timeline is a track with a progress fill and a scrubber. A mouse or a
  finger drags it, and the pointer's position is clamped to a percentage.

The modules are:

| module | file | what it holds |
|---|---|---|
| `Wrappers` | `wrappers.dfy` | `Option`, used for attributes that may be missing |
| `Arith` | `arith.dfy` | one sign fact about real products, shared by the arithmetic proofs |
| `TimeFormat` | `time_format.dfy` | `formatTime`/`padZero`, which both controller versions carry as identical copies (`scripts/mediaVimeo.js:608-622`, `scripts/mediaVimeo-2.0.js:217-231`); it also holds a left-to-right reader of clock strings that serves as their partner |
| `Player` | `player.dfy` | the player as a log of commands (`Seek`, `Play`, `Pause`) plus what those commands imply about it, and the decisions both versions share word for word: the `ended` loop rule, the item click toggle, and the time/percentage conversions |
| `FilterSettings` | `filter_settings.dfy` | class `FilterWidget`, which holds an array of label records and the "All" button's `current` flag |
| `MediaVimeo` | `media_vimeo.dfy` | class `VideoItem` of the first version, with one method per event handler |
| `MediaVimeo2` | `media_vimeo2.dfy` | the clamped pointer-to-percentage function, and class `VideoItem` of the second version |

How the model treats the player and the page:

- **Commands.** Every call into the player is a command appended to a log.
- **Promises.** Every promise resolves at once and in order. The attribute
  write in a command's `.then` happens right after the command.
- **Player state.** `PlayerState` records what the commands determine about
  the player: its position and whether it is paused.
- **`Agrees`.** This predicate holds when `data-v-playing` is "true" exactly
  when the player is playing. Every handler that touches playback keeps it,
  and `ended`, the item click and the play/pause controls re-establish it
  whatever came before.
- **Elements.** Whether each optional element exists is a constant of the
  item. A handler the source installs only when an element exists does
  nothing without that element.

The two versions end a drag differently, and the model follows each one's
code. In the first version, the comment at `scripts/mediaVimeo.js:562` says
"always play after seeking". The very next line, 563, plays only when the
video was playing when the drag began, and `MediaVimeo.VideoItem.DragEndOnInput`
models that test. The second version really does always play
(`scripts/mediaVimeo-2.0.js:171-174`), as `MediaVimeo2.VideoItem.PointerUp`
states.

## Model

| member | source | states |
|---|---|---|
| `TimeFormat.Decimal` | scripts/mediaVimeo.js:614-616 | `toString` of a whole number writes at least one character, and exactly one below ten; 0 is written "0", and a positive number never starts with a zero |
| `TimeFormat.DecimalRoundTrip` | scripts/mediaVimeo.js:621 | `toString` writes only decimal digits, and they read back as the number |
| `TimeFormat.PadStart` | scripts/mediaVimeo.js:621 | `padStart(width, fill)` leaves a string of at least `width` characters alone; a shorter one gets exactly enough copies of `fill` in front to reach `width` |
| `TimeFormat.PadZero` | scripts/mediaVimeo.js:620-622 | `padZero` writes at least two characters: from 10 on it is just `toString`, below 10 a "0" in front of it |
| `TimeFormat.PaddedDigit` | scripts/mediaVimeo.js:620-622 | below ten, `padZero` writes one "0" and then the digit |
| `TimeFormat.PadZeroDigits` | scripts/mediaVimeo.js:620-622 | `padZero` writes only digits that read back as the number, and exactly two of them below 100 |
| `TimeFormat.Rem` | scripts/mediaVimeo.js:610-611 | JavaScript's `x % n` on a non-negative `x` lies in [0, n), and is `x` itself when `x` is below `n` |
| `TimeFormat.FloorDiv` | scripts/mediaVimeo.js:609 | for a non-negative time, `Math.floor(seconds / n)` equals the whole seconds divided by n |
| `TimeFormat.RemFloor` | scripts/mediaVimeo.js:610-611 | JavaScript's `seconds % n` keeps the fraction of a second and floors to the whole seconds modulo n |
| `TimeFormat.ClockFields` | scripts/mediaVimeo.js:609-611 | hours, minutes and secs, computed on reals, equal ⌊s⌋/3600, (⌊s⌋ mod 3600)/60 and ⌊s⌋ mod 60 |
| `TimeFormat.WholeSplit` | scripts/mediaVimeo.js:609-611 | those integer fields add back up to the whole seconds, and minutes stay below 60 |
| `TimeFormat.Components` | scripts/mediaVimeo.js:609-611 | hours·3600 + minutes·60 + secs = ⌊s⌋, minutes and secs are below 60, and hours is positive exactly from one hour on |
| `TimeFormat.Render` | scripts/mediaVimeo.js:613-617 | the clock string is at least `M:SS` long, and at least `H:MM:SS` long with hours |
| `TimeFormat.FormatTime` | scripts/mediaVimeo.js:608-618 | `formatTime(s)` is at least four characters long, and at least seven from one hour on |
| `TimeFormat.RenderRoundTrip` | scripts/mediaVimeo.js:613-617 | reading a rendered `H:MM:SS` or `M:SS` string back yields hours·3600 + minutes·60 + secs |
| `TimeFormat.ReadShort` | scripts/mediaVimeo.js:616 | the `M:SS` form reads back as minutes·60 + secs |
| `TimeFormat.ReadLong` | scripts/mediaVimeo.js:614 | the `H:MM:SS` form reads back as hours·3600 + minutes·60 + secs |
| `TimeFormat.FormatTimeRoundTrip` | scripts/mediaVimeo.js:608-618 | reading `formatTime(s)` back yields ⌊s⌋, so only the fraction of a second is lost |
| `TimeFormat.LongShape` | scripts/mediaVimeo.js:614 | `H:MM:SS` is `toString(h)`, a separator at the next position, `padZero(m)` in the two after it, a second separator, then `padZero(s)`; it holds exactly two separators |
| `TimeFormat.ShortShape` | scripts/mediaVimeo.js:616 | `M:SS` is `toString(m)`, a separator at the next position and `padZero(s)` after it; it holds one separator |
| `TimeFormat.RenderShape` | scripts/mediaVimeo.js:613-617 | the leading field is digits with no leading zero holding the hours (long form) or minutes (short form); a separator follows it; then exactly two digits holding the minutes (long) or seconds (short); in the long form a second separator and two digits holding the seconds; nothing else |
| `TimeFormat.FormatTimeShape` | scripts/mediaVimeo.js:608-618 | `formatTime(s)` is `H:MM:SS` from 3600 s on and `M:SS` below: the leading field is ⌊s⌋/3600 or ⌊s⌋/60 without padding, each separator sits right after its field, and the two-digit fields hold (⌊s⌋ mod 3600)/60 and ⌊s⌋ mod 60 |
| `Player.IsTrue` | scripts/mediaVimeo.js:632 | `getAttribute(...) === "true"` is false for a missing attribute and for "false" |
| `Player.EndedRule` | scripts/mediaVimeo.js:461-482 | on `ended`, playing ends "true" exactly for loop "true" or "restart-and-play"; the three restarting values issue two commands, the first a seek to 0; any other value, a missing one included, issues nothing and sets "false" |
| `Player.EndedRuleAgrees` | scripts/mediaVimeo.js:461-482 | for every loop value, once the stopped player has run the rule's commands, `data-v-playing` agrees with it; a restart leaves it at 0; otherwise it is untouched |
| `Player.ClickToggle` | scripts/mediaVimeo.js:632-642 | a click pauses exactly when `data-v-playing` is "true" and plays otherwise; it writes "false" after a pause and "true" after a play |
| `Player.ClickTwice` | scripts/mediaVimeo.js:632-642 | two clicks bring back whether `data-v-playing` was "true" |
| `Player.ClickAgrees` | scripts/mediaVimeo.js:632-642 | after a click, the attribute agrees with the player whatever it was before |
| `Player.TimePercentage` | scripts/mediaVimeo.js:501 | for 0 ≤ seconds ≤ duration the percentage lies in [0,100]; it is 0 at the start and 100 at the end |
| `Player.SeekTime` | scripts/mediaVimeo-2.0.js:136-141 | for a percentage in [0,100] the seek time lies in [0, duration]; 0 % is the start and 100 % is the end |
| `Player.PercentageRoundTrip` | scripts/mediaVimeo.js:549 | seeking to a time's percentage returns to that time, and a seek time shows as the percentage it came from |
| `Player.SeekTimeMonotone` | scripts/mediaVimeo-2.0.js:138 | a later timeline point asks for a later time |
| `FilterSettings.UpdateFilterClose` | scripts/filterSettings.js:10-16 | with both a checkbox and a close button, the button is shown exactly when the box is checked; nothing else changes, and the label is untouched when either element is missing |
| `FilterSettings.ClearLabel` | scripts/filterSettings.js:34-41 | after the All click's work on a label, nothing is checked and it is not current; the close button is hidden when both elements exist and untouched otherwise |
| `FilterSettings.FilterWidget.constructor` | scripts/filterSettings.js:2-3 | the widget starts from the page's elements and labels, with no handlers installed |
| `FilterSettings.FilterWidget.AnyChecked` | scripts/filterSettings.js:20-22 | the `:checked` query finds something exactly when some label's checkbox is checked |
| `FilterSettings.FilterWidget.UpdateAllBtnCurrent` | scripts/filterSettings.js:19-26 | "All" becomes current when nothing is checked and keeps its flag otherwise; it is never removed here |
| `FilterSettings.FilterWidget.Setup` | scripts/filterSettings.js:1-66 | without the All button or the filter list nothing changes and nothing is installed; otherwise every close button matches its checkbox and "All" is current if nothing is checked |
| `FilterSettings.FilterWidget.OnAllClick` | scripts/filterSettings.js:33-45 | every label is cleared (unchecked, close hidden, not current) and "All" is current; the two sync invariants hold afterwards |
| `FilterSettings.FilterWidget.OnChange` | scripts/filterSettings.js:48-62 | a non-checkbox target changes nothing; for a checkbox only its label's close button changes; "All" is current exactly when nothing is checked, or when the box was unchecked and "All" was already current; both sync invariants are preserved |
| `FilterSettings.FilterWidget.ClickCheckbox` | scripts/filterSettings.js:48-62 | the browser flips box i whether or not the widget is installed; without the widget only that box changes; with it, label i becomes `updateFilterClose` of the flipped label, every other label is untouched, "All" is current exactly when nothing is checked or the box was unchecked while "All" already was, and both sync invariants are preserved |
| `MediaVimeo.VideoItem.constructor` | scripts/mediaVimeo.js:515-524 | the item starts with the input at 0, no drag and an empty command log |
| `MediaVimeo.VideoItem.OnLoaded` | scripts/mediaVimeo.js:435-458 | ready becomes "true" and the total time shows `formatTime(duration)`; with autoplay "true" one play is issued and playing becomes "true" only if it succeeds |
| `MediaVimeo.VideoItem.OnEnded` | scripts/mediaVimeo.js:461-482 | the loop rule's commands are logged; playing ends "true" exactly for loop "true"/"restart-and-play"; a restart leaves the player at 0, and any other value leaves it stopped where it was; the attribute agrees with the player |
| `MediaVimeo.VideoItem.OnPlayEvent` | scripts/mediaVimeo.js:485-487 | the player's `play` event sets timeline-activated to "false" |
| `MediaVimeo.VideoItem.OnTimeUpdate` | scripts/mediaVimeo.js:492-512 | the current time shows `formatTime(seconds)`; the progress element always gets the percentage and max "100"; the input gets it only when it exists and the user is not dragging |
| `MediaVimeo.VideoItem.DragStart` | scripts/mediaVimeo.js:527-541 | with the input present, both drag flags are set, `wasPlaying` captures whether playing is "true", and timeline-activated becomes "true" |
| `MediaVimeo.VideoItem.OnInput` | scripts/mediaVimeo.js:544-552 | moving the input issues one seek to value/100·duration, which lies within the video |
| `MediaVimeo.VideoItem.DragEndOnInput` | scripts/mediaVimeo.js:555-593 | during a drag it seeks to the input's point and plays only if `wasPlaying`, leaving the player there; outside a drag the player and the log are untouched; both flags are cleared either way; the player is exactly what running the newly logged commands makes of it |
| `MediaVimeo.VideoItem.DragEndOutside` | scripts/mediaVimeo.js:596-604 | a document `mouseup` plays only during a drag that was playing, leaving the player otherwise untouched, and clears both flags |
| `MediaVimeo.VideoItem.MouseUpOnInput` | scripts/mediaVimeo.js:555-604 | a release over the input, with both handlers running, issues the seek and at most one play; playing becomes "true" only after a drag that was playing, and the player ends at the input's point; the player is exactly what running the newly logged commands makes of it |
| `MediaVimeo.VideoItem.Click` | scripts/mediaVimeo.js:625-643 | inside `[data-v-controls]` nothing happens; otherwise one toggle command is issued and carried out, playing flips between "true" and not "true", and the attribute agrees with the player |
| `MediaVimeo.VideoItem.PlayControl` | scripts/mediaVimeo.js:671-679 | the play control issues play, the player runs from where it was, and playing becomes "true" |
| `MediaVimeo.VideoItem.PauseControl` | scripts/mediaVimeo.js:682-690 | the pause control issues pause, the player stops where it was, and playing becomes "false" |
| `MediaVimeo2.PercentageFromPosition` | scripts/mediaVimeo-2.0.js:122-127 | with a positive track width, the percentage lies in [0,100]; it is 0 at or left of the track, 100 at or right of its end, and linear in between |
| `MediaVimeo2.PositionOf` | scripts/mediaVimeo-2.0.js:122-127 | a percentage in [0,100] names a point on the track |
| `MediaVimeo2.PercentageOfPosition` | scripts/mediaVimeo-2.0.js:122-127 | every percentage in [0,100] is reached, at the point `PositionOf` names |
| `MediaVimeo2.PercentageMonotone` | scripts/mediaVimeo-2.0.js:122-127 | moving the pointer right never lowers the percentage |
| `MediaVimeo2.VideoItem.constructor` | scripts/mediaVimeo-2.0.js:104-119 | the item starts with no drag, `wasPlaying` false and an empty command log; fill and scrubber start wherever the page put them |
| `MediaVimeo2.VideoItem.UpdateVisualPosition` | scripts/mediaVimeo-2.0.js:130-133 | fill width and scrubber left both become the percentage |
| `MediaVimeo2.VideoItem.SeekToPercentage` | scripts/mediaVimeo-2.0.js:136-141 | one seek to percentage/100·duration is issued |
| `MediaVimeo2.VideoItem.PointerDown` | scripts/mediaVimeo-2.0.js:144-156 | with all four timeline elements: both flags are set, `wasPlaying` captures playing before any write, tl-active becomes "true", fill and scrubber move to the pointer's percentage and one seek is issued; without them nothing changes, the player included |
| `MediaVimeo2.VideoItem.PointerMove` | scripts/mediaVimeo-2.0.js:158-164 | outside a drag nothing changes; during one, fill and scrubber follow the pointer and one seek is issued |
| `MediaVimeo2.VideoItem.PointerUp` | scripts/mediaVimeo-2.0.js:166-176 | ending a drag clears both flags, issues play and sets playing "true" whatever `wasPlaying` says; outside a drag nothing happens |
| `MediaVimeo2.VideoItem.OnTimeUpdate` | scripts/mediaVimeo-2.0.js:79-102 | the current time shows `formatTime(seconds)`; while dragging, fill and scrubber are untouched; otherwise each one that exists gets seconds/duration·100 |
| `MediaVimeo2.VideoItem.OnLoaded` | scripts/mediaVimeo-2.0.js:22-45 | as in the first version: ready "true", the total time is shown, and autoplay issues one play |
| `MediaVimeo2.VideoItem.OnEnded` | scripts/mediaVimeo-2.0.js:48-69 | the same loop rule as the first version: a restart leaves the player at 0, any other value leaves it stopped where it was, and the attribute agrees with the player |
| `MediaVimeo2.VideoItem.OnPlayEvent` | scripts/mediaVimeo-2.0.js:72-74 | the player's `play` event sets tl-active to "false" |
| `MediaVimeo2.VideoItem.Click` | scripts/mediaVimeo-2.0.js:234-258 | a click inside a control or the progress wrap does nothing; any other click toggles as in the first version |
| `MediaVimeo2.VideoItem.PlayControl` | scripts/mediaVimeo-2.0.js:286-294 | the play control issues play, the player runs from where it was, and playing becomes "true" |
| `MediaVimeo2.VideoItem.PauseControl` | scripts/mediaVimeo-2.0.js:297-305 | the pause control issues pause, the player stops where it was, and playing becomes "false" |

In both `VideoItem` classes, `Valid()` holds after every method. It states:

- the two drag flags are always equal;
- a drag happens only when its listeners exist;
- the input value (first version), or the fill and scrubber (second
  version), stay within [0,100];
- in the second version, fill and scrubber agree during a drag;
- every seek in the log lies within the video.

## Left out

- Promise scheduling is not modelled. Every player command resolves at once and in issue order, and `getDuration` answers with the item's fixed duration. The out-of-order completion of overlapping `getDuration` → `setCurrentTime` chains during a drag is not captured.
- Player rejections are modelled only for autoplay (the `autoplayOk` parameter). The `console.error` logging is left out. Every other command is taken to succeed.
- Only the controller's commands drive the player. The player reaching the end is the `ended` event, which stops it. A `timeupdate` sets its position.
- Numbers are Dafny reals, not IEEE doubles. The model requires a positive duration and a positive track width, where JavaScript would produce NaN or Infinity. `OnTimeUpdate` takes 0 ≤ seconds ≤ duration, as the player reports it. `formatTime` is modelled for non-negative times only.
- CSS values such as `percentage + "%"` are held as the percentage itself. Element text is held as a string.
- `MediaVimeo.VideoItem.OnInput` takes a value in [0,100], which the input's `min` and `max` guarantee. The writes of `min`, `max` and `step` (`scripts/mediaVimeo.js:518-520`) are not modelled.
- `data-v-loop` and `data-v-autoplay` are constants of the item. The source reads them when the events fire, and nothing in the core writes them.
- A video item is set up only when it has `data-v-id` and an iframe. Building the iframe URL, with its `muted` parameter from `data-v-audio` (`scripts/mediaVimeo.js:419-433`, `scripts/mediaVimeo-2.0.js:6-19`), is not modelled.
- The audio `MutationObserver` and the mute/unmute controls are not modelled. They only forward to the player.
- The fullscreen control, its vendor shims and the `fullscreenchange` listeners are not modelled. They are browser API pass-through.
- The aspect-ratio padding and the cover-resize sizing are not modelled. They are floating-point layout over live element sizes.
- `scripts/mediaVimeo.js:1-412` is not modelled. It is a commented-out copy of the live block.
- DOM plumbing is not modelled: `querySelector`, `prepend` of the All button (`scripts/filterSettings.js:7`), `addEventListener`, `preventDefault` and `stopPropagation`. The bubbling order is modelled only where it matters: `MouseUpOnInput` runs the input's `mouseup` handler and then the document's.
- In the filter widget, every checkbox is taken to sit inside one of the labels found at setup. A `change` from a checkbox elsewhere in the list, or one without a label, is not modelled.
- Labels found at setup are fixed. Labels added to the page later are not modelled.
- `TimeFormat.ClockSeconds` is a lenient reader. It accepts any string of digits and separators, so it is not a validator of the clock format. `FormatTimeShape` states the layout: where each separator sits, which field is two digits wide, and what each field holds.
- The second version's script never sets a starting width on the fill or a starting offset on the scrubber. Their starting values are parameters of `MediaVimeo2.VideoItem.constructor`, taken to lie within the track.
