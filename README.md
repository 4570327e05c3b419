# scroll-load: a verified model of an infinite-scroll trigger

The `scroll-load` directive binds to a scrollable element and calls a
caller-supplied loading callback `method(direction, element)` when the user
scrolls close enough to an edge. At bind time it fixes two settings: the
threshold `distance` (an absent or falsy value means 0) and `biDirection`
(JavaScript truthiness; false unless set). It also starts with a recorded
offset `lastPosition` of 0. On every scroll event it does four things:

- it classifies the event as downward when `scrollTop - lastPosition > 0`;
- it records the new offset;
- it calls the callback with `true` when the event is downward and at most
  `distance` pixels remain below the visible area;
- it calls the callback with `false` when bidirectional mode is on, the event
  is not downward and `scrollTop <= distance`.

The model has three modules:

- `Wrappers` holds the `Option` datatype.
- `ScrollLoad` holds the option reading (`Configure`), the per-event decision
  (`Fire`) and the class `ScrollMonitor`. The class has `distance` and
  `biDirection` as constants and `lastPosition` as its one mutable field. Its
  `OnScroll` method keeps the two separate `if` statements of the listener and
  returns the directions the callback is called with.
- `ScrollTraces` holds `Run`, which processes a sequence of event snapshots.
  It also holds the lemmas that hold across event sequences.

The listener reads `scrollTop` several times within one event. The model reads
it once, from a `Snapshot`. The reads before either callback are back to back.
The read in the second condition matters only when the event is not downward,
and then the first callback has not run. So the callback cannot have moved the
element in between.

## Model

| member | source | states |
|---|---|---|
| `ScrollLoad.Configure` | src/directives/index.js:7-8 | an absent distance gives 0 and a present one is kept (0 included); `biDirection` is on exactly when the option is truthy, so undefined, null, false, 0 and "" leave it off |
| `ScrollLoad.IsDownward` | src/directives/index.js:13 | an event is downward exactly when its offset is strictly greater than the recorded one; a stationary event is not downward |
| `ScrollLoad.Fire` | src/directives/index.js:13-22 | the callback is called with `true` iff the event is downward and the remaining distance to the bottom is at most `distance`; it is called with `false` iff bidirectional mode is on, the event is not downward and `scrollTop <= distance`; the argument is always the event's direction; otherwise nothing fires, including downward events outside the bottom band and non-downward events above `distance` |
| `ScrollLoad.ScrollMonitor.constructor` | src/directives/index.js:5-9 | the settings are those `Configure` reads from the options, and the recorded offset starts at 0 |
| `ScrollLoad.ScrollMonitor.OnScroll` | src/directives/index.js:10-23 | the recorded offset becomes the event's `scrollTop` unconditionally; the callback calls are exactly those `Fire` decides from the old offset; at most one call per event; the settings are constants and cannot change |
| `ScrollLoad.RepeatTriggering` | src/directives/index.js:10-22 | with distance 50, content height 1000 and viewport 500, offsets 460 then 470 call the callback twice, both times with `true` (no deduplication) |
| `ScrollTraces.Run` | src/directives/index.js:10-23 | one outcome per event, and after a non-empty sequence the recorded offset is the last event's `scrollTop` |
| `ScrollTraces.RunStep` | src/directives/index.js:13-14 | the outcome of event `i` is `Fire` applied to the previous event's offset (the initial offset for the first event) |
| `ScrollTraces.PositionTracking` | src/directives/index.js:14 | after event `i` the recorded offset equals that event's `scrollTop`, whatever was decided |
| `ScrollTraces.RunAppend` | src/directives/index.js:9-14 | the recorded offset is the whole state: running two event sequences one after the other is running the second from the offset the first left |
| `ScrollTraces.PrefixOutcomes` | src/directives/index.js:10-22 | the outcomes of a prefix of the events do not depend on the events that come later |
| `ScrollTraces.NoUpwardCallWithoutBiDirection` | src/directives/index.js:8-21 | without bidirectional mode no event calls the callback with `false` |
| `ScrollTraces.UpwardSuppressedByDefault` | src/directives/index.js:8-21 | without bidirectional mode a sequence of upward or stationary events never calls the callback, however close to the top |
| `ScrollTraces.RepeatedDownwardCalls` | src/directives/index.js:16-17 | every event of a sequence that moves down and ends within the bottom band calls the callback with `true` |
| `ScrollTraces.DownwardCallIff` | src/directives/index.js:13-17 | within a sequence, event `i` calls with `true` iff it is above the previous offset and ends within the bottom band |
| `ScrollTraces.UpwardCallIff` | src/directives/index.js:13-21 | within a sequence, event `i` calls with `false` iff bidirectional mode is on, it is not above the previous offset and `scrollTop <= distance` |
| `ScrollTraces.DownwardTrigger` | src/directives/index.js:16-17 | an event that moves down from `p` into the bottom band calls the callback exactly once, with `true` |
| `ScrollTraces.UpwardTrigger` | src/directives/index.js:20-21 | in bidirectional mode an event that moves up from `p` to within `distance` of the top calls the callback exactly once, with `false` |
| `ScrollTraces.Scenario` | src/directives/index.js:7-22 | distance 20, bidirectional, content 2000, viewport 800, from offset 0: events at 100, 1190 and 1000 give nothing, a call with `true`, nothing; the final offset is 1000 |
| `ScrollTraces.StationaryAtTopFires` | src/directives/index.js:9-21 | in bidirectional mode, an event at offset 0 right after binding is not downward and calls with `false`, unless `distance` is negative |

## Left out

- Selector resolution and listener registration (`el.querySelector`, `addEventListener`, src/directives/index.js:6, 10): the model starts from an element that was found. A selector that matches nothing makes `addEventListener` throw a TypeError at bind time; that path is not modelled.
- The callback itself (src/directives/index.js:17, 21) is a foreign call. The model records only the decision to call it and its `direction` argument. Errors the callback throws and asynchronous callbacks are not modelled.
- Pixel values are integers. Fractional `scrollTop` values and NaN are not modelled.
- `ScrollLoad.Configure`: the `distance` option is modelled as absent or a number. A non-numeric value (a string, `true`) would be coerced by JavaScript's `<=`, and that coercion is not modelled.
- Global registration through `Vue.directive` (src/directives/index.js:4) is framework plumbing.
- Unbinding is not modelled. The source has no teardown; the listener lives as long as the element.
- vue.config.js, src/main.js, src/utils/request/constructor.js and src/apis/index.js are build configuration, app bootstrap and HTTP wrappers over libraries. They hold no decision logic and are not part of this model.
