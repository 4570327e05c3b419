/**
 * The `scroll-load` directive: an infinite-scroll trigger bound to one
 * scrollable element. It keeps the scroll offset seen at the previous event
 * and, on each scroll event, decides whether to call the caller's loading
 * callback, and with which direction.
 */
module ScrollLoad {
  import opened Wrappers

  /** The JavaScript values a binding option can hold, as far as truthiness is concerned. */
  datatype JsValue = Undefined | Null | Bool(b: bool) | Num(n: int) | Str(s: string)

  /** JavaScript truthiness, the meaning of `!!v`. */
  predicate Truthy(v: JsValue) {
    match v
    case Undefined => false
    case Null => false
    case Bool(b) => b
    case Num(n) => n != 0
    case Str(s) => s != ""
  }

  /** The two settings fixed when the directive is bound. */
  datatype Settings = Settings(distance: int, biDirection: bool)

  /**
   * Reads the binding's options: `distance || 0` and `!!biDirection`.
   * `distanceOption` is None when the option is absent.
   */
  function Configure(distanceOption: Option<int>, biDirectionOption: JsValue): (s: Settings)
    ensures distanceOption == None ==> s.distance == 0
    ensures distanceOption.Some? ==> s.distance == distanceOption.value
    ensures s.biDirection <==> Truthy(biDirectionOption)
    ensures biDirectionOption in {Undefined, Null, Bool(false), Num(0), Str("")} ==> !s.biDirection
  {
    var distance := if distanceOption.Some? && distanceOption.value != 0 then distanceOption.value else 0;
    Settings(distance, Truthy(biDirectionOption))
  }

  /** What one scroll event lets the handler read off the element. */
  datatype Snapshot = Snapshot(scrollTop: int, scrollHeight: int, clientHeight: int)

  /** How far the visible area's bottom edge is from the end of the content. */
  function RemainingBottom(s: Snapshot): int {
    s.scrollHeight - (s.clientHeight + s.scrollTop)
  }

  /** The direction of an event: downward exactly when the offset grew strictly. */
  function IsDownward(lastPosition: int, scrollTop: int): (down: bool)
    ensures down <==> lastPosition < scrollTop
    ensures lastPosition == scrollTop ==> !down
  {
    scrollTop - lastPosition > 0
  }

  /**
   * The decision for one event, in the form "fire downward, else fire upward,
   * else nothing": Some(direction) when the callback is called with
   * `direction`, None when it is not called.
   */
  function Fire(settings: Settings, lastPosition: int, s: Snapshot): (r: Option<bool>)
    ensures r == Some(true) <==>
      lastPosition < s.scrollTop && RemainingBottom(s) <= settings.distance
    ensures r == Some(false) <==>
      settings.biDirection && s.scrollTop <= lastPosition && s.scrollTop <= settings.distance
    ensures r.Some? ==> r.value == IsDownward(lastPosition, s.scrollTop)
    ensures !settings.biDirection && s.scrollTop <= lastPosition ==> r == None
    ensures lastPosition < s.scrollTop && RemainingBottom(s) > settings.distance ==> r == None
    ensures s.scrollTop <= lastPosition && s.scrollTop > settings.distance ==> r == None
  {
    var down := IsDownward(lastPosition, s.scrollTop);
    if down && RemainingBottom(s) <= settings.distance then Some(true)
    else if settings.biDirection && !down && s.scrollTop <= settings.distance then Some(false)
    else None
  }

  /** The callback invocations an outcome stands for, in order. */
  function Invocations(outcome: Option<bool>): seq<bool> {
    if outcome.Some? then [outcome.value] else []
  }

  /**
   * One bound directive. `distance` and `biDirection` are fixed at bind time;
   * `lastPosition` is the only state that changes.
   */
  class ScrollMonitor {
    const distance: int
    const biDirection: bool
    var lastPosition: int

    /** The settings this monitor was bound with. */
    function CurrentSettings(): Settings {
      Settings(distance, biDirection)
    }

    /** Binding: reads the options and starts at offset 0. */
    constructor (distanceOption: Option<int>, biDirectionOption: JsValue)
      ensures CurrentSettings() == Configure(distanceOption, biDirectionOption)
      ensures lastPosition == 0
    {
      distance := if distanceOption.Some? && distanceOption.value != 0 then distanceOption.value else 0;
      biDirection := Truthy(biDirectionOption);
      lastPosition := 0;
    }

    /**
     * The scroll listener. Returns the directions the callback is called
     * with during this event, in call order.
     */
    method OnScroll(s: Snapshot) returns (calls: seq<bool>)
      modifies this
      ensures lastPosition == s.scrollTop
      ensures calls == Invocations(Fire(CurrentSettings(), old(lastPosition), s))
      ensures |calls| <= 1
    {
      var direction := s.scrollTop - lastPosition > 0;
      lastPosition := s.scrollTop;
      calls := [];
      if direction && s.scrollHeight - (s.clientHeight + s.scrollTop) <= distance {
        calls := calls + [direction];
      }
      if biDirection && !direction && s.scrollTop <= distance {
        calls := calls + [direction];
      }
    }
  }

  /**
   * Two qualifying downward events in a row each call the callback: there is
   * no deduplication. Distance 50, content 1000, viewport 500, offsets 460 then 470.
   */
  method RepeatTriggering() returns (first: seq<bool>, second: seq<bool>)
    ensures first == [true] && second == [true]
  {
    var m := new ScrollMonitor(Some(50), Undefined);
    first := m.OnScroll(Snapshot(460, 1000, 500));
    second := m.OnScroll(Snapshot(470, 1000, 500));
  }
}
