/**
 * Sequences of scroll events delivered to one bound directive, in the order
 * the platform delivers them, and what the directive does across them.
 */
module ScrollTraces {
  import opened Wrappers
  import opened ScrollLoad

  /** The outcome of each event, and the offset recorded after the last one. */
  datatype Trace = Trace(outcomes: seq<Option<bool>>, lastPosition: int)

  /** Processes `events` one by one, starting from the recorded offset `last`. */
  function Run(settings: Settings, last: int, events: seq<Snapshot>): (t: Trace)
    ensures |t.outcomes| == |events|
    ensures t.lastPosition == if events == [] then last else events[|events| - 1].scrollTop
    decreases |events|
  {
    if events == [] then Trace([], last)
    else
      var rest := Run(settings, events[0].scrollTop, events[1..]);
      Trace([Fire(settings, last, events[0])] + rest.outcomes, rest.lastPosition)
  }

  /** The offset recorded just before event `i` is handled. */
  function PositionBefore(last: int, events: seq<Snapshot>, i: nat): int
    requires i < |events|
  {
    if i == 0 then last else events[i - 1].scrollTop
  }

  /** Event `i` is decided from the previous event's offset (or the initial one) alone. */
  lemma {:induction false} RunStep(settings: Settings, last: int, events: seq<Snapshot>, i: nat)
    requires i < |events|
    ensures Run(settings, last, events).outcomes[i] == Fire(settings, PositionBefore(last, events, i), events[i])
    decreases i
  {
    if i > 0 {
      RunStep(settings, events[0].scrollTop, events[1..], i - 1);
      assert events[1..][i - 1] == events[i];
      if i > 1 {
        assert events[1..][i - 2] == events[i - 1];
      }
    }
  }

  /**
   * After each event the recorded offset is that event's offset, whatever
   * the callback decision was.
   */
  lemma PositionTracking(settings: Settings, last: int, events: seq<Snapshot>, i: nat)
    requires i < |events|
    ensures Run(settings, last, events[..i + 1]).lastPosition == events[i].scrollTop
  {
  }

  /**
   * The recorded offset is the whole state: running `a` then `b` is running
   * `b` from where `a` left the offset.
   */
  lemma {:induction false} RunAppend(settings: Settings, last: int, a: seq<Snapshot>, b: seq<Snapshot>)
    ensures Run(settings, last, a + b) ==
      var ta := Run(settings, last, a);
      var tb := Run(settings, ta.lastPosition, b);
      Trace(ta.outcomes + tb.outcomes, tb.lastPosition)
    decreases |a|
  {
    if a == [] {
      assert a + b == b;
    } else {
      assert (a + b)[0] == a[0];
      assert (a + b)[1..] == a[1..] + b;
      RunAppend(settings, a[0].scrollTop, a[1..], b);
    }
  }

  /** Later events never change the decision about earlier ones. */
  lemma PrefixOutcomes(settings: Settings, last: int, events: seq<Snapshot>, k: nat)
    requires k <= |events|
    ensures Run(settings, last, events[..k]).outcomes == Run(settings, last, events).outcomes[..k]
  {
    RunAppend(settings, last, events[..k], events[k..]);
    assert events[..k] + events[k..] == events;
  }

  /** Without bidirectional mode no event ever calls the callback with `false`. */
  lemma NoUpwardCallWithoutBiDirection(settings: Settings, last: int, events: seq<Snapshot>, i: nat)
    requires !settings.biDirection && i < |events|
    ensures Run(settings, last, events).outcomes[i] in {None, Some(true)}
  {
    RunStep(settings, last, events, i);
  }

  /** Whether each event's offset is at most the one before it (the first compared with `last`). */
  predicate NonIncreasing(last: int, events: seq<Snapshot>) {
    forall i :: 0 <= i < |events| ==> events[i].scrollTop <= PositionBefore(last, events, i)
  }

  /** Scrolling up (or standing still) without bidirectional mode never calls the callback. */
  lemma UpwardSuppressedByDefault(settings: Settings, last: int, events: seq<Snapshot>)
    requires !settings.biDirection && NonIncreasing(last, events)
    ensures forall i :: 0 <= i < |events| ==> Run(settings, last, events).outcomes[i] == None
  {
    forall i | 0 <= i < |events|
      ensures Run(settings, last, events).outcomes[i] == None
    {
      RunStep(settings, last, events, i);
    }
  }

  /** Whether each event moves down and ends within `distance` of the bottom. */
  predicate DownwardInBand(settings: Settings, last: int, events: seq<Snapshot>) {
    forall i :: 0 <= i < |events| ==>
      PositionBefore(last, events, i) < events[i].scrollTop && RemainingBottom(events[i]) <= settings.distance
  }

  /** Every qualifying downward event calls the callback with `true`, one call each. */
  lemma RepeatedDownwardCalls(settings: Settings, last: int, events: seq<Snapshot>)
    requires DownwardInBand(settings, last, events)
    ensures forall i :: 0 <= i < |events| ==> Run(settings, last, events).outcomes[i] == Some(true)
  {
    forall i | 0 <= i < |events|
      ensures Run(settings, last, events).outcomes[i] == Some(true)
    {
      RunStep(settings, last, events, i);
    }
  }

  /** Calls with `true` happen exactly at the downward events that end within the bottom band. */
  lemma DownwardCallIff(settings: Settings, last: int, events: seq<Snapshot>, i: nat)
    requires i < |events|
    ensures Run(settings, last, events).outcomes[i] == Some(true) <==>
      PositionBefore(last, events, i) < events[i].scrollTop && RemainingBottom(events[i]) <= settings.distance
  {
    RunStep(settings, last, events, i);
  }

  /** Calls with `false` happen exactly in bidirectional mode, at non-downward events within `distance` of the top. */
  lemma UpwardCallIff(settings: Settings, last: int, events: seq<Snapshot>, i: nat)
    requires i < |events|
    ensures Run(settings, last, events).outcomes[i] == Some(false) <==>
      settings.biDirection && events[i].scrollTop <= PositionBefore(last, events, i)
      && events[i].scrollTop <= settings.distance
  {
    RunStep(settings, last, events, i);
  }

  /** A downward event ending within the bottom band calls the callback once, with `true`. */
  lemma DownwardTrigger(settings: Settings, p: int, s: Snapshot)
    requires p < s.scrollTop && RemainingBottom(s) <= settings.distance
    ensures Run(settings, p, [s]) == Trace([Some(true)], s.scrollTop)
  {
  }

  /** In bidirectional mode an upward event ending within `distance` of the top calls it once, with `false`. */
  lemma UpwardTrigger(settings: Settings, p: int, s: Snapshot)
    requires settings.biDirection && s.scrollTop < p && s.scrollTop <= settings.distance
    ensures Run(settings, p, [s]) == Trace([Some(false)], s.scrollTop)
  {
  }

  /**
   * Distance 20, bidirectional, content 2000, viewport 800, starting at
   * offset 0: offsets 100, 1190, 1000 call the callback once, at 1190, with `true`.
   */
  lemma Scenario()
    ensures Run(Configure(Some(20), Bool(true)), 0,
      [Snapshot(100, 2000, 800), Snapshot(1190, 2000, 800), Snapshot(1000, 2000, 800)])
      == Trace([None, Some(true), None], 1000)
  {
  }

  /** In bidirectional mode an event at offset 0 right after binding calls the callback with `false`. */
  lemma StationaryAtTopFires(d: Option<int>)
    ensures Run(Configure(d, Bool(true)), 0, [Snapshot(0, 2000, 800)]).outcomes[0] ==
      if d.Some? && d.value < 0 then None else Some(false)
  {
  }
}
