// The weight manager: a debounced state machine over the weights it is given.
module WeightManager {
  import opened Common
  import opened Floats
  import Calibration
  import Hx711

  const DEBOUNCE_COUNT: nat := 3
  const WAKE_THRESHOLD_G: real := 20.0
  const SLEEP_THRESHOLD_G: real := 10.0
  const SANE_G: real := 1000.0

  datatype WmState = NoWeight | DebounceAdd | Measuring | DebounceRemove | Failed

  datatype Event = Added | Removed

  datatype Transition = Transition(state: WmState, count: nat, event: Option<Event>)

  // ----- the code's transition -------------------------------------------------------------------------

  // The comparisons with the thresholds; a weight that is no number passes neither.
  predicate Heavy(w: Float) { AtMost(Num(WAKE_THRESHOLD_G), w) }
  predicate Light(w: Float) { AtMost(w, Num(SLEEP_THRESHOLD_G)) }

  function Counted(count: nat, waiting: WmState, done: WmState, event: Event): Transition {
    if count + 1 >= DEBOUNCE_COUNT then Transition(done, count + 1, Some(event)) else Transition(waiting, count + 1, None)
  }

  function Handle(current: WmState, weight: Float, count: nat): Transition {
    match current
    case NoWeight =>
      if Heavy(weight) then Counted(count, DebounceAdd, Measuring, Added) else Transition(current, count, None)
    case DebounceAdd =>
      if Heavy(weight) then Counted(count, current, Measuring, Added) else Transition(NoWeight, 0, None)
    case Measuring =>
      if Light(weight) then Counted(count, DebounceRemove, NoWeight, Removed) else Transition(current, count, None)
    case DebounceRemove =>
      if Light(weight) then Counted(count, current, NoWeight, Removed) else Transition(Measuring, 0, None)
    case Failed =>
      if Below(AbsOf(weight), Num(SANE_G)) then Transition(NoWeight, 0, None) else Transition(current, count, None)
  }

  // The task zeroes the count whenever the state changes.
  function Settle(current: WmState, t: Transition): Transition {
    if t.state != current then t.(count := 0) else t
  }

  // The machine after a series of weights.
  function Run(weights: seq<Float>): Transition {
    if weights == [] then Transition(NoWeight, 0, None)
    else
      var before := Run(weights[..|weights| - 1]);
      Settle(before.state, Handle(before.state, weights[|weights| - 1], before.count))
  }

  // ----- the reference -----------------------------------------------------------------------------------

  // The readings needed for a change: one to start the debouncing, whose count is lost with the change
  // of state, and DEBOUNCE_COUNT more.
  const NEEDED: nat := DEBOUNCE_COUNT + 1

  predicate EndsHeavy(weights: seq<Float>, n: nat) {
    n <= |weights| && forall i :: |weights| - n <= i < |weights| ==> Heavy(weights[i])
  }

  predicate EndsLight(weights: seq<Float>, n: nat) {
    n <= |weights| && forall i :: |weights| - n <= i < |weights| ==> Light(weights[i])
  }

  // Is there something on the scale? As the last NEEDED like readings say, of which there are none yet
  // at the start.
  predicate Placed(weights: seq<Float>) {
    if weights == [] then false
    else if EndsHeavy(weights, NEEDED) then true
    else if EndsLight(weights, NEEDED) then false
    else Placed(weights[..|weights| - 1])
  }

  // How many readings at the end contradict what the scale takes for the case.
  function Contrary(weights: seq<Float>, placed: bool): (n: nat)
    ensures n <= |weights|
  {
    if weights == [] then 0
    else if (if placed then Light(weights[|weights| - 1]) else Heavy(weights[|weights| - 1])) then
      Contrary(weights[..|weights| - 1], placed) + 1
    else 0
  }

  function Expected(placed: bool, contrary: nat): (WmState, nat) {
    if contrary == 0 then (if placed then Measuring else NoWeight, 0)
    else (if placed then DebounceRemove else DebounceAdd, contrary - 1)
  }

  lemma {:induction false} ContraryMeans(weights: seq<Float>, placed: bool, n: nat)
    ensures Contrary(weights, placed) >= n <==> if placed then EndsLight(weights, n) else EndsHeavy(weights, n)
    decreases n
  {
    if n > 0 && weights != [] {
      var front := weights[..|weights| - 1];
      ContraryMeans(front, placed, n - 1);
      assert forall i :: 0 <= i < |front| ==> front[i] == weights[i];
      if placed && EndsLight(weights, n) {
        assert EndsLight(front, n - 1);
      }
      if !placed && EndsHeavy(weights, n) {
        assert EndsHeavy(front, n - 1);
      }
      if placed && EndsLight(front, n - 1) && Light(weights[|weights| - 1]) {
        assert EndsLight(weights, n);
      }
      if !placed && EndsHeavy(front, n - 1) && Heavy(weights[|weights| - 1]) {
        assert EndsHeavy(weights, n);
      }
    }
  }

  // One more reading: what is taken for the case changes exactly when it is the last of NEEDED that
  // contradict it.
  lemma {:induction false} PlacedChanges(front: seq<Float>, w: Float)
    requires Contrary(front, Placed(front)) < NEEDED
    ensures var weights, contrary := front + [w], if Placed(front) then Light(w) else Heavy(w);
      && (Placed(weights) != Placed(front) <==> contrary && Contrary(front, Placed(front)) == NEEDED - 1)
      && Contrary(weights, Placed(weights))
         == if Placed(weights) != Placed(front) || !contrary then 0 else Contrary(front, Placed(front)) + 1
  {
    var weights := front + [w];
    assert weights[..|front|] == front;
    ContraryMeans(weights, true, NEEDED);
    ContraryMeans(weights, false, NEEDED);
    ContraryMeans(front, Placed(front), NEEDED);
    ContraryMeans(weights, !Placed(front), NEEDED);
  }

  // The machine is where the reference says, after every series of readings: in NoWeight or Measuring
  // when the last reading does not contradict it, else debouncing, with a count one less than the
  // number of contrary readings. It never fails.
  lemma {:induction false} MachineFollowsReference(weights: seq<Float>)
    ensures Contrary(weights, Placed(weights)) < NEEDED
    ensures (Run(weights).state, Run(weights).count) == Expected(Placed(weights), Contrary(weights, Placed(weights)))
    ensures Run(weights).state != Failed && Run(weights).count < DEBOUNCE_COUNT
  {
    if weights != [] {
      var front, w := weights[..|weights| - 1], weights[|weights| - 1];
      MachineFollowsReference(front);
      PlacedChanges(front, w);
      assert front + [w] == weights;
    }
  }

  // ----- events ----------------------------------------------------------------------------------------

  // The events logged, each with the index of its reading.
  function Log(weights: seq<Float>): seq<(nat, Event)> {
    if weights == [] then []
    else
      var event := Run(weights).event;
      Log(weights[..|weights| - 1]) + (if event.Some? then [(|weights| - 1, event.value)] else [])
  }

  lemma {:induction false} EventWhenPlacedChanges(weights: seq<Float>)
    requires weights != []
    ensures var was, now := Placed(weights[..|weights| - 1]), Placed(weights);
      Run(weights).event == if now == was then None else Some(if now then Added else Removed)
  {
    var front, w := weights[..|weights| - 1], weights[|weights| - 1];
    MachineFollowsReference(front);
    PlacedChanges(front, w);
    assert front + [w] == weights;
  }

  function EventAt(i: nat): Event { if i % 2 == 0 then Added else Removed }

  // Additions and removals alternate, an addition first; an odd number of events means something is on
  // the scale.
  lemma {:induction false} EventsAlternate(weights: seq<Float>)
    ensures forall i :: 0 <= i < |Log(weights)| ==> Log(weights)[i].1 == EventAt(i)
    ensures Placed(weights) <==> |Log(weights)| % 2 == 1
  {
    if weights != [] {
      EventsAlternate(weights[..|weights| - 1]);
      EventWhenPlacedChanges(weights);
    }
  }

  // Every event comes with the last of NEEDED like readings in a row.
  lemma {:induction false} EventsAreEarned(weights: seq<Float>, i: nat)
    requires i < |Log(weights)|
    ensures var (k, event) := Log(weights)[i];
      k < |weights| && if event.Added? then EndsHeavy(weights[..k + 1], NEEDED) else EndsLight(weights[..k + 1], NEEDED)
  {
    var front := weights[..|weights| - 1];
    if i < |Log(front)| {
      EventsAreEarned(front, i);
      var k := Log(front)[i].0;
      assert front[..k + 1] == weights[..k + 1];
    } else {
      EventWhenPlacedChanges(weights);
      assert weights[..|weights|] == weights;
    }
  }

  // NEEDED like readings in a row decide, whatever came before.
  lemma {:induction false} EnoughReadingsDecide(weights: seq<Float>)
    ensures EndsHeavy(weights, NEEDED) ==> Run(weights).state == Measuring
    ensures EndsLight(weights, NEEDED) ==> Run(weights).state == NoWeight
  {
    MachineFollowsReference(weights);
  }

  // The configured number of consecutive readings is not enough.
  lemma {:induction false} DebounceCountIsNotEnough(weights: seq<Float>)
    requires |weights| == DEBOUNCE_COUNT && EndsHeavy(weights, DEBOUNCE_COUNT)
    ensures Run(weights).state == DebounceAdd && Log(weights) == []
  {
    MachineFollowsReference(weights);
    ContraryMeans(weights, false, DEBOUNCE_COUNT);
    NotYet(weights);
  }

  lemma {:induction false} NotYet(weights: seq<Float>)
    requires |weights| < NEEDED
    ensures !Placed(weights) && Log(weights) == []
  {
    if weights != [] {
      NotYet(weights[..|weights| - 1]);
      EventWhenPlacedChanges(weights);
    }
  }

  // In grams: four readings of 20 or more in a row decide, and so do four of 10 or less.
  lemma {:induction false} FourReadingsDecide(weights: seq<Float>)
    requires |weights| >= 4 && forall i :: |weights| - 4 <= i < |weights| ==> weights[i].Num?
    ensures (forall i :: |weights| - 4 <= i < |weights| ==> weights[i].v >= 20.0) ==> Run(weights).state == Measuring
    ensures (forall i :: |weights| - 4 <= i < |weights| ==> weights[i].v <= 10.0) ==> Run(weights).state == NoWeight
  {
    EnoughReadingsDecide(weights);
  }

  // A weight between the thresholds contradicts nothing and ends debouncing.
  lemma {:induction false} BetweenChangesNothing(weights: seq<Float>, w: real)
    requires 10.0 < w < 20.0
    ensures var all := weights + [Num(w)];
      Log(all) == Log(weights) && Run(all).state == if Placed(weights) then Measuring else NoWeight
  {
    var all := weights + [Num(w)];
    assert all[..|weights|] == weights;
    MachineFollowsReference(weights);
    PlacedChanges(weights, Num(w));
    EventWhenPlacedChanges(all);
    MachineFollowsReference(all);
  }

  // The error state is left, without an event, by a weight of less than a kilogram either way.
  lemma {:induction false} FailureEnds(w: Float, count: nat)
    ensures Handle(Failed, w, count)
         == if w.Num? && -1000.0 < w.v < 1000.0 then Transition(NoWeight, 0, None) else Transition(Failed, count, None)
  {
  }

  // A reading that is no number is no event and changes nothing of what is taken for the case.
  lemma {:induction false} NoNumberChangesNothing(weights: seq<Float>)
    ensures var all := weights + [NaN];
      Placed(all) == Placed(weights) && Log(all) == Log(weights)
      && Run(all).state == if Placed(weights) then Measuring else NoWeight
  {
    var all := weights + [NaN];
    assert all[..|weights|] == weights;
    MachineFollowsReference(weights);
    PlacedChanges(weights, NaN);
    EventWhenPlacedChanges(all);
    MachineFollowsReference(all);
  }

  // ----- the code ------------------------------------------------------------------------------------

  method HandleStateTransition(current: WmState, weight: Float, debounceCount: nat)
    returns (next: WmState, count: nat, event: Option<Event>)
    ensures Transition(next, count, event) == Handle(current, weight, debounceCount)
  {
    count, event := debounceCount, None;
    match current {
      case NoWeight =>
        if AtMost(Num(WAKE_THRESHOLD_G), weight) {
          count := count + 1;
          if count >= DEBOUNCE_COUNT {
            return Measuring, count, Some(Added);
          }
          return DebounceAdd, count, None;
        }
      case DebounceAdd =>
        if AtMost(Num(WAKE_THRESHOLD_G), weight) {
          count := count + 1;
          if count >= DEBOUNCE_COUNT {
            return Measuring, count, Some(Added);
          }
        } else {
          return NoWeight, 0, None;
        }
      case Measuring =>
        if AtMost(weight, Num(SLEEP_THRESHOLD_G)) {
          count := count + 1;
          if count >= DEBOUNCE_COUNT {
            return NoWeight, count, Some(Removed);
          }
          return DebounceRemove, count, None;
        }
      case DebounceRemove =>
        if AtMost(weight, Num(SLEEP_THRESHOLD_G)) {
          count := count + 1;
          if count >= DEBOUNCE_COUNT {
            return NoWeight, count, Some(Removed);
          }
        } else {
          return Measuring, 0, None;
        }
      case Failed =>
        if Below(AbsOf(weight), Num(SANE_G)) {
          return NoWeight, 0, None;
        }
    }
    next := current;
  }

  class Manager {
    const calib: Calibration.Calibration
    var currentState: WmState
    var debounceCount: nat
    var events: seq<(nat, Event)>

    // The weights received so far.
    ghost var weights: seq<Float>

    ghost predicate Valid()
      reads this
    {
      currentState == Run(weights).state && debounceCount == Run(weights).count && events == Log(weights)
    }

    constructor (calib: Calibration.Calibration)
      ensures Valid() && this.calib == calib && weights == []
    {
      this.calib := calib;
      currentState, debounceCount, events, weights := NoWeight, 0, [], [];
    }

    // The body of the task loop for one number from the queue, which is n-th in the log.
    method Receive(rawCount: real, n: nat)
      requires Valid() && n == |weights|
      modifies this
      ensures Valid() && weights == old(weights) + [calib.Convert(Hx711.Truncated(rawCount))]
      ensures currentState == if Placed(weights) then (if Light(weights[n]) then DebounceRemove else Measuring)
                              else (if Heavy(weights[n]) then DebounceAdd else NoWeight)
    {
      var weight := calib.Convert(Hx711.Truncated(rawCount));
      var next, count, event := HandleStateTransition(currentState, weight, debounceCount);
      debounceCount := count;
      if next != currentState {
        currentState := next;
        debounceCount := 0;
      }
      if event.Some? {
        events := events + [(n, event.value)];
      }
      weights := weights + [weight];
      assert weights[..n] == old(weights);
      MachineFollowsReference(weights);
    }
  }
}
