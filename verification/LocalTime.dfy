// The retained elapsed-time deadline: every operation runs under the object's
// lock, so any use by any number of threads is a sequence of the operations.
module LocalTime {
  import opened Commons
  import opened Text

  const TICKS_PER_SECOND := 10_000_000
  const TOLERANCE := TICKS_PER_SECOND / 50
  const SOURCE := "WINDOWS_INTERRUPT_PRECISE_BOOT_GUID_V1"
  const ROOT_LOST := "HOLD_ROOT_OR_WATCHDOG_LOST"
  const READ_FAILED := "HOLD_TIME_READ_FAILED"
  const BOOT_UNPROVEN := "HOLD_BOOT_ID_UNPROVEN"
  const WITNESS_MISSING := "HOLD_PROCESS_OR_BOOT_WITNESS_MISSING"
  const COUNTER_INVALID := "HOLD_COUNTER_INVALID"
  const SAMPLE_UNCERTAIN := "HOLD_SOURCE_OR_SAMPLE_UNCERTAIN"
  const WITNESS_CHANGED := "HOLD_BOOT_PROCESS_OR_SOURCE_CHANGED"
  const REGRESSION := "HOLD_COUNTER_REGRESSION"
  const DISCONTINUITY := "HOLD_SUSPEND_OR_WATCHDOG_CONTINUITY_UNPROVEN"
  const EXPIRED := "HOLD_LOCAL_DEADLINE_EXPIRED"
  const INTENT_CHANGED := "HOLD_INTENT_CHANGED_OR_UNKNOWN_CHECKPOINT"
  const CHECKPOINTS := {
    "admission", "pre_spawn", "watchdog", "resume", "effect_publication", "receipt", "dag_ack"
  }

  // A boot identifier as uuid.UUID reads it: its 128-bit value and whether the
  // text is the canonical spelling of that value.
  datatype BootId = Unparsable | Uuid(value: nat, canonical: bool)

  datatype HostSample = HostSample(
    boot: BootId, processId: string, before: int, unbiased: int, after: int, source: string)

  datatype Result<+T> = Ok(value: T) | Hold(reason: string)

  // What the injected clock does: a sample, its own hold, or any other failure.
  datatype Reading = Sample(sample: HostSample) | ClockHold(message: string) | ClockFailure

  predicate IsCounter(tick: int) { 0 <= tick < TWO_64 }

  predicate ValidSample(s: HostSample) {
    && s.boot.Uuid? && s.boot.value != 0 && s.boot.canonical && s.processId != ""
    && IsCounter(s.before) && IsCounter(s.unbiased) && IsCounter(s.after)
    && s.source == SOURCE && s.unbiased <= s.after && 0 <= s.after - s.before <= TOLERANCE
  }

  method Validate(s: HostSample) returns (problem: Option<string>)
    ensures problem.None? <==> ValidSample(s)
    ensures problem.Some? ==> Malforms(s, problem.value)
  {
    if s.boot.Unparsable? { return Some(BOOT_UNPROVEN); }
    if s.boot.value == 0 || !s.boot.canonical || s.processId == "" { return Some(WITNESS_MISSING); }
    var ticks := [s.before, s.unbiased, s.after];
    if exists tick <- ticks :: !IsCounter(tick) { return Some(COUNTER_INVALID); }
    assert s.before in ticks && s.unbiased in ticks && s.after in ticks;
    if s.source != SOURCE || s.unbiased > s.after || !(0 <= s.after - s.before <= TOLERANCE) {
      return Some(SAMPLE_UNCERTAIN);
    }
    return None;
  }

  // What a reason says of a sample that is refused on its own.
  predicate Malforms(s: HostSample, reason: string) {
    || (reason == BOOT_UNPROVEN && s.boot.Unparsable?)
    || (reason == WITNESS_MISSING && s.boot.Uuid? && (s.boot.value == 0 || !s.boot.canonical || s.processId == ""))
    || (reason == COUNTER_INVALID && (!IsCounter(s.before) || !IsCounter(s.unbiased) || !IsCounter(s.after)))
    || (reason == SAMPLE_UNCERTAIN && IsCounter(s.before) && IsCounter(s.unbiased) && IsCounter(s.after))
  }

  // ---- The retained intent ----

  datatype Intent = Intent(
    intentId: string, generation: int, leaseSha: string, anchor: HostSample, deadline: int)

  predicate IsSha256(text: string) {
    |text| == 64 && forall c <- text :: '0' <= c <= '9' || 'a' <= c <= 'f'
  }

  // The bounds every constructed deadline satisfies, however it was capped.
  predicate Bounded(intent: Intent) {
    && ValidSample(intent.anchor)
    && intent.anchor.after < intent.deadline <= intent.anchor.before + 600 * TICKS_PER_SECOND
    && intent.deadline < TWO_64
  }

  method Retain(reading: Reading, intentId: string, generation: int, leaseSha: string,
                duration: int, shorterCap: Option<int>) returns (r: Result<Intent>)
    ensures r.Ok? ==> Bounded(r.value) && r.value.intentId == intentId && r.value.generation == generation
                      && r.value.leaseSha == leaseSha && reading == Sample(r.value.anchor)
    ensures r.Ok? ==> r.value.deadline <= r.value.anchor.before + duration * TICKS_PER_SECOND
    ensures r.Ok? && shorterCap.Some? ==> r.value.deadline <= shorterCap.value
    ensures r.Ok? ==> r.value.deadline == r.value.anchor.before + duration * TICKS_PER_SECOND
                      || Some(r.value.deadline) == shorterCap
    ensures r.Ok? <==>
      && intentId != "" && generation >= 1 && 1 <= duration <= 600 && IsSha256(leaseSha)
      && reading.Sample? && ValidSample(reading.sample)
      && (shorterCap.Some? ==> reading.sample.after < shorterCap.value)
      && (reading.sample.before + duration * TICKS_PER_SECOND < TWO_64
          || (shorterCap.Some? && shorterCap.value < TWO_64))
  {
    if intentId == "" || generation < 1 || !(1 <= duration <= 600) || !IsSha256(leaseSha) {
      return Hold("HOLD_INTENT_INVALID");
    }
    match reading {
      case ClockHold(message) => return Hold(message);
      case ClockFailure => return Hold("");
      case Sample(anchor) =>
        var problem := Validate(anchor);
        if problem.Some? { return Hold(problem.value); }
        var deadline := anchor.before + duration * TICKS_PER_SECOND;
        if shorterCap.Some? {
          if shorterCap.value <= anchor.after { return Hold("HOLD_LOCAL_CAP_INVALID_OR_EXPIRED"); }
          deadline := if deadline <= shorterCap.value then deadline else shorterCap.value;
        }
        if deadline >= TWO_64 { return Hold("HOLD_COUNTER_OVERFLOW"); }
        return Ok(Intent(intentId, generation, leaseSha, anchor, deadline));
    }
  }

  // ---- One check ----

  predicate SameWitness(a: HostSample, b: HostSample) {
    a.boot == b.boot && a.processId == b.processId && a.source == b.source
  }

  // Not before the last accepted sample, and at most five seconds after it began.
  predicate Continues(last: HostSample, now: HostSample) {
    && last.after <= now.before && last.unbiased <= now.unbiased
    && now.after - last.before <= 5 * TICKS_PER_SECOND
  }

  // The two bias intervals, interrupt minus unbiased time, come within the tolerance.
  predicate SameBias(anchor: HostSample, now: HostSample) {
    && now.before - now.unbiased <= anchor.after - anchor.unbiased + TOLERANCE
    && now.after - now.unbiased >= anchor.before - anchor.unbiased - TOLERANCE
  }

  predicate Admissible(intent: Intent, last: HostSample, now: HostSample) {
    && ValidSample(now) && SameWitness(intent.anchor, now) && Continues(last, now)
    && SameBias(intent.anchor, now) && now.after < intent.deadline
  }

  // What a reason says of a sample refused against the anchor and the last one:
  // an earlier reason always rules out a later one.
  predicate Refuses(intent: Intent, last: HostSample, now: HostSample, reason: string) {
    var advanced := last.after <= now.before && last.unbiased <= now.unbiased;
    if !ValidSample(now) then Malforms(now, reason)
    else if !SameWitness(intent.anchor, now) then reason == WITNESS_CHANGED
    else if !advanced then reason == REGRESSION
    else if !Continues(last, now) || !SameBias(intent.anchor, now) then reason == DISCONTINUITY
    else now.after >= intent.deadline && reason == EXPIRED
  }

  predicate Passes(intent: Intent, last: HostSample, checkpoint: string, retained: Intent, reading: Reading) {
    && checkpoint in CHECKPOINTS && retained == intent
    && reading.Sample? && Admissible(intent, last, reading.sample)
  }

  // ---- The object ----

  class LocalDeadline {
    const intent: Intent
    var last: HostSample
    var hold: Option<string>
    var consumed: bool
    // The anchor and every accepted sample, in order.
    ghost var trail: seq<HostSample>

    ghost predicate Valid()
      reads this
    {
      && Bounded(intent) && Continuous(intent, trail) && trail[|trail| - 1] == last
      && (hold.Some? ==> hold.value != "")
    }

    function Fields(): State
      reads this
    {
      State(last, hold, consumed)
    }

    constructor (intent: Intent)
      requires Bounded(intent)
      ensures Valid() && this.intent == intent && trail == [intent.anchor] && hold.None? && !consumed
    {
      this.intent := intent;
      last, hold, consumed := intent.anchor, None, false;
      trail := [intent.anchor];
    }

    // The first reason given stays.
    method Invalidate(reason: string)
      requires Valid()
      modifies this`hold
      ensures Valid() && Moves(intent, old(Fields()), Invalidated(reason), Fields())
      ensures hold == if old(hold).Some? then old(hold) else Some(if Strip(reason) == "" then ROOT_LOST else reason)
    {
      if hold.None? {
        hold := Some(if Strip(reason) == "" then ROOT_LOST else reason);
      }
    }

    // True for the first caller only.
    method ConsumeIssuerClaim() returns (first: bool)
      requires Valid()
      modifies this`consumed
      ensures Valid() && Moves(intent, old(Fields()), Consumed, Fields())
      ensures first == !old(consumed)
    {
      first := !consumed;
      consumed := true;
    }

    method Check(checkpoint: string, retained: Intent, reading: Reading) returns (r: Result<HostSample>)
      requires Valid()
      modifies this`last, this`hold, this`trail
      ensures Valid() && Moves(intent, old(Fields()), Checked(checkpoint, retained, reading), Fields())
      ensures old(hold).Some? ==> r == Hold(old(hold).value) && trail == old(trail)
      ensures old(hold).None? ==> (r.Ok? <==> Passes(intent, old(last), checkpoint, retained, reading))
      ensures r.Ok? ==> reading == Sample(r.value) && last == r.value && hold.None? && trail == old(trail) + [r.value]
      ensures r.Hold? ==> hold == Some(r.reason) && last == old(last) && trail == old(trail)
      ensures r.Hold? && old(hold).None? && (checkpoint !in CHECKPOINTS || retained != intent) ==> r.reason == INTENT_CHANGED
      ensures r.Hold? && old(hold).None? && checkpoint in CHECKPOINTS && retained == intent && reading.Sample? ==>
        Refuses(intent, old(last), reading.sample, r.reason)
    {
      if hold.Some? { return Hold(hold.value); }
      if checkpoint !in CHECKPOINTS || retained != intent {
        r := Hold(INTENT_CHANGED);
      } else {
        match reading
        case ClockHold(message) => r := Hold(if message != "" then message else READ_FAILED);
        case ClockFailure => r := Hold(READ_FAILED);
        case Sample(now) => r := Compare(now);
      }
      if r.Ok? {
        ExtendContinuous(intent, trail, r.value);
        last, trail := r.value, trail + [r.value];
      } else {
        hold := Some(r.reason);
      }
    }

    method Compare(now: HostSample) returns (r: Result<HostSample>)
      ensures r.Ok? <==> Admissible(intent, last, now)
      ensures r.Ok? ==> r.value == now
      ensures r.Hold? ==> Refuses(intent, last, now, r.reason)
    {
      var problem := Validate(now);
      if problem.Some? { return Hold(problem.value); }
      var anchor := intent.anchor;
      if (now.boot, now.processId, now.source) != (anchor.boot, anchor.processId, anchor.source) {
        return Hold(WITNESS_CHANGED);
      }
      if now.before < last.after || now.unbiased < last.unbiased {
        return Hold(REGRESSION);
      }
      var biasLow, biasHigh := now.before - now.unbiased, now.after - now.unbiased;
      var originLow, originHigh := anchor.before - anchor.unbiased, anchor.after - anchor.unbiased;
      if now.after - last.before > 5 * TICKS_PER_SECOND
         || biasLow > originHigh + TOLERANCE || biasHigh < originLow - TOLERANCE
      {
        return Hold(DISCONTINUITY);
      }
      if now.after >= intent.deadline {
        return Hold(EXPIRED);
      }
      return Ok(now);
    }
  }

  // ---- What a trail of accepted samples guarantees ----

  // The anchor, then samples each admissible after the one before.
  ghost predicate Continuous(intent: Intent, trail: seq<HostSample>) {
    && trail != [] && trail[0] == intent.anchor
    && forall i, j :: 0 <= i && j == i + 1 && j < |trail| ==> Admissible(intent, trail[i], trail[j])
  }

  lemma ExtendContinuous(intent: Intent, trail: seq<HostSample>, now: HostSample)
    requires Continuous(intent, trail) && Admissible(intent, trail[|trail| - 1], now)
    ensures Continuous(intent, trail + [now])
  {
    var more := trail + [now];
    forall i, j | 0 <= i && j == i + 1 && j < |more| ensures Admissible(intent, more[i], more[j]) {
      assert j < |trail| ==> more[j] == trail[j];
    }
  }

  // After n accepted checks at most 5n seconds of interrupt time have passed,
  // and always less than the cap of at most 600 seconds.
  lemma {:induction false} ElapsedBound(intent: Intent, trail: seq<HostSample>, n: nat)
    requires Bounded(intent) && Continuous(intent, trail) && n < |trail|
    ensures trail[n].after - intent.anchor.before <=
      if n == 0 then TOLERANCE else 5 * n * TICKS_PER_SECOND
    ensures trail[n].after < intent.deadline
    ensures trail[n].after - intent.anchor.before < 600 * TICKS_PER_SECOND
    ensures ValidSample(trail[n])
  {
    if n > 0 {
      var m := n - 1;
      ElapsedBound(intent, trail, m);
      assert Admissible(intent, trail[m], trail[n]);
    }
  }

  // Time never runs backwards between accepted samples, and unbiased time,
  // which stops while the host sleeps, never runs backwards either.
  lemma {:induction false} TrailMonotone(intent: Intent, trail: seq<HostSample>, i: nat, j: nat)
    requires Bounded(intent) && Continuous(intent, trail) && i < j < |trail|
    ensures trail[i].after <= trail[j].before && trail[i].unbiased <= trail[j].unbiased
    decreases j
  {
    var h := j - 1;
    assert Admissible(intent, trail[h], trail[j]);
    if i < h {
      TrailMonotone(intent, trail, i, h);
      ElapsedBound(intent, trail, h);
    }
  }

  // However many checks were accepted, interrupt time has gained at most 60 ms
  // on unbiased time since the anchor, whichever instants the two samples stand for.
  lemma {:induction false} DriftBound(intent: Intent, trail: seq<HostSample>, n: nat, instant: int, origin: int)
    requires Bounded(intent) && Continuous(intent, trail) && n < |trail|
    requires trail[n].before <= instant <= trail[n].after
    requires intent.anchor.before <= origin <= intent.anchor.after
    ensures -3 * TOLERANCE <= (instant - trail[n].unbiased) - (origin - intent.anchor.unbiased) <= 3 * TOLERANCE
  {
    ElapsedBound(intent, trail, n);
    if n > 0 {
      var m := n - 1;
      assert Admissible(intent, trail[m], trail[n]);
    }
  }

  // The bound is met: a sample 60 ms ahead of the anchor's bias is admissible.
  lemma DriftBoundIsTight(intent: Intent, now: HostSample)
    requires Bounded(intent) && SameWitness(intent.anchor, now) && ValidSample(now)
    requires intent.anchor.after == intent.anchor.before + TOLERANCE
    requires now.before == intent.anchor.after + 2 * TICKS_PER_SECOND && now.after == now.before + TOLERANCE
    requires now.unbiased == intent.anchor.unbiased + 2 * TICKS_PER_SECOND - TOLERANCE
    requires now.after < intent.deadline
    ensures Continuous(intent, [intent.anchor, now])
    ensures (now.after - now.unbiased) - (intent.anchor.before - intent.anchor.unbiased) == 3 * TOLERANCE
  {
  }

  // ---- Runs of the object ----

  datatype State = State(last: HostSample, hold: Option<string>, consumed: bool)

  datatype Event =
    | Checked(checkpoint: string, retained: Intent, reading: Reading)
    | Invalidated(reason: string)
    | Consumed

  // What the methods above ensure of the fields, as one relation.
  predicate Moves(intent: Intent, s: State, e: Event, s': State) {
    match e
    case Checked(checkpoint, retained, reading) =>
      && s'.consumed == s.consumed
      && if s.hold.Some? then s' == s
         else if Passes(intent, s.last, checkpoint, retained, reading)
         then s' == s.(last := reading.sample)
         else s'.last == s.last && s'.hold.Some?
    case Invalidated(reason) =>
      s'.last == s.last && s'.consumed == s.consumed && s'.hold.Some? && (s.hold.Some? ==> s'.hold == s.hold)
    case Consumed => s' == s.(consumed := true)
  }

  ghost predicate IsRun(intent: Intent, states: seq<State>, events: seq<Event>) {
    && |states| == |events| + 1 && states[0] == State(intent.anchor, None, false)
    && forall i, j :: 0 <= i && j == i + 1 && j < |states| ==> Moves(intent, states[i], events[i], states[j])
  }

  // The check at step i returned a sample.
  predicate AcceptedAt(intent: Intent, states: seq<State>, events: seq<Event>, i: nat)
    requires |states| == |events| + 1 && i < |events|
  {
    && events[i].Checked? && states[i].hold.None?
    && Passes(intent, states[i].last, events[i].checkpoint, events[i].retained, events[i].reading)
  }

  function TrailOf(intent: Intent, states: seq<State>, events: seq<Event>, i: nat): seq<HostSample>
    requires |states| == |events| + 1 && i <= |events|
  {
    if i == 0 then [intent.anchor]
    else TrailOf(intent, states, events, i - 1)
         + if AcceptedAt(intent, states, events, i - 1) then [events[i - 1].reading.sample] else []
  }

  // Whatever is called in whatever order, the accepted samples form a
  // continuous trail ending in the last one.
  lemma {:induction false} RunIsContinuous(intent: Intent, states: seq<State>, events: seq<Event>, i: nat)
    requires Bounded(intent) && IsRun(intent, states, events) && i <= |events|
    ensures Continuous(intent, TrailOf(intent, states, events, i))
    ensures var trail := TrailOf(intent, states, events, i); trail[|trail| - 1] == states[i].last
  {
    if i > 0 {
      var h := i - 1;
      RunIsContinuous(intent, states, events, h);
      assert Moves(intent, states[h], events[h], states[i]);
      if AcceptedAt(intent, states, events, h) {
        ExtendContinuous(intent, TrailOf(intent, states, events, h), events[h].reading.sample);
      }
    }
  }

  // The first failure or invalidation latches: its reason never changes and no
  // later check is accepted.
  lemma {:induction false} HoldIsPermanent(intent: Intent, states: seq<State>, events: seq<Event>, i: nat, j: nat)
    requires IsRun(intent, states, events) && i <= j < |states| && states[i].hold.Some?
    ensures states[j].hold == states[i].hold && states[j].last == states[i].last
    ensures j < |events| ==> !AcceptedAt(intent, states, events, j)
    decreases j
  {
    if i < j {
      var h := j - 1;
      HoldIsPermanent(intent, states, events, i, h);
      assert Moves(intent, states[h], events[h], states[j]);
    }
  }

  // A check accepted at step j shows that every earlier check was accepted and
  // nothing was invalidated.
  lemma AcceptanceNeedsCleanPast(intent: Intent, states: seq<State>, events: seq<Event>, i: nat, j: nat)
    requires IsRun(intent, states, events) && i < j < |events| && AcceptedAt(intent, states, events, j)
    ensures events[i].Checked? ==> AcceptedAt(intent, states, events, i)
    ensures !events[i].Invalidated?
  {
    var k := i + 1;
    assert Moves(intent, states[i], events[i], states[k]);
    if states[i].hold.Some? { HoldIsPermanent(intent, states, events, i, j); }
    if states[k].hold.Some? { HoldIsPermanent(intent, states, events, k, j); }
  }

  // At most one attempt ever finds the issuer claim unconsumed.
  lemma {:induction false} ClaimConsumedOnce(intent: Intent, states: seq<State>, events: seq<Event>, i: nat, j: nat)
    requires IsRun(intent, states, events) && i < j < |states| && events[i].Consumed?
    ensures states[j].consumed
    decreases j
  {
    var h := j - 1;
    assert Moves(intent, states[h], events[h], states[j]);
    if i < h { ClaimConsumedOnce(intent, states, events, i, h); }
  }
}
