/** The clock-offset estimator and the position projection (daemon/player_state.go,
  `noteClusterTiming` in daemon/player.go).

  The estimator keeps a window of at most 16 samples and reports the least one.  A sample more
  than 60 s away from that is quarantined; the next sample either confirms it, which flushes the
  window, or not.  `Estimator.Add` is proved against `Step`, and everything below is about what
  `Step` does over a whole history of samples.  All times are in milliseconds.
 */
module ClockOffset {
  import opened Options

  const WINDOW := 16
  const JUMP_FLUSH := 60_000
  const MAX_PROJECTION := 600_000

  datatype Estimate = Estimate(samples: seq<int>, pending: Option<int>)

  const EMPTY := Estimate([], None)

  function Apart(x: int, y: int): nat { if x < y then y - x else x - y }

  function Least(s: seq<int>): (m: int)
    requires s != []
    ensures m in s && forall x :: x in s ==> m <= x
  {
    var front := s[..|s| - 1];
    assert s == front + [s[|s| - 1]];
    if |s| == 1 || s[|s| - 1] < Least(front) then s[|s| - 1] else Least(front)
  }

  function Slide(s: seq<int>): seq<int> {
    if |s| > WINDOW then s[1..] else s
  }

  predicate Far(e: Estimate, sample: int) {
    e.samples != [] && Apart(sample, Least(e.samples)) > JUMP_FLUSH
  }

  predicate Confirms(e: Estimate, sample: int) {
    e.pending.Some? && Apart(sample, e.pending.value) <= JUMP_FLUSH
  }

  function Step(e: Estimate, sample: int): Estimate {
    if Far(e, sample) then
      if Confirms(e, sample) then Estimate([e.pending.value, sample], None)
      else e.(pending := Some(sample))
    else
      Estimate(Slide(e.samples + [sample]), if e.samples == [] then e.pending else None)
  }

  class Estimator {
    var samples: seq<int>
    var pending: Option<int>

    function State(): Estimate
      reads this
    {
      Estimate(samples, pending)
    }

    constructor ()
      ensures State() == EMPTY
    {
      samples, pending := [], None;
    }

    method Offset() returns (r: Option<int>)
      ensures r == if samples == [] then None else Some(Least(samples))
    {
      if |samples| == 0 {
        return None;
      }
      var min := samples[0];
      for i := 1 to |samples|
        invariant min == Least(samples[..i])
      {
        assert samples[..i + 1][..i] == samples[..i];
        if samples[i] < min {
          min := samples[i];
        }
      }
      assert samples[..|samples|] == samples;
      return Some(min);
    }

    method Add(sample: int)
      modifies this
      ensures State() == Step(old(State()), sample)
    {
      var cur := Offset();
      if cur.Some? {
        var d := sample - cur.value;
        if d < 0 {
          d := -d;
        }
        if d > JUMP_FLUSH {
          if pending.Some? {
            var pd := sample - pending.value;
            if pd < 0 {
              pd := -pd;
            }
            if pd <= JUMP_FLUSH {
              samples := [pending.value];
              pending := None;
            } else {
              pending := Some(sample);
              return;
            }
          } else {
            pending := Some(sample);
            return;
          }
        } else {
          pending := None;
        }
      }
      samples := samples + [sample];
      if |samples| > WINDOW {
        samples := samples[1..];
      }
    }
  }

  // ----- Whole histories -----

  function Run(history: seq<int>): Estimate {
    if history == [] then EMPTY
    else Step(Run(history[..|history| - 1]), history[|history| - 1])
  }

  function Offset(history: seq<int>): int
    requires Run(history).samples != []
  {
    Least(Run(history).samples)
  }

  lemma RunStep(history: seq<int>, sample: int)
    ensures Run(history + [sample]) == Step(Run(history), sample)
  {
    assert (history + [sample])[..|history|] == history;
  }

  /** No sample of the window is more than 60 s above an earlier one. */
  predicate Tight(s: seq<int>) {
    forall i, j :: 0 <= i < j < |s| ==> s[j] <= s[i] + 60_000
  }

  /** What the estimator knows after a history: a quarantined sample is the latest one. */
  ghost predicate Consistent(e: Estimate, history: seq<int>) {
    && |e.samples| <= 16
    && Tight(e.samples)
    && (e.samples == [] <==> history == [])
    && (e.pending.Some? ==>
          && history != []
          && e.pending.value == history[|history| - 1]
          && Far(e, e.pending.value))
  }

  lemma StepConsistent(e: Estimate, history: seq<int>, sample: int)
    requires Consistent(e, history)
    ensures Consistent(Step(e, sample), history + [sample])
  {
    var grown := e.samples + [sample];
    if !Far(e, sample) {
      forall i | 0 <= i < |e.samples|
        ensures sample <= grown[i] + JUMP_FLUSH
      {
        assert grown[i] in e.samples;
      }
      assert Tight(grown);
    }
  }

  /** The window never outgrows 16 samples, and stays within 60 s upwards. */
  lemma {:induction false} WindowInvariant(history: seq<int>)
    ensures Consistent(Run(history), history)
  {
    if history != [] {
      var front := history[..|history| - 1];
      WindowInvariant(front);
      StepConsistent(Run(front), front, history[|history| - 1]);
      assert history == front + [history[|history| - 1]];
    }
  }

  lemma SlideLeast(s: seq<int>, x: int)
    requires s != [] && Apart(x, Least(s)) <= JUMP_FLUSH
    ensures Apart(Least(Slide(s + [x])), Least(s)) <= JUMP_FLUSH
  {
    var t := Slide(s + [x]);
    assert x == t[|t| - 1];
    assert Least(t) in s + [x];
  }

  /** From one sample to the next the offset moves by at most 60 s, unless this sample and the one
    before it were both more than 60 s away, on the same side and within 60 s of each other; then
    it jumps to the lower of the two. */
  lemma OffsetMoves(history: seq<int>, sample: int)
    requires history != []
    ensures Run(history).samples != [] && Run(history + [sample]).samples != []
    ensures
      var before, after := Offset(history), Offset(history + [sample]);
      || Apart(before, after) <= 60_000
      || (var last := history[|history| - 1];
          && Apart(last, before) > 60_000
          && Apart(sample, before) > 60_000
          && (last < before <==> sample < before)
          && Apart(last, sample) <= 60_000
          && after == if last < sample then last else sample)
  {
    WindowInvariant(history);
    WindowInvariant(history + [sample]);
    RunStep(history, sample);
    StepMoves(Run(history), history, sample);
  }

  lemma StepMoves(e: Estimate, history: seq<int>, sample: int)
    requires Consistent(e, history) && history != [] && Step(e, sample).samples != []
    ensures
      var before, after := Least(e.samples), Least(Step(e, sample).samples);
      || Apart(before, after) <= JUMP_FLUSH
      || (Far(e, sample) && Confirms(e, sample) && after == if e.pending.value < sample then e.pending.value else sample)
  {
    if !Far(e, sample) {
      SlideLeast(e.samples, sample);
    } else if Confirms(e, sample) {
      var s := [e.pending.value, sample];
      assert s[0] in s && s[1] in s;
    }
  }

  /** A sample that is far away and not confirmed changes no sample of the window, and a close
    sample after it leaves no trace of it. */
  lemma LoneOutlier(history: seq<int>, outlier: int, next: int)
    requires Far(Run(history), outlier) && !Confirms(Run(history), outlier)
    ensures Run(history + [outlier]).samples == Run(history).samples
    ensures !Far(Run(history), next) ==>
              Run(history + [outlier] + [next]) == Run(history + [next])
  {
    RunStep(history, outlier);
    RunStep(history + [outlier], next);
    RunStep(history, next);
  }

  /** Two far samples in a row that agree replace the whole window. */
  lemma ConfirmedJump(history: seq<int>, first: int, second: int)
    requires Far(Run(history), first) && !Confirms(Run(history), first)
    requires Far(Run(history), second) && Apart(first, second) <= JUMP_FLUSH
    ensures Run(history + [first] + [second]) == Estimate([first, second], None)
  {
    RunStep(history, first);
    RunStep(history + [first], second);
  }

  // ----- A synchronised clock -----

  function Recent(history: seq<int>): seq<int> {
    if |history| > 16 then history[|history| - 16..] else history
  }

  ghost predicate Delays(history: seq<int>) {
    forall k :: 0 <= k < |history| ==> 0 <= history[k] <= 60_000
  }

  lemma RecentSlides(front: seq<int>, x: int)
    ensures Recent(front + [x]) == Slide(Recent(front) + [x])
  {
    var r := Recent(front);
    if |front| >= WINDOW {
      assert (front + [x])[|front| + 1 - WINDOW..] == front[|front| + 1 - WINDOW..] + [x];
      if |front| > WINDOW {
        assert (r + [x])[1..] == r[1..] + [x];
      }
    }
  }

  lemma RecentInRange(history: seq<int>)
    requires Delays(history)
    ensures forall x :: x in Recent(history) ==> 0 <= x <= JUMP_FLUSH
  {
  }

  /** Samples within 0..60 s are never quarantined and never flush: the window is exactly the
    last 16 of them. */
  lemma {:induction false} NeverQuarantines(history: seq<int>)
    requires Delays(history)
    ensures Run(history) == Estimate(Recent(history), None)
  {
    if history != [] {
      var front, last := history[..|history| - 1], history[|history| - 1];
      NeverQuarantines(front);
      RecentInRange(front);
      RecentSlides(front, last);
      assert front + [last] == history;
      assert !Far(Run(front), last);
    }
  }

  // ----- The projected position -----

  datatype RemoteState = RemoteState(
    isPaused: bool,
    isPlaying: bool,
    received: bool,          // ReceivedAt is set
    timestamp: int,
    receivedAtWallMs: int,
    positionAsOf: int,
    speed: real,
    offsetKnown: bool,
    clockOffset: int)

  function Truncate(x: real): int { if x >= 0.0 then x.Floor else -((-x).Floor) }

  /** How far playback at `speed` gets in `ms` milliseconds. */
  function Moved(ms: int, speed: real): int { Truncate(ms as real * speed) }

  function Age(rs: RemoteState): int {
    if rs.offsetKnown && rs.timestamp > 0 then
      var age := rs.receivedAtWallMs - rs.timestamp - rs.clockOffset;
      if age < 0 then 0 else if age > MAX_PROJECTION then MAX_PROJECTION else age
    else 0
  }

  /** `since` is the time passed since the snapshot was received. */
  function RemotePosition(rs: RemoteState, since: int): int {
    if rs.isPaused || !rs.isPlaying || !rs.received then rs.positionAsOf
    else
      var elapsed := if since < 0 then 0 else if since > MAX_PROJECTION then 0 else since;
      rs.positionAsOf + Moved(Age(rs) + elapsed, rs.speed)
  }

  /** The player's side of the estimator. */
  datatype Clock = Clock(est: Estimate, seeded: bool, lastTimestamp: int)

  const NEW_CLOCK := Clock(EMPTY, false, 0)

  function Sample(c: Clock, rs: RemoteState): Clock {
    if rs.timestamp > 0 && rs.timestamp != c.lastTimestamp then
      c.(est := Step(c.est, rs.receivedAtWallMs - rs.timestamp), lastTimestamp := rs.timestamp)
    else c
  }

  function Seed(c: Clock): Clock {
    if c.seeded then c else c.(est := Step(c.est, 0), seeded := true)
  }

  function Note(c: Clock, synced: bool, rs: RemoteState): Clock {
    if !c.seeded && !synced then c else Sample(Seed(c), rs)
  }

  function Annotate(c: Clock, synced: bool, rs: RemoteState): RemoteState {
    var d := Note(c, synced, rs);
    if (!c.seeded && !synced) || d.est.samples == [] then rs
    else rs.(clockOffset := Least(d.est.samples), offsetKnown := true)
  }

  class ClusterTiming {
    const estimator: Estimator
    var seeded: bool
    var lastTimestamp: int

    function State(): Clock
      reads this, estimator
    {
      Clock(estimator.State(), seeded, lastTimestamp)
    }

    constructor ()
      ensures State() == NEW_CLOCK && fresh(estimator)
    {
      estimator := new Estimator();
      seeded, lastTimestamp := false, 0;
    }

    /** `synced` tells whether the clock-synced marker file exists. */
    method NoteClusterTiming(synced: bool, rs: RemoteState, since: int)
        returns (annotated: RemoteState, position: int)
      modifies this, estimator
      ensures State() == Note(old(State()), synced, rs)
      ensures annotated == Annotate(old(State()), synced, rs)
      ensures position == RemotePosition(annotated, since)
    {
      annotated := rs;
      if !seeded {
        if !synced {
          return annotated, RemotePosition(annotated, since);
        }
        estimator.Add(0);
        seeded := true;
      }
      if rs.timestamp > 0 && rs.timestamp != lastTimestamp {
        estimator.Add(rs.receivedAtWallMs - rs.timestamp);
        lastTimestamp := rs.timestamp;
      }
      var offset := estimator.Offset();
      if offset.Some? {
        annotated := annotated.(clockOffset := offset.value, offsetKnown := true);
      }
      position := RemotePosition(annotated, since);
    }
  }

  datatype Update = Update(synced: bool, rs: RemoteState)

  function After(updates: seq<Update>): Clock {
    if updates == [] then NEW_CLOCK
    else
      var u := updates[|updates| - 1];
      Note(After(updates[..|updates| - 1]), u.synced, u.rs)
  }

  function Delay(rs: RemoteState): int { rs.receivedAtWallMs - rs.timestamp }

  /** Both clocks agree: nothing arrives before it was sent, and a snapshot seen for the first
    time arrives within 60 s.  A redelivered snapshot may be arbitrarily old. */
  ghost predicate Timely(c: Clock, rs: RemoteState) {
    rs.timestamp > 0 ==>
      0 <= Delay(rs) && (rs.timestamp != c.lastTimestamp ==> Delay(rs) <= JUMP_FLUSH)
  }

  ghost predicate Synchronised(updates: seq<Update>) {
    forall k :: 0 <= k < |updates| ==> Timely(After(updates[..k]), updates[k].rs)
  }

  /** The samples one update adds: the zero seed, once, and the delay of a new snapshot. */
  function Sampled(c: Clock, u: Update): seq<int> {
    if !c.seeded && !u.synced then []
    else (if c.seeded then [] else [0]) + Measured(c, u.rs)
  }

  function Measured(c: Clock, rs: RemoteState): seq<int> {
    if rs.timestamp > 0 && rs.timestamp != c.lastTimestamp then [Delay(rs)] else []
  }

  lemma SeedSamples(c: Clock, history: seq<int>)
    requires c.est == Run(history)
    ensures Seed(c).est == Run(history + if c.seeded then [] else [0])
  {
    assert history + [] == history;
    RunStep(history, 0);
  }

  lemma MeasuredSamples(c: Clock, rs: RemoteState, history: seq<int>)
    requires c.est == Run(history)
    ensures Sample(c, rs).est == Run(history + Measured(c, rs))
  {
    assert history + [] == history;
    RunStep(history, Delay(rs));
  }

  lemma NoteSamples(c: Clock, u: Update, history: seq<int>)
    requires c.est == Run(history)
    ensures Note(c, u.synced, u.rs).est == Run(history + Sampled(c, u))
  {
    if !c.seeded && !u.synced {
      assert history + [] == history;
    } else {
      var seeds := if c.seeded then [] else [0];
      SeedSamples(c, history);
      MeasuredSamples(Seed(c), u.rs, history + seeds);
      assert history + seeds + Measured(c, u.rs) == history + (seeds + Measured(c, u.rs));
    }
  }

  /** All samples the estimator was given. */
  function History(updates: seq<Update>): seq<int> {
    if updates == [] then []
    else
      var front := updates[..|updates| - 1];
      History(front) + Sampled(After(front), updates[|updates| - 1])
  }

  /** The estimator is where the samples lead, and all of them are delays within 0..60 s. */
  ghost predicate Seen(c: Clock, history: seq<int>) {
    Delays(history) && c.est == Run(history) && (c.seeded <==> history != [])
  }

  lemma SeenStep(c: Clock, u: Update, history: seq<int>)
    requires Seen(c, history) && Timely(c, u.rs)
    ensures Seen(Note(c, u.synced, u.rs), history + Sampled(c, u))
  {
    NoteSamples(c, u, history);
    assert Delays(Sampled(c, u));
  }

  lemma {:induction false} HistorySeen(updates: seq<Update>)
    requires Synchronised(updates)
    ensures Seen(After(updates), History(updates))
  {
    if updates != [] {
      var front, u := updates[..|updates| - 1], updates[|updates| - 1];
      forall k | 0 <= k < |front|
        ensures Timely(After(front[..k]), front[k].rs)
      {
        assert front[..k] == updates[..k];
      }
      HistorySeen(front);
      SeenStep(After(front), u, History(front));
    }
  }

  lemma HistoryStep(updates: seq<Update>, u: Update)
    ensures History(updates + [u]) == History(updates) + Sampled(After(updates), u)
  {
    assert (updates + [u])[..|updates|] == updates;
  }

  /** The zero seed is taken with the first update that finds the clock synchronised. */
  lemma {:induction false} SeededExactly(updates: seq<Update>)
    ensures After(updates).seeded <==> exists k :: 0 <= k < |updates| && updates[k].synced
    decreases |updates|
  {
    if updates != [] {
      var front, u := updates[..|updates| - 1], updates[|updates| - 1];
      SeededExactly(front);
      assert updates == front + [u];
      if After(front).seeded {
        var k :| 0 <= k < |front| && front[k].synced;
        assert updates[k].synced;
      }
      if u.synced {
        assert updates[|updates| - 1].synced;
      }
    }
  }

  /** With synchronised clocks the age added to a snapshot is never negative and never more than
    its true age, and a freshly sampled snapshot is aged by exactly its delay less the offset. */
  lemma AgeWithinDelay(updates: seq<Update>, u: Update)
    requires Synchronised(updates) && Timely(After(updates), u.rs) && !u.rs.offsetKnown
    ensures
      var rs := Annotate(After(updates), u.synced, u.rs);
      && (u.rs.timestamp > 0 ==> 0 <= Age(rs) <= Delay(u.rs))
      && (u.rs.timestamp <= 0 ==> Age(rs) == 0)
      && (rs.offsetKnown <==> After(updates).seeded || u.synced)
      && (rs.offsetKnown ==> 0 <= rs.clockOffset <= JUMP_FLUSH)
      && (rs.offsetKnown && u.rs.timestamp > 0 && u.rs.timestamp != After(updates).lastTimestamp ==>
            Age(rs) == Delay(u.rs) - rs.clockOffset)
  {
    HistorySeen(updates);
    var c, history := After(updates), History(updates);
    SeenStep(c, u, history);
    if c.seeded || u.synced {
      AgeOfSeen(c, u, history + Sampled(c, u));
    }
  }

  /** The offset is known from the first update on that finds the clock synchronised, and it is the
    least of the last 16 samples: the zero seed and the delay of each snapshot when first seen. */
  lemma OffsetIsLeast(updates: seq<Update>, u: Update)
    requires Synchronised(updates) && Timely(After(updates), u.rs) && !u.rs.offsetKnown
    ensures
      var rs, history := Annotate(After(updates), u.synced, u.rs), History(updates + [u]);
      && (rs.offsetKnown <==> u.synced || exists k :: 0 <= k < |updates| && updates[k].synced)
      && (rs.offsetKnown ==> history != [] && rs.clockOffset == Least(Recent(history)))
  {
    HistorySeen(updates);
    SeededExactly(updates);
    HistoryStep(updates, u);
    var c, history := After(updates), History(updates);
    SeenStep(c, u, history);
    if c.seeded || u.synced {
      AgeOfSeen(c, u, history + Sampled(c, u));
    }
  }

  lemma AgeOfSeen(c: Clock, u: Update, history: seq<int>)
    requires c.seeded || u.synced
    requires Seen(Note(c, u.synced, u.rs), history) && Timely(c, u.rs) && !u.rs.offsetKnown
    requires u.rs.timestamp > 0 && u.rs.timestamp != c.lastTimestamp ==>
               history != [] && history[|history| - 1] == Delay(u.rs)
    ensures
      var rs := Annotate(c, u.synced, u.rs);
      && rs.offsetKnown && 0 <= rs.clockOffset <= JUMP_FLUSH
      && history != [] && rs.clockOffset == Least(Recent(history))
      && (u.rs.timestamp > 0 ==> 0 <= Age(rs) <= Delay(u.rs))
      && (u.rs.timestamp > 0 && u.rs.timestamp != c.lastTimestamp ==> Age(rs) == Delay(u.rs) - rs.clockOffset)
  {
    NeverQuarantines(history);
    var window := Recent(history);
    RecentInRange(history);
    assert window == Note(c, u.synced, u.rs).est.samples;
    assert history != [] && Least(window) in window;
    assert window[|window| - 1] == history[|history| - 1];
  }

  /** Where playback really is, `delay + since` ms after the snapshot was taken. */
  function TruePosition(positionAsOf: int, speed: real, age: int): real {
    positionAsOf as real + age as real * speed
  }

  lemma Slower(n: int, m: int, speed: real)
    requires 0 <= n <= m && speed >= 0.0
    ensures 0 <= Moved(n, speed) && Moved(n, speed) as real <= m as real * speed
  {
    var x, y := n as real, m as real;
    assert 0.0 * speed <= x * speed <= y * speed;
  }

  lemma Projected(p: int, n: int, m: int, speed: real)
    requires 0 <= n <= m && speed >= 0.0
    ensures p <= p + Moved(n, speed) && (p + Moved(n, speed)) as real <= TruePosition(p, speed, m)
  {
    Slower(n, m, speed);
    var moved := Moved(n, speed);
    assert (p + moved) as real == p as real + moved as real;
  }

  /** Neither behind the snapshot nor ahead of the truth. */
  ghost predicate NeverAheadOf(rs: RemoteState, delay: int, since: int) {
    && rs.positionAsOf <= RemotePosition(rs, since)
    && RemotePosition(rs, since) as real <= TruePosition(rs.positionAsOf, rs.speed, delay + since)
  }

  lemma WithinTrueAge(rs: RemoteState, delay: int, since: int)
    requires rs.speed >= 0.0 && since >= 0 && 0 <= Age(rs) <= delay
    ensures NeverAheadOf(rs, delay, since)
  {
    var elapsed := if since > MAX_PROJECTION then 0 else since;
    Projected(rs.positionAsOf, Age(rs) + elapsed, delay + since, rs.speed);
    Slower(0, delay + since, rs.speed);
  }

  /** With synchronised clocks the projected position never runs ahead of the true one, nor
    falls behind the snapshot. */
  lemma NeverAhead(updates: seq<Update>, u: Update, since: int)
    requires Synchronised(updates) && Timely(After(updates), u.rs) && !u.rs.offsetKnown
    requires u.rs.speed >= 0.0 && u.rs.timestamp > 0 && since >= 0
    ensures
      var rs := Annotate(After(updates), u.synced, u.rs);
      && rs.positionAsOf == u.rs.positionAsOf && rs.speed == u.rs.speed
      && NeverAheadOf(rs, Delay(u.rs), since)
  {
    AgeWithinDelay(updates, u);
    WithinTrueAge(Annotate(After(updates), u.synced, u.rs), Delay(u.rs), since);
  }

  // ----- How close the projection is -----

  lemma Truncated(x: real)
    ensures x >= 0.0 ==> x - 1.0 < Truncate(x) as real <= x
    ensures x <= 0.0 ==> x <= Truncate(x) as real < x + 1.0
  {
  }

  predicate ClampedTo(x: int, y: int) { y == if x < 0 then 0 else if x > 600_000 then 600_000 else x }

  /** How old a snapshot is taken to be: unknown clocks count as no age, and ten minutes are the most. */
  predicate IsAge(rs: RemoteState, age: int) {
    if rs.offsetKnown && rs.timestamp > 0
    then ClampedTo(rs.receivedAtWallMs - rs.timestamp - rs.clockOffset, age) else age == 0
  }

  /** How long ago it arrived: after ten minutes that does not count any more. */
  predicate IsElapsed(since: int, elapsed: int) { elapsed == if 0 <= since <= 600_000 then since else 0 }

  /** For any state: while playing, the projection is where playback gets in that time, to within a
    millisecond towards the snapshot; otherwise it is the snapshot. */
  lemma PositionExactly(rs: RemoteState, since: int, age: int, elapsed: int)
    requires IsAge(rs, age) && IsElapsed(since, elapsed)
    ensures
      if rs.isPaused || !rs.isPlaying || !rs.received then RemotePosition(rs, since) == rs.positionAsOf
      else
        var there, shown := TruePosition(rs.positionAsOf, rs.speed, age + elapsed), RemotePosition(rs, since) as real;
        if rs.speed >= 0.0 then there - 1.0 < shown <= there else there <= shown < there + 1.0
  {
    assert age == Age(rs) && 0 <= age + elapsed;
    var n := (age + elapsed) as real;
    assert rs.speed >= 0.0 ==> n * rs.speed >= 0.0 * rs.speed;
    assert rs.speed <= 0.0 ==> n * rs.speed <= 0.0 * rs.speed;
    Truncated(n * rs.speed);
    var moved := Moved(age + elapsed, rs.speed);
    assert (rs.positionAsOf + moved) as real == rs.positionAsOf as real + moved as real;
  }

  /** Within a millisecond behind where playback gets from the age `age` on, for ten minutes. */
  ghost predicate CloseTo(rs: RemoteState, age: int, since: int) {
    var there := TruePosition(rs.positionAsOf, rs.speed, age + (if since <= 600_000 then since else 0));
    there - 1.0 < RemotePosition(rs, since) as real <= there
  }

  /** The lower bound beside `NeverAhead`: a playing snapshot of known age is projected to within a
    millisecond of where playback gets in that age and the time since. */
  lemma CloseBehind(rs: RemoteState, since: int)
    requires rs.isPlaying && !rs.isPaused && rs.received && rs.speed >= 0.0 && 0 <= since
    requires rs.offsetKnown && rs.timestamp > 0 && 0 <= Delay(rs) - rs.clockOffset <= 600_000
    ensures CloseTo(rs, Delay(rs) - rs.clockOffset, since)
  {
    PositionExactly(rs, since, Delay(rs) - rs.clockOffset, if since <= 600_000 then since else 0);
  }

  /** With synchronised clocks every snapshot seen for the first time has such an age: its delay less
    the offset, which `OffsetIsLeast` names, and at most a minute. */
  lemma FreshAge(updates: seq<Update>, u: Update)
    requires Synchronised(updates) && Timely(After(updates), u.rs) && !u.rs.offsetKnown
    requires u.synced || After(updates).seeded
    requires u.rs.timestamp > 0 && u.rs.timestamp != After(updates).lastTimestamp
    ensures
      var rs := Annotate(After(updates), u.synced, u.rs);
      && rs.offsetKnown && rs == u.rs.(clockOffset := rs.clockOffset, offsetKnown := true)
      && 0 <= Delay(rs) - rs.clockOffset <= 60_000 && Age(rs) == Delay(rs) - rs.clockOffset
  {
    AgeWithinDelay(updates, u);
  }
}
