/** Whole histories of the reboot-once manager: daemon starts, ticks, crashes at any point, profile
  deletions, and failing flag writes and removals.

  The device's log is the history.  `Rightful` says when an entry may be appended given what came
  before; every run only appends rightful entries, and the promises about reboots follow from
  that alone.
 */
module RecoveryHistories {
  import opened Options
  import opened Recovery

  type Log = seq<Obs>

  /** Where the daemon is within `issueReboot`, if at all. */
  datatype Stage = Quiet | AfterSave(profile: string, now: int) | AfterSend(profile: string, now: int)

  datatype World = Down(dev: Dev) | Up(dev: Dev, mem: Memory, stage: Stage)

  /** `Delete` is a profile deletion between two ticks.  `RemoveFile` and `ForgetMemory` are its two
    halves at any moment, even in the middle of a reboot: nothing in the original prevents that. */
  datatype Event =
    | Boot(now: int, active: Option<string>, readOk: bool, removeOk: bool)
    | TickEvent(tick: Tick)
    | Send(sshOk: bool)
    | Finish
    | Delete(profile: string, readOk: bool, removeOk: bool)
    | RemoveFile(removeOk: bool)
    | ForgetMemory(profile: string)
    | Crash

  /** A tick up to and including the write of the flag. */
  function BeginTick(w: World, t: Tick): World
    requires w.Up?
  {
    if w.mem.phase.Idle? then
      var (m, d) := IdleObserve(w.mem, w.dev, t);
      if Decides(w.mem, t) && t.saveOk
      then Up(SaveFlag(d, t.now, t.active.value, true), m, AfterSave(t.active.value, t.now))
      else Up(d, m, Quiet)
    else
      var (m, d) := WaitTick(w.mem, w.dev, t);
      Up(d, m, Quiet)
  }

  /** Events that cannot happen change nothing. */
  function Step(w: World, e: Event): World {
    match w
    case Down(dev) =>
      if e.Boot? then
        var (m, d) := BootCheck(dev, e.now, e.active, e.readOk, e.removeOk);
        Up(d, m, Quiet)
      else w
    case Up(dev, mem, stage) =>
      match e
      case Crash => Down(dev)
      case TickEvent(t) => if stage.Quiet? then BeginTick(w, t) else w
      case Send(sshOk) =>
        if stage.AfterSave? then
          var (m, d) := SendReboot(mem, dev, stage.profile, stage.now, sshOk);
          Up(d, m, AfterSend(stage.profile, stage.now))
        else w
      case Finish =>
        if stage.AfterSend? then Up(dev, FinishReboot(mem, stage.profile, stage.now), Quiet) else w
      case Delete(profile, readOk, removeOk) =>
        if stage.Quiet? then
          var (m, d) := Recovery.ClearFlagForProfile(mem, dev, profile, readOk, removeOk);
          Up(d, m, Quiet)
        else w
      case RemoveFile(removeOk) => Up(ClearFlag(dev, removeOk), mem, stage)
      case ForgetMemory(profile) => Up(dev, ForgetProfile(mem, profile), stage)
      case Boot(_, _, _, _) => w
  }

  /** A history starts with the daemon down and any file on disk. */
  function Run(file: FlagFile, events: seq<Event>): World {
    if events == [] then Down(Dev(file, []))
    else Step(Run(file, events[..|events| - 1]), events[|events| - 1])
  }

  /** A whole tick of the object is the steps begin, send and finish without a crash. */
  lemma TickIsSteps(m: Memory, d: Dev, t: Tick, sshOk: bool)
    requires m.phase.Idle?
    ensures
      var w := Step(Step(Step(Up(d, m, Quiet), TickEvent(t)), Send(sshOk)), Finish);
      w == Up(IdleTick(m, d, t, sshOk).1, IdleTick(m, d, t, sshOk).0, Quiet)
  {
  }

  /** A deletion of the flag's own profile is its two halves in a row. */
  lemma DeletionIsHalves(m: Memory, d: Dev, profile: string, removeOk: bool)
    requires d.file.Good? || d.file.BadTime?
    requires d.file.profile == profile
    ensures Step(Up(d, m, Quiet), Delete(profile, true, removeOk)) ==
            Step(Step(Up(d, m, Quiet), RemoveFile(removeOk)), ForgetMemory(profile))
  {
  }

  // ----- Reading a log -----

  /** What matters of a log.  Except for `flagOn`, everything is about the time since the latest
    start:

    - `flagOn`: a good flag is on disk;
    - `found`: what that start found;
    - `sent`, `tethered`: whether that happened;
    - `removeFailed`: a removal failed, and the flag was not written again since;
    - `window`: since when the probes have only seen the Pi reachable without internet;
    - `sight`: what the latest probe saw;
    - `justSaved`: the flag whose write is, apart from removals, the last thing that happened;
    - `reason`: a waiting tick saw the Pi down, or the command was not delivered;
    - `fired`: after that, a waiting tick reached the Pi;
    - `back`: the last thing that happened is a waiting tick that reached the Pi. */
  datatype Summary = Summary(
    flagOn: bool,
    found: Option<bool>,
    sent: bool,
    tethered: bool,
    removeFailed: bool,
    window: Option<int>,
    sight: Option<Sight>,
    justSaved: Option<(string, int)>,
    reason: bool,
    fired: bool,
    back: bool)

  predicate IsRemoval(o: Obs) { o.Removed? || o.RemoveFailed? }

  predicate IsReason(o: Obs) { o == Awaited(false) || (o.Commanded? && !o.delivered) }

  function Next(s: Summary, o: Obs): Summary {
    var later := !o.Booted?;
    Summary(
      o.Saved? || (!o.Removed? && s.flagOn),
      if o.Booted? then Some(o.found) else s.found,
      later && (s.sent || o.Commanded?),
      later && (s.tethered || o.Tethered?),
      later && !o.Saved? && (s.removeFailed || o.RemoveFailed?),
      if o.Booted? then None else if o.Probed? then ObserveWindow(s.window, o.sight) else s.window,
      if o.Booted? then None else if o.Probed? then Some(o.sight) else s.sight,
      if o.Saved? then Some((o.profile, o.at)) else if IsRemoval(o) then s.justSaved else None,
      later && (s.reason || IsReason(o)),
      later && (s.fired || (o == Awaited(true) && s.reason)),
      o == Awaited(true))
  }

  function Front(log: Log): Log
    requires log != []
  {
    log[..|log| - 1]
  }

  function Last(log: Log): Obs
    requires log != []
  {
    log[|log| - 1]
  }

  /** `init` tells whether a good flag was on disk at the start. */
  function Summarise(init: bool, log: Log): Summary {
    if log == [] then Summary(init, None, false, false, false, None, None, None, false, false, false)
    else Next(Summarise(init, Front(log)), Last(log))
  }

  /** The decision: 15 s of nothing but "reachable, no internet", up to and including this tick. */
  predicate Justified(s: Summary, at: int) {
    s.window.Some? && at - s.window.value >= NO_INTERNET_WINDOW && s.sight == Some(Offline(at))
  }

  /** When may `o` follow a log with summary `s`? */
  predicate Rightful(s: Summary, o: Obs) {
    match o
    case Booted(found, readOk) => found == (readOk && s.flagOn)
    case Removed => s.flagOn
    case Commanded(profile, at, _) =>
      s.found == Some(false) && !s.sent && s.justSaved == Some((profile, at)) && Justified(s, at)
    case Tethered => !s.tethered && s.reason && s.back
    case _ => true
  }

  predicate Lawful(init: bool, log: Log) {
    log == [] || (Lawful(init, Front(log)) && Rightful(Summarise(init, Front(log)), Last(log)))
  }

  // ----- Every run is lawful -----

  ghost predicate Remembers(s: Summary, m: Memory, stage: Stage) {
    && s.found.Some?
    && (s.tethered ==> m.rebootIssued && m.tetheringFired)
    && (m.sawDown || m.rebootFailed <==> s.reason)
    && (m.tetheringFired <==> s.fired)
    && (!m.rebootIssued ==> !m.sawDown && !m.tetheringFired)
    && match stage
       case Quiet =>
         && !m.phase.Rebooting?
         && (m.phase.Waiting? ==> m.rebootIssued)
         && (m.rebootIssued <==> s.found == Some(true) || s.sent)
         && (!m.rebootIssued ==> s.found == Some(false) && !s.sent && m.noInternetSince == s.window)
       case AfterSave(profile, now) =>
         && !m.rebootIssued && s.found == Some(false) && !s.sent
         && s.justSaved == Some((profile, now)) && Justified(s, now)
       case AfterSend(_, _) => !m.rebootIssued && s.sent
  }

  ghost predicate InStep(init: bool, d: Dev) {
    Lawful(init, d.log) && (d.file.Good? <==> Summarise(init, d.log).flagOn)
  }

  ghost predicate Invariant(init: bool, w: World) {
    InStep(init, w.dev) && (w.Up? ==> Remembers(Summarise(init, w.dev.log), w.mem, w.stage))
  }

  /** A rightful entry keeps the log lawful. */
  lemma Append(init: bool, log: Log, o: Obs)
    requires Lawful(init, log)
    ensures Summarise(init, log + [o]) == Next(Summarise(init, log), o)
    ensures Rightful(Summarise(init, log), o) ==> Lawful(init, log + [o])
  {
    assert Front(log + [o]) == log && Last(log + [o]) == o;
  }

  /** Removing the flag, or failing to, keeps the file in step with the log. */
  lemma ClearInvariant(init: bool, d: Dev, removeOk: bool)
    requires InStep(init, d)
    ensures
      var d' := ClearFlag(d, removeOk);
      var s, s' := Summarise(init, d.log), Summarise(init, d'.log);
      && InStep(init, d')
      && s' == s.(flagOn := s'.flagOn, back := s'.back, removeFailed := s.removeFailed || (d.file.Good? && !removeOk))
  {
    Append(init, d.log, Removed);
    Append(init, d.log, RemoveFailed);
  }

  /** The flag on disk is the one the manager waits for; its time may have lost its fraction. */
  predicate SameFlag(f: FlagFile, m: Memory) {
    f.Good? && f.profile == m.flagProfile &&
    (f.startedAt == m.flagStartedAt || f.startedAt == Seconds(m.flagStartedAt))
  }

  /** What a start notes, before it clears anything. */
  function BootEntry(dev: Dev, readOk: bool): Obs { Booted(readOk && dev.file.Good?, readOk) }

  lemma BootNoted(init: bool, dev: Dev, readOk: bool)
    requires InStep(init, dev)
    ensures
      var noted := Note(dev, BootEntry(dev, readOk));
      && InStep(init, noted)
      && Summarise(init, noted.log) ==
         Summary(dev.file.Good?, Some(readOk && dev.file.Good?), false, false, false, None, None, None, false, false, false)
  {
    Append(init, dev.log, BootEntry(dev, readOk));
  }

  /** A start notes what it found, and then clears the file or not. */
  lemma BootCases(dev: Dev, now: int, active: Option<string>, readOk: bool, removeOk: bool)
    ensures
      var (m, d) := BootCheck(dev, now, active, readOk, removeOk);
      var noted := Note(dev, BootEntry(dev, readOk));
      && d == (if m.phase.Waiting? || dev.file.Absent? || (readOk && dev.file.Blank?) then noted else ClearFlag(noted, removeOk))
      && m.rebootIssued == (readOk && dev.file.Good?)
      && (m.phase.Waiting? ==> readOk && SameFlag(dev.file, m))
      && !m.phase.Rebooting? && m.noInternetSince.None? && !m.tetheringFired && !m.sawDown && !m.rebootFailed
  {
  }

  lemma BootInvariant(init: bool, dev: Dev, now: int, active: Option<string>, readOk: bool, removeOk: bool)
    requires InStep(init, dev)
    ensures
      var (m, d) := BootCheck(dev, now, active, readOk, removeOk);
      Invariant(init, Up(d, m, Quiet))
  {
    BootNoted(init, dev, readOk);
    BootCases(dev, now, active, readOk, removeOk);
    ClearInvariant(init, Note(dev, BootEntry(dev, readOk)), removeOk);
  }

  /** A tick that probes, by what it makes of the window. */
  lemma ProbeInvariant(init: bool, w: World, sight: Sight)
    requires Invariant(init, w) && w.Up? && w.stage.Quiet? && w.mem.phase.Idle? && !w.mem.rebootIssued
    ensures
      var d, since := Note(w.dev, Probed(sight)), ObserveWindow(w.mem.noInternetSince, sight);
      && Invariant(init, Up(d, w.mem.(noInternetSince := since), Quiet))
      && Summarise(init, d.log).window == since && Summarise(init, d.log).sight == Some(sight)
  {
    Append(init, w.dev.log, Probed(sight));
  }

  lemma ObserveInvariant(init: bool, w: World, t: Tick)
    requires Invariant(init, w) && w.Up? && w.stage.Quiet? && w.mem.phase.Idle?
    ensures
      var (m, d) := IdleObserve(w.mem, w.dev, t);
      && Invariant(init, Up(d, m, Quiet))
      && (Decides(w.mem, t) ==> !m.rebootIssued && Justified(Summarise(init, d.log), t.now))
  {
    if Probes(w.mem, t) {
      ProbeInvariant(init, w, Look(t));
    }
  }

  lemma IdleInvariant(init: bool, w: World, t: Tick)
    requires Invariant(init, w) && w.Up? && w.stage.Quiet? && w.mem.phase.Idle?
    ensures Invariant(init, BeginTick(w, t))
  {
    ObserveInvariant(init, w, t);
    var (m, d) := IdleObserve(w.mem, w.dev, t);
    if Decides(w.mem, t) && t.saveOk {
      Append(init, d.log, Saved(t.active.value, t.now));
    }
  }

  predicate EndsWait(m: Memory, t: Tick) { t.now - m.flagStartedAt > PATIENCE || t.internet }

  lemma GiveUpInvariant(init: bool, w: World, t: Tick)
    requires Invariant(init, w) && w.Up? && w.stage.Quiet? && w.mem.phase.Waiting? && EndsWait(w.mem, t)
    ensures Invariant(init, BeginTick(w, t))
  {
    ClearInvariant(init, w.dev, t.removeOk);
  }

  lemma WaitInvariant(init: bool, w: World, t: Tick)
    requires Invariant(init, w) && w.Up? && w.stage.Quiet? && w.mem.phase.Waiting? && !EndsWait(w.mem, t)
    ensures Invariant(init, BeginTick(w, t))
  {
    Append(init, w.dev.log, Awaited(t.reachable));
    Append(init, w.dev.log + [Awaited(t.reachable)], Tethered);
  }

  lemma SendInvariant(init: bool, w: World, e: Event)
    requires Invariant(init, w) && w.Up? && (e.Send? || e.Finish?)
    ensures Invariant(init, Step(w, e))
  {
    if e.Send? && w.stage.AfterSave? {
      Append(init, w.dev.log, Commanded(w.stage.profile, w.stage.now, e.sshOk));
    }
  }

  lemma DeleteInvariant(init: bool, w: World, e: Event)
    requires Invariant(init, w) && w.Up? && e.Delete?
    ensures Invariant(init, Step(w, e))
  {
    ClearInvariant(init, w.dev, e.removeOk);
  }

  lemma HalfDeleteInvariant(init: bool, w: World, e: Event)
    requires Invariant(init, w) && w.Up? && (e.RemoveFile? || e.ForgetMemory?)
    ensures Invariant(init, Step(w, e))
  {
    if e.RemoveFile? {
      ClearInvariant(init, w.dev, e.removeOk);
    }
  }

  lemma StepInvariant(init: bool, w: World, e: Event)
    requires Invariant(init, w)
    ensures Invariant(init, Step(w, e))
  {
    match e
    case Boot(now, active, readOk, removeOk) =>
      if w.Down? { BootInvariant(init, w.dev, now, active, readOk, removeOk); }
    case TickEvent(t) =>
      if w.Up? && w.stage.Quiet? {
        if w.mem.phase.Idle? {
          IdleInvariant(init, w, t);
        } else if EndsWait(w.mem, t) {
          GiveUpInvariant(init, w, t);
        } else {
          WaitInvariant(init, w, t);
        }
      }
    case Send(_) => if w.Up? { SendInvariant(init, w, e); }
    case Finish => if w.Up? { SendInvariant(init, w, e); }
    case Delete(_, _, _) => if w.Up? { DeleteInvariant(init, w, e); }
    case RemoveFile(_) => if w.Up? { HalfDeleteInvariant(init, w, e); }
    case ForgetMemory(_) => if w.Up? { HalfDeleteInvariant(init, w, e); }
    case Crash =>
  }

  /** Whatever happens, and whenever: the log stays lawful. */
  lemma {:induction false} RunInvariant(file: FlagFile, events: seq<Event>)
    ensures Invariant(file.Good?, Run(file, events))
  {
    if events != [] {
      var front, e := events[..|events| - 1], events[|events| - 1];
      RunInvariant(file, front);
      StepInvariant(file.Good?, Run(file, front), e);
    }
  }

  // ----- What a lawful log promises -----

  lemma {:induction false} LatestBoot(init: bool, log: Log) returns (b: nat)
    requires Summarise(init, log).found.Some?
    ensures b < |log| && log[b].Booted? && log[b].found == Summarise(init, log).found.value
    ensures forall k :: b < k < |log| ==> !log[k].Booted?
    decreases |log|
  {
    if Last(log).Booted? {
      b := |log| - 1;
    } else {
      b := LatestBoot(init, Front(log));
    }
  }

  lemma {:induction false} NothingSent(init: bool, log: Log, b: nat)
    requires b < |log| && forall k :: b < k < |log| ==> !log[k].Booted?
    requires !Summarise(init, log).sent
    ensures forall k :: b < k < |log| ==> !log[k].Commanded?
    decreases |log|
  {
    if b < |log| - 1 {
      assert !Last(log).Booted?;
      NothingSent(init, Front(log), b);
    }
  }

  lemma {:induction false} LawfulAt(init: bool, log: Log, j: nat)
    requires Lawful(init, log) && j < |log|
    ensures Rightful(Summarise(init, log[..j]), log[j])
    decreases |log|
  {
    if j < |log| - 1 {
      LawfulAt(init, Front(log), j);
      assert Front(log)[..j] == log[..j];
    }
  }

  lemma {:induction false} SaveBefore(init: bool, log: Log) returns (s: nat)
    requires Summarise(init, log).justSaved.Some?
    ensures
      var (profile, at) := Summarise(init, log).justSaved.value;
      s < |log| && log[s] == Saved(profile, at) && forall k :: s < k < |log| ==> IsRemoval(log[k])
    decreases |log|
  {
    if Last(log).Saved? {
      s := |log| - 1;
    } else {
      s := SaveBefore(init, Front(log));
    }
  }

  /** A flag that was on disk after `n` entries and is gone was removed since. */
  lemma {:induction false} RemovalSince(init: bool, log: Log, n: nat) returns (r: nat)
    requires n <= |log| && Summarise(init, log[..n]).flagOn && !Summarise(init, log).flagOn
    ensures n <= r < |log| && log[r].Removed?
    decreases |log|
  {
    r := n;
    assert log[..|log|] == log;
    if Last(log).Removed? {
      r := |log| - 1;
    } else if n < |log| {
      assert Front(log)[..n] == log[..n];
      r := RemovalSince(init, Front(log), n);
    }
  }

  /** The probe that opened the window. */
  lemma {:induction false} WindowMeaning(init: bool, log: Log) returns (v: nat)
    requires Summarise(init, log).window.Some?
    ensures v < |log| && log[v] == Probed(Offline(Summarise(init, log).window.value))
    ensures forall k :: v <= k < |log| ==> !log[k].Booted? && (log[k].Probed? ==> log[k].sight.Offline?)
    decreases |log|
  {
    if Last(log).Probed? && Summarise(init, Front(log)).window.None? {
      v := |log| - 1;
    } else {
      v := WindowMeaning(init, Front(log));
    }
  }

  lemma {:induction false} LatestProbe(init: bool, log: Log) returns (p: nat)
    requires Summarise(init, log).sight.Some?
    ensures p < |log| && log[p] == Probed(Summarise(init, log).sight.value)
    ensures forall k :: p < k < |log| ==> !log[k].Booted? && !log[k].Probed?
    decreases |log|
  {
    if Last(log).Probed? {
      p := |log| - 1;
    } else {
      p := LatestProbe(init, Front(log));
    }
  }

  /** `b` is the start of the lifetime that `j` belongs to. */
  ghost predicate LifetimeStart(log: Log, b: nat, j: nat) {
    b < j < |log| && log[b].Booted? && forall k :: b < k < j ==> !log[k].Booted?
  }

  /** Every lifetime that sends a command started without finding a flag, and sends only one. */
  lemma OneCommandPerLifetime(file: FlagFile, events: seq<Event>, j: nat) returns (b: nat)
    requires var log := Run(file, events).dev.log; j < |log| && log[j].Commanded?
    ensures
      var log := Run(file, events).dev.log;
      LifetimeStart(log, b, j) && !log[b].found && forall k :: b < k < j ==> !log[k].Commanded?
  {
    RunInvariant(file, events);
    var log := Run(file, events).dev.log;
    LawfulAt(file.Good?, log, j);
    b := LatestBoot(file.Good?, log[..j]);
    NothingSent(file.Good?, log[..j], b);
    assert forall k :: 0 <= k < j ==> log[..j][k] == log[k];
  }

  /** The write of the flag that a command was sent under: only removals lie between. */
  ghost predicate WrittenFor(log: Log, s: nat, i: nat) {
    && s < i < |log| && log[i].Commanded?
    && log[s] == Saved(log[i].profile, log[i].at)
    && forall k :: s < k < i ==> IsRemoval(log[k])
  }

  lemma CommandWritten(init: bool, log: Log, i: nat) returns (s: nat)
    requires Lawful(init, log) && i < |log| && log[i].Commanded?
    ensures WrittenFor(log, s, i)
  {
    LawfulAt(init, log, i);
    s := SaveBefore(init, log[..i]);
    assert forall k :: 0 <= k < i ==> log[..i][k] == log[k];
  }

  /** Between two reboot commands the daemon was started and found no flag; and the flag that was
    written for the first command, by the write `s`, was removed before that start, unless the
    start could not read the file.  This holds for deletions at any moment. */
  lemma BetweenCommands(file: FlagFile, events: seq<Event>, i: nat, j: nat)
      returns (s: nat, r: nat, b: nat)
    requires var log := Run(file, events).dev.log; i < j < |log| && log[i].Commanded? && log[j].Commanded?
    ensures
      var log := Run(file, events).dev.log;
      && LifetimeStart(log, b, j) && !log[b].found
      && WrittenFor(log, s, i) && i < b
      && (log[b].readOk ==> s < r < b && log[r].Removed?)
  {
    b := OneCommandPerLifetime(file, events, j);
    RunInvariant(file, events);
    var log, init := Run(file, events).dev.log, file.Good?;
    s := CommandWritten(init, log, i);
    LawfulAt(init, log, b);
    r := 0;
    if log[b].readOk {
      assert Front(log[..s + 1]) == log[..s];
      assert log[..b][..s + 1] == log[..s + 1];
      r := RemovalSince(init, log[..b], s + 1);
    }
  }

  /** A flag that is on disk and was not after `n` entries was written since. */
  lemma {:induction false} SaveSince(init: bool, log: Log, n: nat) returns (k: nat)
    requires n <= |log| && !Summarise(init, log[..n]).flagOn && Summarise(init, log).flagOn
    ensures n <= k < |log| && log[k].Saved?
    decreases |log|
  {
    k := n;
    assert log[..|log|] == log;
    if Last(log).Saved? {
      k := |log| - 1;
    } else if n < |log| {
      assert Front(log)[..n] == log[..n];
      k := SaveSince(init, Front(log), n);
    }
  }

  ghost predicate RemovedWithin(log: Log, i: nat, b: nat) { exists r: nat :: i < r < b && r < |log| && log[r].Removed? }

  ghost predicate SavedWithin(log: Log, i: nat, b: nat) { exists k: nat :: i < k < b && k < |log| && log[k].Saved? }

  lemma RemovedIf(init: bool, log: Log, i: nat, b: nat)
    requires i < b < |log| && !Summarise(init, log[..b]).flagOn && !log[i].Removed?
    requires Summarise(init, log[..i]).flagOn || SavedWithin(log, i, b)
    ensures RemovedWithin(log, i, b)
  {
    var n := i;
    if !Summarise(init, log[..i]).flagOn {
      var k: nat :| i < k < b && log[k].Saved?;
      assert Front(log[..k + 1]) == log[..k];
      n := k + 1;
    }
    assert log[..b][..n] == log[..n];
    var r := RemovalSince(init, log[..b], n);
    assert log[r].Removed?;
  }

  lemma RemovedOnlyIf(init: bool, log: Log, i: nat, b: nat)
    requires Lawful(init, log) && i < b < |log| && !log[i].Saved?
    requires RemovedWithin(log, i, b) && !Summarise(init, log[..i]).flagOn
    ensures SavedWithin(log, i, b)
  {
    var r: nat :| i < r < b && log[r].Removed?;
    LawfulAt(init, log, r);
    assert log[..r][..i] == log[..i];
    var k := SaveSince(init, log[..r], i);
    assert log[k].Saved?;
  }

  /** Where no flag is on disk, a flag was removed after entry `i` exactly when one was on disk then
    or was written later. */
  lemma RemovedExactly(init: bool, log: Log, i: nat, b: nat)
    requires Lawful(init, log) && i < b < |log| && !Summarise(init, log[..b]).flagOn
    requires !log[i].Removed? && !log[i].Saved?
    ensures RemovedWithin(log, i, b) <==> Summarise(init, log[..i]).flagOn || SavedWithin(log, i, b)
  {
    if Summarise(init, log[..i]).flagOn || SavedWithin(log, i, b) {
      RemovedIf(init, log, i, b);
    } else if RemovedWithin(log, i, b) {
      RemovedOnlyIf(init, log, i, b);
    }
  }

  /** Between two reboot commands, before a start at which no flag is on disk, a flag was removed
    exactly when one was on disk as the first command was sent or one was written after it.  (A
    flag that is there but cannot be read is the other way to a second command.) */
  lemma RemovedBetweenExactly(file: FlagFile, events: seq<Event>, i: nat, j: nat) returns (b: nat)
    requires var log := Run(file, events).dev.log; i < j < |log| && log[i].Commanded? && log[j].Commanded?
    ensures
      var log, init := Run(file, events).dev.log, file.Good?;
      && LifetimeStart(log, b, j) && !log[b].found && i < b
      && (Summarise(init, log[..b]).flagOn ==> !log[b].readOk)
      && (!Summarise(init, log[..b]).flagOn ==>
            (RemovedWithin(log, i, b) <==> Summarise(init, log[..i]).flagOn || SavedWithin(log, i, b)))
  {
    b := OneCommandPerLifetime(file, events, j);
    RunInvariant(file, events);
    var log, init := Run(file, events).dev.log, file.Good?;
    LawfulAt(init, log, b);
    if !Summarise(init, log[..b]).flagOn {
      RemovedExactly(init, log, i, b);
    }
  }

  /** A command is only sent when its flag was just written, by a tick at time `at` whose own probe
    `p` saw the Pi reachable without internet, and when a probe `v` of the same lifetime, at least
    15 s earlier, saw the same and no probe since has seen anything else. */
  lemma CommandJustified(file: FlagFile, events: seq<Event>, j: nat) returns (v: nat, p: nat, s: nat)
    requires var log := Run(file, events).dev.log; j < |log| && log[j].Commanded?
    ensures
      var log := Run(file, events).dev.log;
      && WrittenFor(log, s, j)
      && v <= p < j && log[p] == Probed(Offline(log[j].at))
      && (forall k :: p < k < j ==> !log[k].Probed?)
      && log[v].Probed? && log[v].sight.Offline? && log[j].at - log[v].sight.at >= NO_INTERNET_WINDOW
      && forall k :: v <= k < j ==> !log[k].Booted? && (log[k].Probed? ==> log[k].sight.Offline?)
  {
    RunInvariant(file, events);
    var log, init := Run(file, events).dev.log, file.Good?;
    s := CommandWritten(init, log, j);
    LawfulAt(init, log, j);
    v := WindowMeaning(init, log[..j]);
    p := LatestProbe(init, log[..j]);
    assert forall k :: 0 <= k < j ==> log[..j][k] == log[k];
  }

  /** A lifetime re-runs the tethering setup at most once. */
  lemma OneTetheringPerLifetime(file: FlagFile, events: seq<Event>, i: nat, j: nat) returns (b: nat)
    requires var log := Run(file, events).dev.log; i < j < |log| && log[i].Tethered? && log[j].Tethered?
    ensures var log := Run(file, events).dev.log; b < |log| && i < b < j && log[b].Booted?
  {
    RunInvariant(file, events);
    var log, init := Run(file, events).dev.log, file.Good?;
    LawfulAt(init, log, j);
    b := StartBetween(init, log[..j], i);
    assert log[b] == log[..j][b];
  }

  /** The tethering setup is only re-run right after a waiting tick that reached the Pi, in a
    lifetime in which an earlier one did not, or the reboot command was not delivered. */
  lemma TetheringJustified(file: FlagFile, events: seq<Event>, j: nat) returns (d: nat)
    requires var log := Run(file, events).dev.log; j < |log| && log[j].Tethered?
    ensures
      var log := Run(file, events).dev.log;
      && d < j && IsReason(log[d])
      && (forall k :: d < k < j ==> !log[k].Booted?)
      && log[j - 1] == Awaited(true)
  {
    RunInvariant(file, events);
    var log, init := Run(file, events).dev.log, file.Good?;
    LawfulAt(init, log, j);
    d := ReasonBefore(init, log[..j]);
    assert forall k :: 0 <= k < j ==> log[..j][k] == log[k];
    assert Last(log[..j]) == Awaited(true);
  }

  lemma {:induction false} ReasonBefore(init: bool, log: Log) returns (d: nat)
    requires Summarise(init, log).reason
    ensures d < |log| && IsReason(log[d])
    ensures forall k :: d < k < |log| ==> !log[k].Booted?
    decreases |log|
  {
    if IsReason(Last(log)) {
      d := |log| - 1;
    } else {
      d := ReasonBefore(init, Front(log));
    }
  }

  lemma {:induction false} StartBetween(init: bool, log: Log, i: nat) returns (b: nat)
    requires i < |log| && log[i].Tethered? && !Summarise(init, log).tethered
    ensures i < b < |log| && log[b].Booted?
    decreases |log|
  {
    if Last(log).Booted? {
      b := |log| - 1;
    } else {
      b := StartBetween(init, Front(log), i);
    }
  }

  // ----- When exactly the manager acts -----

  /** Entry `k` belongs to the current lifetime and is not its start. */
  ghost predicate ThisLife(log: Log, k: nat) { k < |log| && forall i :: k <= i < |log| ==> !log[i].Booted? }

  /** Entry `b` is the latest start. */
  ghost predicate LatestStart(log: Log, b: nat) {
    b < |log| && log[b].Booted? && forall k :: b < k < |log| ==> !log[k].Booted?
  }

  ghost predicate StartFoundNone(log: Log) { exists b: nat :: LatestStart(log, b) && !log[b].found }

  ghost predicate HasSent(log: Log) { exists k: nat :: ThisLife(log, k) && log[k].Commanded? }

  ghost predicate HasReason(log: Log) { exists d: nat :: ThisLife(log, d) && IsReason(log[d]) }

  /** A waiting tick reached the Pi after there was a reason. */
  ghost predicate HasReached(log: Log) {
    exists e: nat :: ThisLife(log, e) && log[e] == Awaited(true) && HasReason(log[..e])
  }

  /** Entry `u` saw the Pi offline, and so has every probe since. */
  ghost predicate OfflineSince(log: Log, u: nat) {
    ThisLife(log, u) && log[u].Probed? && forall k :: u <= k < |log| && log[k].Probed? ==> log[k].sight.Offline?
  }

  /** The first such probe. */
  ghost predicate OpensWindow(log: Log, v: nat) {
    OfflineSince(log, v) && forall u: nat :: OfflineSince(log, u) ==> v <= u
  }

  /** What holds of the current lifetime, entry by entry. */
  lemma ThisLifeFront(log: Log)
    requires log != []
    ensures Last(log).Booted? ==> forall k: nat :: !ThisLife(log, k)
    ensures !Last(log).Booted? ==> forall k: nat :: ThisLife(log, k) <==> k == |log| - 1 || ThisLife(Front(log), k)
  {
    forall k: nat
      ensures Last(log).Booted? ==> !ThisLife(log, k)
      ensures !Last(log).Booted? ==> (ThisLife(log, k) <==> k == |log| - 1 || ThisLife(Front(log), k))
    {
      if Last(log).Booted? && k < |log| {
        assert log[|log| - 1].Booted?;
      }
    }
  }

  lemma {:induction false} SentMeaning(init: bool, log: Log)
    ensures Summarise(init, log).sent <==> HasSent(log)
    decreases |log|
  {
    if log != [] {
      SentMeaning(init, Front(log));
      ThisLifeFront(log);
    }
  }

  lemma {:induction false} ReasonMeaning(init: bool, log: Log)
    ensures Summarise(init, log).reason <==> HasReason(log)
    decreases |log|
  {
    if log != [] {
      ReasonMeaning(init, Front(log));
      ThisLifeFront(log);
    }
  }

  lemma {:induction false} FiredMeaning(init: bool, log: Log)
    ensures Summarise(init, log).fired <==> HasReached(log)
    decreases |log|
  {
    if log != [] {
      var front := Front(log);
      FiredMeaning(init, front);
      ReasonMeaning(init, front);
      ThisLifeFront(log);
      assert forall e: nat :: e <= |front| ==> log[..e] == front[..e];
      assert front[..|front|] == front;
    }
  }

  lemma LatestStartFront(log: Log, b: nat)
    requires log != []
    ensures LatestStart(log, b) <==> if Last(log).Booted? then b == |log| - 1 else LatestStart(Front(log), b)
  {
    if LatestStart(log, b) && b < |log| - 1 {
      assert !log[|log| - 1].Booted?;
    }
  }

  lemma {:induction false} FoundNoneMeaning(init: bool, log: Log)
    ensures Summarise(init, log).found == Some(false) <==> StartFoundNone(log)
    decreases |log|
  {
    if log != [] {
      FoundNoneMeaning(init, Front(log));
      forall b: nat
        ensures LatestStart(log, b) <==> if Last(log).Booted? then b == |log| - 1 else LatestStart(Front(log), b)
      {
        LatestStartFront(log, b);
      }
    }
  }

  lemma {:induction false} NoWindow(init: bool, log: Log, u: nat)
    requires Summarise(init, log).window.None?
    ensures !OfflineSince(log, u)
    decreases |log|
  {
    if log != [] && !Last(log).Booted? && !Last(log).Probed? && u < |log| - 1 {
      NoWindow(init, Front(log), u);
      assert OfflineSince(log, u) ==> OfflineSince(Front(log), u);
    }
  }

  lemma {:induction false} WindowOpened(init: bool, log: Log) returns (v: nat)
    requires Summarise(init, log).window.Some?
    ensures OpensWindow(log, v) && log[v].sight.at == Summarise(init, log).window.value
    decreases |log|
  {
    var front := Front(log);
    if Last(log).Probed? && Summarise(init, front).window.None? {
      v := |log| - 1;
      forall u: nat | OfflineSince(log, u)
        ensures v <= u
      {
        if u < v {
          assert OfflineSince(front, u);
          NoWindow(init, front, u);
        }
      }
    } else {
      v := WindowOpened(init, front);
      forall u: nat | OfflineSince(log, u)
        ensures v <= u
      {
        if u < |log| - 1 {
          assert OfflineSince(front, u);
        }
      }
    }
  }

  /** The probes have been offline for 15 s at time `now`. */
  ghost predicate OfflineForLong(log: Log, now: int) {
    exists v: nat :: OpensWindow(log, v) && now - log[v].sight.at >= 15_000_000_000
  }

  lemma WindowMatters(init: bool, log: Log, now: int)
    ensures OfflineForLong(log, now) <==>
            var window := Summarise(init, log).window; window.Some? && now - window.value >= 15_000_000_000
  {
    if Summarise(init, log).window.Some? {
      var v := WindowOpened(init, log);
      assert OfflineForLong(log, now) ==> exists u: nat :: OpensWindow(log, u) && now - log[u].sight.at >= 15_000_000_000 && u == v;
    } else if OfflineForLong(log, now) {
      var v: nat :| OpensWindow(log, v) && now - log[v].sight.at >= 15_000_000_000;
      NoWindow(init, log, v);
    }
  }

  /** In every history, a tick begins a reboot exactly when this lifetime started without finding a
    flag and has sent no command, the active profile has a key, the Pi is reachable without
    internet, the probes have seen nothing else for 15 s, and the flag can be written. */
  lemma RebootExactly(file: FlagFile, events: seq<Event>, t: Tick)
    requires var w := Run(file, events); w.Up? && w.stage.Quiet? && w.mem.phase.Idle?
    ensures
      var w := Run(file, events);
      var w' := Step(w, TickEvent(t));
      w'.Up? &&
      (w'.stage.AfterSave? <==>
         && StartFoundNone(w.dev.log) && !HasSent(w.dev.log)
         && t.active.Some? && t.active.value != "" && t.key && t.reachable && !t.internet && t.saveOk
         && OfflineForLong(w.dev.log, t.now))
  {
    RunInvariant(file, events);
    var w, init := Run(file, events), file.Good?;
    SentMeaning(init, w.dev.log);
    FoundNoneMeaning(init, w.dev.log);
    WindowMatters(init, w.dev.log, t.now);
  }

  /** An idle tick leaves everything as it is exactly when the lifetime's reboot is used up, or there
    is no active profile with a key: no probe, and above all no reboot of an unknown Pi. */
  lemma IdleTickSkips(w: World, t: Tick)
    requires w.Up? && w.stage.Quiet? && w.mem.phase.Idle?
    ensures Step(w, TickEvent(t)) == w <==>
            w.mem.rebootIssued || t.active.None? || t.active.value == "" || !t.key
  {
    var log' := Step(w, TickEvent(t)).dev.log;
    if !(w.mem.rebootIssued || t.active.None? || t.active.value == "" || !t.key) {
      assert |log'| > |w.dev.log|;
    }
  }

  /** The tick behind a command: it had the profile's key and saw that Pi offline at that time. */
  ghost predicate TickFor(file: FlagFile, events: seq<Event>, k: nat, profile: string, at: int) {
    && k < |events| && events[k].TickEvent?
    && var t := events[k].tick;
    && t.active == Some(profile) && profile != "" && t.key && t.reachable && !t.internet && t.saveOk && t.now == at
    && Run(file, events[..k]).Up? && Run(file, events[..k]).stage.Quiet? && Run(file, events[..k]).mem.phase.Idle?
  }

  lemma TickForLonger(file: FlagFile, events: seq<Event>, k: nat, profile: string, at: int)
    requires events != [] && TickFor(file, events[..|events| - 1], k, profile, at)
    ensures TickFor(file, events, k, profile, at)
  {
    assert events[..|events| - 1][..k] == events[..k];
  }

  lemma {:induction false} StageCause(file: FlagFile, events: seq<Event>) returns (k: nat)
    requires var w := Run(file, events); w.Up? && w.stage.AfterSave?
    ensures TickFor(file, events, k, Run(file, events).stage.profile, Run(file, events).stage.now)
    decreases |events|
  {
    var front, e := events[..|events| - 1], events[|events| - 1];
    var w := Run(file, front);
    if w.Up? && w.stage.AfterSave? {
      k := StageCause(file, front);
      TickForLonger(file, events, k, w.stage.profile, w.stage.now);
    } else {
      RunInvariant(file, front);
      k := |events| - 1;
      assert w.Up? && e.TickEvent?;
    }
  }

  lemma StepGrows(w: World, e: Event)
    ensures w.dev.log <= Step(w, e).dev.log
    ensures forall j :: |w.dev.log| <= j < |Step(w, e).dev.log| && Step(w, e).dev.log[j].Commanded? ==>
              && e.Send? && w.Up? && w.stage.AfterSave?
              && Step(w, e).dev.log[j] == Commanded(w.stage.profile, w.stage.now, e.sshOk)
  {
  }

  /** Every command was sent by an event of the history, under a tick that had the key of that
    command's profile as the active one and saw that Pi reachable without internet at that time. */
  lemma {:induction false} CommandCause(file: FlagFile, events: seq<Event>, j: nat) returns (k: nat, m: nat)
    requires j < |Run(file, events).dev.log| && Run(file, events).dev.log[j].Commanded?
    ensures
      var c := Run(file, events).dev.log[j];
      && TickFor(file, events, k, c.profile, c.at)
      && k < m < |events| && events[m] == Send(c.delivered) && |Run(file, events[..m]).dev.log| == j
    decreases |events|
  {
    var front, e := events[..|events| - 1], events[|events| - 1];
    var w := Run(file, front);
    StepGrows(w, e);
    if j < |w.dev.log| {
      k, m := CommandCause(file, front, j);
      var c := w.dev.log[j];
      TickForLonger(file, events, k, c.profile, c.at);
      assert front[..m] == events[..m];
    } else {
      k := StageCause(file, front);
      m := |events| - 1;
      TickForLonger(file, events, k, w.stage.profile, w.stage.now);
    }
  }

  /** In every history, a tick re-runs the tethering setup exactly when it waits on without internet,
    reaches the Pi, can do so, there was a reason in this lifetime, and no waiting tick has reached
    the Pi since. */
  lemma TetheringExactly(file: FlagFile, events: seq<Event>, t: Tick)
    requires var w := Run(file, events); w.Up? && w.stage.Quiet? && w.mem.phase.Waiting?
    ensures
      var w := Run(file, events);
      var log' := Step(w, TickEvent(t)).dev.log;
      (exists k: nat :: |w.dev.log| <= k < |log'| && log'[k].Tethered?) <==>
        && !t.internet && t.now <= w.mem.flagStartedAt + 600_000_000_000
        && t.reachable && t.canTether && HasReason(w.dev.log) && !HasReached(w.dev.log)
  {
    RunInvariant(file, events);
    var w, init := Run(file, events), file.Good?;
    ReasonMeaning(init, w.dev.log);
    FiredMeaning(init, w.dev.log);
    var log' := Step(w, TickEvent(t)).dev.log;
    if log' == w.dev.log + [Awaited(t.reachable)] + [Tethered] {
      assert log'[|w.dev.log| + 1].Tethered?;
    }
  }

  // ----- Deletions between ticks -----

  /** No half of a deletion comes in the middle of anything else. */
  ghost predicate Atomic(events: seq<Event>) {
    forall k :: 0 <= k < |events| ==> !events[k].RemoveFile? && !events[k].ForgetMemory?
  }

  /** Every command directly follows the write of its flag. */
  predicate SaveFirst(log: Log) {
    log == [] ||
    (SaveFirst(Front(log)) &&
     (Last(log).Commanded? ==> Front(log) != [] && Last(Front(log)) == Saved(Last(log).profile, Last(log).at)))
  }

  ghost predicate FlagKnown(init: bool, w: World)
    requires w.Up?
  {
    match w.stage
    case Quiet =>
      && (w.mem.phase.Waiting? ==> SameFlag(w.dev.file, w.mem))
      && (w.mem.phase.Waiting? <==> w.dev.file.Good? && !Summarise(init, w.dev.log).removeFailed)
    case AfterSave(profile, now) =>
      && w.dev.file == Good(Seconds(now), profile) && w.dev.log != [] && Last(w.dev.log) == Saved(profile, now)
      && !Summarise(init, w.dev.log).removeFailed
    case AfterSend(profile, now) =>
      w.dev.file == Good(Seconds(now), profile) && !Summarise(init, w.dev.log).removeFailed
  }

  ghost predicate AtomicInvariant(init: bool, w: World) {
    Invariant(init, w) && SaveFirst(w.dev.log) && (w.Up? ==> FlagKnown(init, w))
  }

  lemma SaveFirstAppend(log: Log, o: Obs)
    requires SaveFirst(log)
    requires o.Commanded? ==> log != [] && Last(log) == Saved(o.profile, o.at)
    ensures SaveFirst(log + [o])
  {
    assert Front(log + [o]) == log && Last(log + [o]) == o;
  }

  lemma SaveFirstClear(d: Dev, removeOk: bool)
    requires SaveFirst(d.log)
    ensures SaveFirst(ClearFlag(d, removeOk).log)
  {
    SaveFirstAppend(d.log, Removed);
    SaveFirstAppend(d.log, RemoveFailed);
  }

  lemma AtomicBoot(init: bool, dev: Dev, now: int, active: Option<string>, readOk: bool, removeOk: bool)
    requires InStep(init, dev) && SaveFirst(dev.log)
    ensures
      var (m, d) := BootCheck(dev, now, active, readOk, removeOk);
      SaveFirst(d.log) && FlagKnown(init, Up(d, m, Quiet))
  {
    var noted := Note(dev, BootEntry(dev, readOk));
    BootNoted(init, dev, readOk);
    BootCases(dev, now, active, readOk, removeOk);
    SaveFirstAppend(dev.log, BootEntry(dev, readOk));
    SaveFirstClear(noted, removeOk);
    ClearInvariant(init, noted, removeOk);
  }

  lemma AtomicIdle(init: bool, w: World, t: Tick)
    requires AtomicInvariant(init, w) && w.Up? && w.stage.Quiet? && w.mem.phase.Idle?
    ensures SaveFirst(BeginTick(w, t).dev.log) && FlagKnown(init, BeginTick(w, t))
  {
    var log := w.dev.log;
    var probed := log + [Probed(Look(t))];
    Append(init, log, Probed(Look(t)));
    SaveFirstAppend(log, Probed(Look(t)));
    if t.active.Some? {
      SaveFirstAppend(probed, Saved(t.active.value, t.now));
      assert Last(probed + [Saved(t.active.value, t.now)]) == Saved(t.active.value, t.now);
    }
  }

  lemma AtomicGiveUp(init: bool, w: World, t: Tick)
    requires AtomicInvariant(init, w) && w.Up? && w.stage.Quiet? && w.mem.phase.Waiting? && EndsWait(w.mem, t)
    ensures SaveFirst(BeginTick(w, t).dev.log) && FlagKnown(init, BeginTick(w, t))
  {
    assert BeginTick(w, t).dev == ClearFlag(w.dev, t.removeOk) && !BeginTick(w, t).mem.phase.Waiting?;
    SaveFirstClear(w.dev, t.removeOk);
    ClearInvariant(init, w.dev, t.removeOk);
  }

  lemma AtomicWait(init: bool, w: World, t: Tick)
    requires AtomicInvariant(init, w) && w.Up? && w.stage.Quiet? && w.mem.phase.Waiting? && !EndsWait(w.mem, t)
    ensures SaveFirst(BeginTick(w, t).dev.log) && FlagKnown(init, BeginTick(w, t))
  {
    var waited := w.dev.log + [Awaited(t.reachable)];
    Append(init, w.dev.log, Awaited(t.reachable));
    SaveFirstAppend(w.dev.log, Awaited(t.reachable));
    assert Summarise(init, waited).removeFailed == Summarise(init, w.dev.log).removeFailed;
    Append(init, waited, Tethered);
    SaveFirstAppend(waited, Tethered);
  }

  lemma AtomicSend(init: bool, w: World, e: Event)
    requires AtomicInvariant(init, w) && w.Up? && (e.Send? || e.Finish?)
    ensures SaveFirst(Step(w, e).dev.log) && FlagKnown(init, Step(w, e))
  {
    if e.Send? && w.stage.AfterSave? {
      Append(init, w.dev.log, Commanded(w.stage.profile, w.stage.now, e.sshOk));
      SaveFirstAppend(w.dev.log, Commanded(w.stage.profile, w.stage.now, e.sshOk));
    }
  }

  lemma AtomicDelete(init: bool, w: World, e: Event)
    requires AtomicInvariant(init, w) && w.Up? && e.Delete?
    ensures SaveFirst(Step(w, e).dev.log) && FlagKnown(init, Step(w, e))
  {
    SaveFirstClear(w.dev, e.removeOk);
    ClearInvariant(init, w.dev, e.removeOk);
  }

  lemma {:induction false} AtomicRun(file: FlagFile, events: seq<Event>)
    requires Atomic(events)
    ensures AtomicInvariant(file.Good?, Run(file, events))
  {
    RunInvariant(file, events);
    if events != [] {
      var front, e := events[..|events| - 1], events[|events| - 1];
      AtomicRun(file, front);
      var w := Run(file, front);
      if w.Down? {
        if e.Boot? { AtomicBoot(file.Good?, w.dev, e.now, e.active, e.readOk, e.removeOk); }
      } else if e.TickEvent? {
        if w.stage.Quiet? {
          if w.mem.phase.Idle? {
            AtomicIdle(file.Good?, w, e.tick);
          } else if EndsWait(w.mem, e.tick) {
            AtomicGiveUp(file.Good?, w, e.tick);
          } else {
            AtomicWait(file.Good?, w, e.tick);
          }
        }
      } else if e.Send? || e.Finish? {
        AtomicSend(file.Good?, w, e);
      } else if e.Delete? {
        AtomicDelete(file.Good?, w, e);
      }
    }
  }

  lemma {:induction false} SaveFirstAt(log: Log, j: nat)
    requires SaveFirst(log) && j < |log| && log[j].Commanded?
    ensures j > 0 && log[j - 1] == Saved(log[j].profile, log[j].at)
    decreases |log|
  {
    if j < |log| - 1 {
      SaveFirstAt(Front(log), j);
    }
  }

  /** With deletions between ticks the flag is on disk when the command is sent, for that profile
    and that tick's time. */
  lemma FlagOnDiskWhenSending(file: FlagFile, events: seq<Event>, sshOk: bool)
    requires Atomic(events)
    requires var w := Run(file, events); w.Up? && w.stage.AfterSave?
    ensures
      var w := Run(file, events);
      && w.dev.file == Good(Seconds(w.stage.now), w.stage.profile)
      && Last(Step(w, Send(sshOk)).dev.log) == Commanded(w.stage.profile, w.stage.now, sshOk)
      && Step(w, Send(sshOk)).dev.file == w.dev.file
  {
    AtomicRun(file, events);
  }

  lemma AtomicFlagOn(file: FlagFile, events: seq<Event>, i: nat)
    requires Atomic(events)
    requires var log := Run(file, events).dev.log; i < |log| && log[i].Commanded?
    ensures Summarise(file.Good?, Run(file, events).dev.log[..i]).flagOn
  {
    AtomicRun(file, events);
    var log := Run(file, events).dev.log;
    SaveFirstAt(log, i);
    assert Front(log[..i]) == log[..i - 1] && Last(log[..i]) == log[i - 1];
  }

  /** In particular when the flag was still on disk as the first of two commands was sent, as it
    always is with deletions between ticks. */
  lemma RemovedBetweenCommands(file: FlagFile, events: seq<Event>, i: nat, j: nat)
      returns (r: nat, b: nat)
    requires var log := Run(file, events).dev.log; i < j < |log| && log[i].Commanded? && log[j].Commanded?
    requires Atomic(events) || Summarise(file.Good?, Run(file, events).dev.log[..i]).flagOn
    ensures
      var log := Run(file, events).dev.log;
      && LifetimeStart(log, b, j) && !log[b].found && i < b
      && (log[b].readOk ==> i < r < b && log[r].Removed?)
  {
    if Atomic(events) {
      AtomicFlagOn(file, events, i);
    }
    b := RemovedBetweenExactly(file, events, i, j);
    var log := Run(file, events).dev.log;
    r := 0;
    if log[b].readOk {
      r :| i < r < b && log[r].Removed?;
    }
  }

  /** With deletions between ticks, the manager between ticks waits exactly when a flag is on disk
    that it has not failed to remove in this lifetime; and it waits for the flag that is there. */
  lemma WaitsForFlag(file: FlagFile, events: seq<Event>)
    requires Atomic(events)
    requires var w := Run(file, events); w.Up? && w.stage.Quiet?
    ensures
      var w := Run(file, events);
      && (w.mem.phase.Waiting? <==> w.dev.file.Good? && !Summarise(file.Good?, w.dev.log).removeFailed)
      && (w.mem.phase.Waiting? ==> SameFlag(w.dev.file, w.mem))
  {
    AtomicRun(file, events);
  }

  /** No wait outlasts ten minutes, nor a tick that sees the internet. */
  lemma WaitEnds(w: World, t: Tick)
    requires w.Up? && w.stage.Quiet? && w.mem.phase.Waiting?
    ensures
      var w' := Step(w, TickEvent(t));
      w'.Up? && (w'.mem.phase.Waiting? <==> !t.internet && t.now <= w.mem.flagStartedAt + 600_000_000_000)
  {
  }

  lemma RunPrefix(file: FlagFile, events: seq<Event>, k: nat)
    requires k < |events|
    ensures Run(file, events[..k + 1]) == Step(Run(file, events[..k]), events[k])
  {
    assert events[..k + 1][..k] == events[..k];
  }

  /** A start that resumes, and a tick that sees the internet but cannot remove the flag. */
  function FailedRemoval(profile: string, now: int): seq<Event> {
    [Boot(now, Some(profile), true, true), TickEvent(Tick(now, Some(profile), true, true, true, true, false, true))]
  }

  /** The exception is needed: from every flag that a start resumes from, two events lead to a
    flag on disk for which nobody waits. */
  lemma FailedRemovalLingers(startedAt: int, profile: string, now: int)
    requires Resumes(Good(startedAt, profile), now, Some(profile))
    ensures
      var file, events := Good(startedAt, profile), FailedRemoval(profile, now);
      && Run(file, events[..1]).Up? && Run(file, events[..1]).mem.phase.Waiting?
      && Run(file, events).Up? && Run(file, events).stage.Quiet? && Run(file, events).mem.phase.Idle?
      && Run(file, events).dev == Dev(file, [Booted(true, true), RemoveFailed])
  {
    var file, events := Good(startedAt, profile), FailedRemoval(profile, now);
    RunPrefix(file, events, 0);
    RunPrefix(file, events, 1);
    assert events[..0] == [] && events[..2] == events;
    assert Run(file, events[..1]).dev == Dev(file, [Booted(true, true)]);
  }

  // ----- Second commands without a removal in between -----

  function OfflineTick(profile: string, now: int): Event {
    TickEvent(Tick(now, Some(profile), true, true, false, true, true, true))
  }

  const AT := NO_INTERNET_WINDOW

  /** What the two ticks below add to the log. */
  function UpToSave(profile: string): Log { [Probed(Offline(0)), Probed(Offline(AT)), Saved(profile, AT)] }

  lemma AddUpToSave(log: Log, profile: string)
    ensures log + [Probed(Offline(0))] + [Probed(Offline(AT))] + [Saved(profile, AT)] == log + UpToSave(profile)
  {
  }

  /** Two ticks without internet, 15 s apart, write the flag. */
  lemma TwoTicks(file: FlagFile, events: seq<Event>, k: nat, d: Dev, profile: string)
    requires k + 2 <= |events| && profile != "" && Run(file, events[..k]) == Up(d, FRESH, Quiet)
    requires events[k] == OfflineTick(profile, 0) && events[k + 1] == OfflineTick(profile, AT)
    ensures
      var w := Run(file, events[..k + 2]);
      w.Up? && w.stage == AfterSave(profile, AT) && w.dev == Dev(Good(AT, profile), d.log + UpToSave(profile))
  {
    RunPrefix(file, events, k);
    RunPrefix(file, events, k + 1);
    var w1 := Up(Note(d, Probed(Offline(0))), FRESH.(noInternetSince := Some(0)), Quiet);
    assert Run(file, events[..k + 1]) == w1;
    AddUpToSave(d.log, profile);
  }

  const PI1 := "pi-1"
  const PI2 := "pi-2"

  /** The first profile is deleted, key and all, between the write of its flag and the command,
    which therefore does not get through; after a restart another profile is active. */
  const TWO_LIVES: seq<Event> :=
    [Boot(0, Some(PI1), true, true), OfflineTick(PI1, 0), OfflineTick(PI1, AT), RemoveFile(true), Send(false), Crash,
     Boot(0, Some(PI2), true, true), OfflineTick(PI2, 0), OfflineTick(PI2, AT), Send(true)]

  const FIRST_LIFE_LOG: Log := [Booted(false, true)] + UpToSave(PI1) + [Removed, Commanded(PI1, AT, false)]

  const TWO_LIVES_LOG: Log :=
    FIRST_LIFE_LOG + [Booted(false, true)] + UpToSave(PI2) + [Commanded(PI2, AT, true)]

  lemma FirstLife()
    ensures Run(Absent, TWO_LIVES[..6]) == Down(Dev(Absent, FIRST_LIFE_LOG))
  {
    RunPrefix(Absent, TWO_LIVES, 0);
    TwoTicks(Absent, TWO_LIVES, 1, Dev(Absent, [Booted(false, true)]), PI1);
    RunPrefix(Absent, TWO_LIVES, 3);
    RunPrefix(Absent, TWO_LIVES, 4);
    RunPrefix(Absent, TWO_LIVES, 5);
  }

  /** A deletion in the middle of a reboot takes the flag away before the command it was written
    for, and the next lifetime reboots again although no flag was removed between the commands. */
  lemma MidRebootDeletion()
    ensures Run(Absent, TWO_LIVES).dev.log == TWO_LIVES_LOG
    ensures TWO_LIVES_LOG[5].Commanded? && TWO_LIVES_LOG[10].Commanded?
    ensures forall k :: 5 < k < 10 ==> !TWO_LIVES_LOG[k].Removed?
  {
    FirstLife();
    RunPrefix(Absent, TWO_LIVES, 6);
    TwoTicks(Absent, TWO_LIVES, 7, Dev(Absent, FIRST_LIFE_LOG + [Booted(false, true)]), PI2);
    RunPrefix(Absent, TWO_LIVES, 9);
    assert TWO_LIVES[..10] == TWO_LIVES;
  }

  /** The second start can neither read the flag nor remove it. */
  const UNREAD: seq<Event> :=
    [Boot(0, Some(PI1), true, true), OfflineTick(PI1, 0), OfflineTick(PI1, AT), Send(true), Crash,
     Boot(0, Some(PI1), false, false), OfflineTick(PI1, 0), OfflineTick(PI1, AT), Send(true)]

  const ONE_LIFE_LOG: Log := [Booted(false, true)] + UpToSave(PI1) + [Commanded(PI1, AT, true)]

  const UNREAD_LOG: Log :=
    ONE_LIFE_LOG + [Booted(false, false), RemoveFailed] + UpToSave(PI1) + [Commanded(PI1, AT, true)]

  lemma OneLife()
    ensures Run(Absent, UNREAD[..5]) == Down(Dev(Good(AT, PI1), ONE_LIFE_LOG))
  {
    RunPrefix(Absent, UNREAD, 0);
    TwoTicks(Absent, UNREAD, 1, Dev(Absent, [Booted(false, true)]), PI1);
    RunPrefix(Absent, UNREAD, 3);
    RunPrefix(Absent, UNREAD, 4);
  }

  /** A start that cannot read the flag takes it for a corrupt one, which does not use up the
    lifetime's reboot: the Pi is rebooted twice, with the first flag on disk all along. */
  lemma UnreadFlag()
    ensures Run(Absent, UNREAD).dev.log == UNREAD_LOG
    ensures UNREAD_LOG[4].Commanded? && UNREAD_LOG[10].Commanded?
    ensures forall k :: 0 <= k < |UNREAD_LOG| ==> !UNREAD_LOG[k].Removed?
  {
    OneLife();
    RunPrefix(Absent, UNREAD, 5);
    var log := ONE_LIFE_LOG + [Booted(false, false), RemoveFailed];
    assert ONE_LIFE_LOG + [Booted(false, false)] + [RemoveFailed] == log;
    TwoTicks(Absent, UNREAD, 6, Dev(Good(AT, PI1), log), PI1);
    RunPrefix(Absent, UNREAD, 8);
    assert UNREAD[..9] == UNREAD;
  }
}
