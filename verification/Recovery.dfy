/** The reboot-once manager for a Raspberry Pi without internet (daemon/recovery.go).

  `PiRecovery` is one daemon lifetime: its fields are lost when the daemon stops.  `Device` is
  what outlives it: the flag file, and the log of what the manager observed and did.  Every method
  is proved against a function on values; RecoveryHistories runs those functions through whole
  histories with crashes.  Times are in nanoseconds.
 */
module Recovery {
  import opened Options

  const SECOND: int := 1_000_000_000
  const NO_INTERNET_WINDOW: int := 15 * SECOND
  const PATIENCE: int := 600 * SECOND

  /** The flag file: `Unusable` cannot be read or parsed, `Blank` lacks a field, `BadTime` has an
    unreadable time; the profiles of the last two are not blank. */
  datatype FlagFile = Absent | Unusable | Blank | BadTime(profile: string) | Good(startedAt: int, profile: string)

  datatype Sight = Unreachable | Online | Offline(at: int)

  datatype Obs =
    | Booted(found: bool, readOk: bool)     // a daemon start, whether it found a good flag and could read
    | Probed(sight: Sight)                  // an idle tick that looked
    | Saved(profile: string, at: int)       // the flag was written
    | Commanded(profile: string, at: int, delivered: bool)   // the reboot command was sent
    | Removed                               // a good flag was removed
    | RemoveFailed                          // a good flag could not be removed
    | Awaited(reachable: bool)              // a tick of the waiting phase that goes on waiting
    | Tethered                              // the tethering setup was re-run

  datatype Dev = Dev(file: FlagFile, log: seq<Obs>)

  datatype Phase = Idle | Rebooting | Waiting

  datatype Memory = Memory(
    phase: Phase,
    flagStartedAt: int,
    flagProfile: string,
    rebootIssued: bool,
    tetheringFired: bool,
    sawDown: bool,
    rebootFailed: bool,
    noInternetSince: Option<int>)

  const FRESH := Memory(Idle, 0, "", false, false, false, false, None)

  /** What a tick meets: the clock, the active profile and whether its key exists, the two
    probes, and the outcomes of writing and removing the flag. */
  datatype Tick = Tick(
    now: int,
    active: Option<string>,
    key: bool,
    reachable: bool,
    internet: bool,
    saveOk: bool,
    removeOk: bool,
    canTether: bool)

  function Note(d: Dev, o: Obs): Dev { d.(log := d.log + [o]) }

  /** RFC 3339 keeps whole seconds. */
  function Seconds(t: int): (r: int)
    ensures r <= t < r + 1_000_000_000 && r % 1_000_000_000 == 0
  {
    t - t % SECOND
  }

  // ----- The flag file -----

  /** Best effort: the removal may fail. */
  function ClearFlag(d: Dev, removeOk: bool): Dev {
    if d.file.Absent? then d
    else if !removeOk then if d.file.Good? then Note(d, RemoveFailed) else d
    else if d.file.Good? then Note(d.(file := Absent), Removed)
    else d.(file := Absent)
  }

  /** Atomic: either the whole flag is there, or nothing changed. */
  function SaveFlag(d: Dev, now: int, profile: string, saveOk: bool): Dev {
    if saveOk then Note(d.(file := Good(Seconds(now), profile)), Saved(profile, now)) else d
  }

  // ----- Starting -----

  /** A good flag that is recent and belongs to the active profile: a reboot is under way. */
  predicate Resumes(f: FlagFile, now: int, active: Option<string>) {
    f.Good? && now - f.startedAt <= PATIENCE && active.Some? && active.value != "" && active.value == f.profile
  }

  /** Any good flag uses up this lifetime's reboot. */
  function BootMemory(f: FlagFile, now: int, active: Option<string>): Memory {
    if Resumes(f, now, active) then
      FRESH.(phase := Waiting, flagStartedAt := f.startedAt, flagProfile := f.profile, rebootIssued := true)
    else FRESH.(rebootIssued := f.Good?)
  }

  /** A file that cannot be read is treated like one that cannot be parsed. */
  function BootCheck(d: Dev, now: int, active: Option<string>, readOk: bool, removeOk: bool): (Memory, Dev) {
    var seen := if readOk then d.file else Unusable;
    var d1 := Note(d, Booted(seen.Good?, readOk));
    var keeps := seen.Absent? || seen.Blank? || Resumes(seen, now, active);
    (BootMemory(seen, now, active), if keeps then d1 else ClearFlag(d1, removeOk))
  }

  /** The manager starts out waiting exactly for a flag of the active profile that is at most ten
    minutes old.  Any other file that can be loaded or cleared is cleared, if that works, and a
    good one still uses up this lifetime's reboot; one that could not be read does not. */
  lemma BootOutcome(d: Dev, now: int, active: Option<string>, readOk: bool, removeOk: bool)
    requires d.file.Good? ==> d.file.profile != ""
    ensures
      var (m, d') := BootCheck(d, now, active, readOk, removeOk);
      && (m.phase.Waiting? <==>
            readOk && d.file.Good? && active == Some(d.file.profile) && now <= d.file.startedAt + 600_000_000_000)
      && (m.phase.Waiting? ==> d'.file == d.file && m.flagStartedAt == d.file.startedAt)
      && (!m.phase.Waiting? && removeOk && !(readOk && d.file.Blank?) ==> d'.file.Absent?)
      && (m.rebootIssued <==> readOk && d.file.Good?)
  {
  }

  // ----- The idle phase -----

  function Look(t: Tick): Sight {
    if !t.reachable then Unreachable else if t.internet then Online else Offline(t.now)
  }

  /** A tick probes only while no reboot was issued and the active profile has a key. */
  predicate Probes(m: Memory, t: Tick) {
    !m.rebootIssued && t.active.Some? && t.active.value != "" && t.key
  }

  predicate Decides(m: Memory, t: Tick) {
    Probes(m, t) && Look(t).Offline? && m.noInternetSince.Some? && t.now - m.noInternetSince.value >= NO_INTERNET_WINDOW
  }

  function ObserveWindow(since: Option<int>, s: Sight): Option<int> {
    match s
    case Offline(at) => if since.None? then Some(at) else since
    case _ => None
  }

  /** The part of an idle tick before it reboots anything. */
  function IdleObserve(m: Memory, d: Dev, t: Tick): (Memory, Dev) {
    if Probes(m, t) then
      (m.(noInternetSince := ObserveWindow(m.noInternetSince, Look(t))), Note(d, Probed(Look(t))))
    else (m, d)
  }

  /** Sending the command; the flag is already on disk. */
  function SendReboot(m: Memory, d: Dev, profile: string, now: int, sshOk: bool): (Memory, Dev) {
    (m.(phase := Rebooting, rebootFailed := m.rebootFailed || !sshOk), Note(d, Commanded(profile, now, sshOk)))
  }

  function FinishReboot(m: Memory, profile: string, now: int): Memory {
    m.(phase := Waiting, flagStartedAt := now, flagProfile := profile, rebootIssued := true,
       tetheringFired := false, sawDown := false, noInternetSince := None)
  }

  function IssueReboot(m: Memory, d: Dev, profile: string, now: int, saveOk: bool, sshOk: bool): (Memory, Dev) {
    if !saveOk then (m, d)
    else
      var (m1, d1) := SendReboot(m, SaveFlag(d, now, profile, saveOk), profile, now, sshOk);
      (FinishReboot(m1, profile, now), d1)
  }

  function IdleTick(m: Memory, d: Dev, t: Tick, sshOk: bool): (Memory, Dev) {
    var (m1, d1) := IdleObserve(m, d, t);
    if Decides(m, t) then IssueReboot(m1, d1, t.active.value, t.now, t.saveOk, sshOk) else (m1, d1)
  }

  // ----- The waiting phase -----

  function GiveUp(m: Memory, d: Dev, removeOk: bool): (Memory, Dev) {
    (m.(phase := Idle, flagStartedAt := 0), ClearFlag(d, removeOk))
  }

  function WaitTick(m: Memory, d: Dev, t: Tick): (Memory, Dev) {
    if t.now - m.flagStartedAt > PATIENCE || t.internet then GiveUp(m, d, t.removeOk)
    else
      var m1 := m.(sawDown := m.sawDown || !t.reachable);
      var d1 := Note(d, Awaited(t.reachable));
      if !m.tetheringFired && t.reachable && (m1.sawDown || m1.rebootFailed) then
        (m1.(tetheringFired := true), if t.canTether then Note(d1, Tethered) else d1)
      else (m1, d1)
  }

  // ----- Deleting a profile -----

  /** The file has both fields, whether or not the time can be read. */
  predicate HasFields(f: FlagFile) { f.Good? || f.BadTime? }

  function ForgetProfile(m: Memory, profile: string): Memory {
    if m.flagProfile == profile then m.(phase := Idle, flagStartedAt := 0, flagProfile := "") else m
  }

  function ClearFlagForProfile(m: Memory, d: Dev, profile: string, readOk: bool, removeOk: bool): (Memory, Dev) {
    if !readOk || !HasFields(d.file) || d.file.profile != profile then (m, d)
    else (ForgetProfile(m, profile), ClearFlag(d, removeOk))
  }

  /** A deletion removes the file exactly when it can read in it the profile's own flag, and ends a
    wait exactly when that flag is the one waited for. */
  lemma DeletionOutcome(m: Memory, d: Dev, profile: string, readOk: bool, removeOk: bool)
    requires d.file.Good? || d.file.BadTime? ==> d.file.profile != ""
    ensures
      var (m', d') := ClearFlagForProfile(m, d, profile, readOk, removeOk);
      var own := readOk && (exists at :: d.file in {Good(at, profile), BadTime(profile)});
      && (d'.file.Absent? <==> d.file.Absent? || (own && removeOk))
      && (!d'.file.Absent? ==> d'.file == d.file)
      && (m.phase.Waiting? ==> (m'.phase.Waiting? <==> !own || m.flagProfile != profile))
      && (m' == m.(phase := m'.phase, flagStartedAt := m'.flagStartedAt, flagProfile := m'.flagProfile))
  {
    if d.file.Good? {
      assert d.file == Good(d.file.startedAt, d.file.profile);
    }
  }

  // ----- The objects -----

  class Device {
    var file: FlagFile
    var log: seq<Obs>

    function State(): Dev
      reads this
    {
      Dev(file, log)
    }

    method Observe(o: Obs)
      modifies this`log
      ensures State() == Note(old(State()), o)
    {
      log := log + [o];
    }

    method Clear(removeOk: bool)
      modifies this
      ensures State() == ClearFlag(old(State()), removeOk)
    {
      if file.Absent? {
        return;
      }
      var good := file.Good?;
      if removeOk {
        file := Absent;
      }
      if good {
        Observe(if removeOk then Removed else RemoveFailed);
      }
    }

    method Save(now: int, profile: string, saveOk: bool) returns (ok: bool)
      modifies this
      ensures ok == saveOk && State() == SaveFlag(old(State()), now, profile, saveOk)
    {
      if !saveOk {
        return false;
      }
      file := Good(Seconds(now), profile);
      Observe(Saved(profile, now));
      return true;
    }
  }

  class PiRecovery {
    const device: Device
    var phase: Phase
    var flagStartedAt: int
    var flagProfile: string
    var rebootIssued: bool
    var tetheringFired: bool
    var sawDown: bool
    var rebootFailed: bool
    var noInternetSince: Option<int>

    function Mem(): Memory
      reads this
    {
      Memory(phase, flagStartedAt, flagProfile, rebootIssued, tetheringFired, sawDown, rebootFailed, noInternetSince)
    }

    function Both(): (Memory, Dev)
      reads this, device
    {
      (Mem(), device.State())
    }

    constructor (device: Device)
      ensures this.device == device && Mem() == FRESH
    {
      this.device := device;
      phase, flagStartedAt, flagProfile, rebootIssued := Idle, 0, "", false;
      tetheringFired, sawDown, rebootFailed, noInternetSince := false, false, false, None;
    }

    method Start(now: int, active: Option<string>, readOk: bool, removeOk: bool)
      requires Mem() == FRESH
      modifies this, device
      ensures Both() == BootCheck(old(device.State()), now, active, readOk, removeOk)
    {
      var flag := if readOk then device.file else Unusable;
      device.Observe(Booted(flag.Good?, readOk));
      if flag.Unusable? {
        device.Clear(removeOk);
        return;
      }
      if flag.Absent? || flag.Blank? {
        return;
      }
      if flag.BadTime? {
        device.Clear(removeOk);
        return;
      }
      if now - flag.startedAt > PATIENCE {
        device.Clear(removeOk);
        rebootIssued := true;
        return;
      }
      if active.None? || active.value == "" || active.value != flag.profile {
        device.Clear(removeOk);
        rebootIssued := true;
        return;
      }
      phase := Waiting;
      flagStartedAt := flag.startedAt;
      flagProfile := flag.profile;
      rebootIssued := true;
    }

    method TickOnce(t: Tick, sshOk: bool)
      modifies this, device
      ensures Both() == if old(phase).Idle? then IdleTick(old(Mem()), old(device.State()), t, sshOk)
                        else WaitTick(old(Mem()), old(device.State()), t)
    {
      if phase.Waiting? || phase.Rebooting? {
        RunWaitTick(t);
      } else {
        RunIdleTick(t, sshOk);
      }
    }

    method RunIdleTick(t: Tick, sshOk: bool)
      modifies this, device
      ensures Both() == IdleTick(old(Mem()), old(device.State()), t, sshOk)
    {
      if rebootIssued {
        return;
      }
      if t.active.None? {
        return;
      }
      if t.active.value == "" || !t.key {
        return;
      }
      if !t.reachable {
        device.Observe(Probed(Unreachable));
        noInternetSince := None;
        return;
      }
      if t.internet {
        device.Observe(Probed(Online));
        noInternetSince := None;
        return;
      }
      device.Observe(Probed(Offline(t.now)));
      var since := noInternetSince;
      if since.None? {
        noInternetSince := Some(t.now);
        return;
      }
      if t.now - since.value < NO_INTERNET_WINDOW {
        return;
      }
      RunIssueReboot(t.active.value, t.now, t.saveOk, sshOk);
    }

    method RunIssueReboot(profile: string, now: int, saveOk: bool, sshOk: bool)
      modifies this, device
      ensures Both() == IssueReboot(old(Mem()), old(device.State()), profile, now, saveOk, sshOk)
    {
      var ok := device.Save(now, profile, saveOk);
      if !ok {
        return;
      }
      phase := Rebooting;
      device.Observe(Commanded(profile, now, sshOk));
      if !sshOk {
        rebootFailed := true;
      }
      phase := Waiting;
      flagStartedAt := now;
      flagProfile := profile;
      rebootIssued := true;
      tetheringFired := false;
      sawDown := false;
      noInternetSince := None;
    }

    method RunWaitTick(t: Tick)
      modifies this, device
      ensures Both() == WaitTick(old(Mem()), old(device.State()), t)
    {
      if t.now - flagStartedAt > PATIENCE {
        device.Clear(t.removeOk);
        phase := Idle;
        flagStartedAt := 0;
        return;
      }
      if t.internet {
        device.Clear(t.removeOk);
        phase := Idle;
        flagStartedAt := 0;
        return;
      }
      device.Observe(Awaited(t.reachable));
      if !t.reachable {
        sawDown := true;
      }
      var fired, fail, down := tetheringFired, rebootFailed, sawDown;
      if !fired && t.reachable && (down || fail) {
        tetheringFired := true;
        if !t.canTether {
          return;
        }
        device.Observe(Tethered);
      }
    }

    method DeleteProfile(profile: string, readOk: bool, removeOk: bool)
      modifies this, device
      ensures Both() == ClearFlagForProfile(old(Mem()), old(device.State()), profile, readOk, removeOk)
    {
      if !readOk {
        return;
      }
      var flag := device.file;
      if !HasFields(flag) {
        return;
      }
      if flag.profile != profile {
        return;
      }
      device.Clear(removeOk);
      if flagProfile == profile {
        phase := Idle;
        flagStartedAt := 0;
        flagProfile := "";
      }
    }
  }
}
