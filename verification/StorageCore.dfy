/** The mount state machine of a removable card (components/stark_storage/storage_core.c). */
module StorageCore {
  import opened Stark

  const HALF32 := 0x8000_0000

  datatype MountState = NotFitted | Absent | Mounted | Unusable | Removed | Ejected
  datatype Input = Tick | MountResult | ProbeResult | PresentResult | IoError | ReqMount | ReqEject
  datatype Action = Nothing | TryMount | Probe | PresentCheck | Unmount

  datatype Mount = Mount(state: MountState, dueMs: uint32, dueNow: bool, announced: bool, generation: uint32)
  datatype Timing = Timing(retryMs: uint32, probeMs: uint32)
  datatype Stepped = Stepped(m: Mount, action: Action, changed: bool)

  predicate IsDue(m: Mount, now: uint32) {
    m.dueNow || Sub32(now, m.dueMs) < HALF32
  }

  function WaitMs(m: Mount, now: uint32): uint32 {
    if m.state == NotFitted then TWO32 - 1
    else if IsDue(m, now) then 0
    else Sub32(m.dueMs, now)
  }

  function Schedule(m: Mount, now: uint32, after: uint32): Mount {
    m.(dueNow := false, dueMs := Add32(now, after))
  }

  function EnterTo(m: Mount, next: MountState, action: Action): Stepped {
    Stepped(m.(state := next, announced := true), action, next != m.state || !m.announced)
  }

  /** The mounted volume is gone: the next generation begins. */
  function LeaveTo(m: Mount, t: Timing, next: MountState, now: uint32): Stepped {
    EnterTo(Schedule(m, now, t.retryMs).(generation := Add32(m.generation, 1)), next, Unmount)
  }

  function StepTo(m: Mount, t: Timing, input: Input, result: Err, now: uint32): Stepped {
    if m.state == NotFitted then Stepped(m, Nothing, false)
    else match input
      case Tick =>
        if !IsDue(m, now) then Stepped(m, Nothing, false)
        else if m.state == Mounted then Stepped(Schedule(m, now, t.probeMs), Probe, false)
        else Stepped(Schedule(m, now, t.retryMs), if m.state == Ejected then PresentCheck else TryMount, false)
      case MountResult =>
        if result == Ok then
          var e := EnterTo(m, Mounted, Nothing);
          e.(m := Schedule(e.m, now, t.probeMs))
        else if result != NotFound then EnterTo(m, Unusable, Nothing)
        else if m.state == Removed then Stepped(m, Nothing, false)
        else EnterTo(m, Absent, Nothing)
      case ProbeResult => if result == Ok then Stepped(m, Nothing, false) else LeaveTo(m, t, Removed, now)
      case PresentResult =>
        if m.state == Ejected && result != Ok then EnterTo(m, Absent, Nothing) else Stepped(m, Nothing, false)
      case IoError => Stepped(if m.state == Mounted then m.(dueNow := true) else m, Nothing, false)
      case ReqMount =>
        if m.state == Mounted then Stepped(m, Nothing, false)
        else Stepped(Schedule(m, now, t.retryMs), TryMount, false)
      case ReqEject => if m.state == Mounted then LeaveTo(m, t, Ejected, now) else Stepped(m, Nothing, false)
  }

  // ---- What the functions promise --------------------------------------------

  /** Sleeping for WaitMs wakes up exactly when the periodic action falls due, wrap included,
      and it stays due for 2^31 - 1 ms after that. */
  lemma {:induction false} WaitIsExact(m: Mount, t: Timing, now: uint32, d: uint32, result: Err)
    requires m.state != NotFitted && !m.dueNow
    requires d < if IsDue(m, now) then HALF32 - Sub32(now, m.dueMs) else WaitMs(m, now) + HALF32
    ensures WaitMs(m, now) <= HALF32
    ensures StepTo(m, t, Tick, result, Add32(now, d)).action != Nothing <==> d >= WaitMs(m, now)
  {
  }

  /** An action that fell due schedules the next one a full interval later, exactly when the
      interval is at most 2^31 ms; a longer one is overdue at once. */
  lemma {:induction false} NextWait(m: Mount, t: Timing, now: uint32, result: Err)
    requires m.state != NotFitted && IsDue(m, now)
    ensures var interval := if m.state == Mounted then t.probeMs else t.retryMs;
            var n := StepTo(m, t, Tick, result, now).m;
            WaitMs(n, now) == if interval <= HALF32 then interval else 0
  {
  }

  /** A failed mount reported while mounted, or a failed probe reported while not: results of actions
      that are never carried out in that state. */
  predicate Stray(m: Mount, input: Input, result: Err) {
    && result != Ok
    && ((input == MountResult && m.state == Mounted) ||
        (input == ProbeResult && m.state != Mounted && m.state != NotFitted))
  }

  /** A new generation begins exactly with an unmount, and a change is reported exactly when the
      announced state changes; and a card leaves MOUNTED exactly with an unmount, unless the input
      is a stray result. */
  lemma {:induction false} LeavingMounted(m: Mount, t: Timing, input: Input, result: Err, now: uint32)
    ensures var s := StepTo(m, t, input, result, now);
            && s.m.generation == (if s.action == Unmount then Add32(m.generation, 1) else m.generation)
            && (s.changed ==> s.m.announced)
            && (m.announced ==> (s.changed <==> s.m.state != m.state))
            && ((s.action == Unmount <==> m.state == Mounted && s.m.state != Mounted) <==> !Stray(m, input, result))
  {
  }

  class Core {
    const timing: Timing
    var state: MountState
    var dueMs: uint32
    var dueNow: bool
    var announced: bool
    var generation: uint32

    ghost function View(): Mount
      reads this
    {
      Mount(state, dueMs, dueNow, announced, generation)
    }

    constructor (fitted: bool, timing: Timing, now: uint32)
      ensures View() == Mount(if fitted then Absent else NotFitted, now, fitted, !fitted, 0)
      ensures this.timing == timing
    {
      this.timing := timing;
      state := if fitted then Absent else NotFitted;
      dueMs, dueNow, announced, generation := now, fitted, !fitted, 0;
    }

    method Enter(next: MountState) returns (changed: bool)
      modifies this`state, this`announced
      ensures state == next && announced && (changed <==> next != old(state) || !old(announced))
    {
      changed := next != state || !announced;
      state := next;
      announced := true;
    }

    method Schedule(now: uint32, after: uint32)
      modifies this`dueNow, this`dueMs
      ensures !dueNow && dueMs == Add32(now, after)
    {
      dueNow := false;
      dueMs := Add32(now, after);
    }

    method OnTick(now: uint32) returns (action: Action)
      modifies this
      ensures Stepped(View(), action, false) == StepTo(old(View()), timing, Tick, Ok, now)
    {
      action := Nothing;
      if !(dueNow || Sub32(now, dueMs) < HALF32) {
        return;
      }
      match state {
        case Absent | Unusable | Removed =>
          Schedule(now, timing.retryMs);
          action := TryMount;
        case Mounted =>
          Schedule(now, timing.probeMs);
          action := Probe;
        case Ejected =>
          Schedule(now, timing.retryMs);
          action := PresentCheck;
        case NotFitted =>
      }
    }

    method OnMountResult(result: Err, now: uint32) returns (changed: bool)
      requires state != NotFitted
      modifies this
      ensures Stepped(View(), Nothing, changed) == StepTo(old(View()), timing, MountResult, result, now)
    {
      changed := false;
      if result == Ok {
        changed := Enter(Mounted);
        Schedule(now, timing.probeMs);
      } else if result == NotFound {
        if state != Removed {
          changed := Enter(Absent);
        }
      } else {
        changed := Enter(Unusable);
      }
    }

    method Leave(next: MountState, now: uint32) returns (changed: bool)
      modifies this
      ensures Stepped(View(), Unmount, changed) == LeaveTo(old(View()), timing, next, now)
    {
      generation := Add32(generation, 1);
      changed := Enter(next);
      Schedule(now, timing.retryMs);
    }

    method Step(input: Input, result: Err, now: uint32) returns (action: Action, changed: bool)
      modifies this
      ensures Stepped(View(), action, changed) == StepTo(old(View()), timing, input, result, now)
    {
      action, changed := Nothing, false;
      if state == NotFitted && input != Tick {
        return;
      }
      match input {
        case Tick => action := OnTick(now);
        case MountResult => changed := OnMountResult(result, now);
        case ProbeResult =>
          if result != Ok {
            changed := Leave(Removed, now);
            action := Unmount;
          }
        case PresentResult =>
          if state == Ejected && result != Ok {
            changed := Enter(Absent);
          }
        case ReqMount =>
          if state != Mounted {
            Schedule(now, timing.retryMs);
            action := TryMount;
          }
        case ReqEject =>
          if state == Mounted {
            changed := Leave(Ejected, now);
            action := Unmount;
          }
        case IoError =>
          if state == Mounted {
            dueNow := true;
          }
      }
    }

    method Wait(now: uint32) returns (ms: uint32)
      ensures ms == WaitMs(View(), now)
    {
      if state == NotFitted {
        return TWO32 - 1;
      }
      if dueNow || Sub32(now, dueMs) < HALF32 {
        return 0;
      }
      return Sub32(dueMs, now);
    }
  }
}
