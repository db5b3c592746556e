/** The storage task: it drives the mount state machine and the file table under the storage
    lock (components/stark_storage/stark_storage.c). */
module Storage {
  import opened Stark
  import opened StorageCore
  import opened StoragePath
  import opened StorageVolume
  import opened StorageFiles

  /** How far the loop over follow-up actions still has to go. */
  function Rank(a: Action): nat {
    match a
    case TryMount | Probe | PresentCheck => 2
    case Unmount => 1
    case Nothing => 0
  }

  /** The state in which an action may be carried out. */
  predicate Fits(a: Action, s: MountState) {
    match a
    case TryMount => s != Mounted && s != NotFitted
    case Probe => s == Mounted
    case PresentCheck => s == Ejected
    case Unmount => s == Removed || s == Ejected
    case Nothing => true
  }

  /** No live handle: sound in whatever state, and no descriptor is open. */
  lemma {:induction false} SoundWithoutLive(slots: seq<File>, marks: seq<Mark>, open: map<nat, Descriptor>, files: Disk,
                                            state: MountState, gen: uint32, disk: Disk, next: MountState, then_: uint32)
    requires Sound(slots, marks, open, files, state, gen) && state != Mounted
    ensures NoLive(slots) && open == map[]
    ensures Sound(slots, marks, open, disk, next, then_)
  {
    NoneLive(slots, open);
  }

  /** The ticket of an open descriptor belongs to exactly one live handle. */
  ghost predicate HeldByHandle(slots: seq<File>, open: map<nat, Descriptor>, ticket: nat) {
    exists i :: 0 <= i < |slots| && Live(slots[i]) && slots[i].fd in open && open[slots[i].fd].ticket == ticket
  }

  lemma {:induction false} HeldMeansHandle(slots: seq<File>, open: map<nat, Descriptor>, ticket: nat)
    requires OneToOne(slots, open)
    ensures Held(open, ticket) <==> HeldByHandle(slots, open, ticket)
  {
    if Held(open, ticket) {
      var fd :| fd in open && open[fd].ticket == ticket;
      assert Owned(slots, fd);
    }
  }

  /** Every handle has gone stale, or none has been touched. */
  ghost predicate Touched(was: seq<File>, now: seq<File>, left: bool) {
    |now| == |was| && forall k :: 0 <= k < |was| ==>
      now[k] == if left then was[k].(stale := was[k].used || was[k].stale) else was[k]
  }

  /** No handle has been touched, or all have gone stale. */
  ghost predicate Kept(was: seq<File>, now: seq<File>) {
    Touched(was, now, false) || Touched(was, now, true)
  }

  lemma Untouched(slots: seq<File>)
    ensures Kept(slots, slots)
  {
  }

  lemma KeptTwice(a: seq<File>, b: seq<File>, c: seq<File>)
    requires Kept(a, b) && (Kept(b, c) || Touched(b, c, false) || Touched(b, c, true))
    ensures Kept(a, c)
  {
  }

  /** No handle is open on a mounted volume. */
  ghost predicate NoLive(slots: seq<File>) {
    forall k :: 0 <= k < |slots| ==> !Live(slots[k])
  }

  class Service {
    const vol: Volume
    const core: Core
    const files: Files
    var reqEject: bool
    var reqMount: bool
    var published: seq<MountState>

    ghost predicate Linked()
      reads this
    {
      files.vol == vol && files.core == core
    }

    /** What holds whenever the storage lock is free. */
    ghost predicate Valid()
      reads this, vol, core, files
    {
      && Linked() && files.Valid()
      && (core.announced && core.state != NotFitted ==> published != [] && published[|published| - 1] == core.state)
    }

    constructor (fitted: bool, timing: Timing, root: string, now: uint32)
      ensures Valid() && core.state == (if fitted then Absent else NotFitted) && vol.drawn == 0 && NoLive(files.slots)
    {
      var v := new Volume();
      var c := new Core(fitted, timing, now);
      vol, core := v, c;
      files := new Files(v, c, root);
      reqEject, reqMount, published := false, false, [];
    }

    method Publish(state: MountState)
      modifies this`published
      ensures published == old(published) + [state]
    {
      published := published + [state];
    }

    /** Announces a state change; a new mount first prepares the card. */
    method Report()
      requires Linked() && (core.state == Mounted ==> files.Valid() && NoLive(files.slots))
      modifies this`published, files`ioError, vol
      ensures core.state == Mounted ==> files.Valid() && vol.drawn == old(vol.drawn)
      ensures core.state != Mounted ==> unchanged(vol)
      ensures published == old(published) + [core.state]
    {
      if core.state == Mounted {
        var _ := files.Prepare();
      }
      Publish(core.state);
    }

    /** Carries out an action and feeds its result back. */
    method FollowUp(action: Action) returns (next: Action, changed: bool)
      requires Linked() && vol.Valid() && action != Nothing && action != Unmount && Fits(action, core.state)
      requires Sound(files.slots, files.marks, vol.open, vol.files, core.state, core.generation)
      modifies core, vol
      ensures vol.Valid() && vol.drawn == old(vol.drawn) && (next == Nothing || (next == Unmount && action == Probe))
      ensures Sound(files.slots, files.marks, vol.open, vol.files, if next == Unmount then Mounted else core.state,
                    if next == Unmount then old(core.generation) else core.generation)
      ensures FollowsUp(old(core.View()), core.View(), action, next)
      ensures changed ==> core.announced
      ensures changed && core.state == Mounted ==> NoLive(files.slots)
      ensures !changed ==> core.state == old(core.state) && core.announced == old(core.announced)
    {
      hide Sound, Volume.Valid, OneToOne, HandleOk;
      var now: uint32 := *;
      ghost var was, disk := core.View(), vol.files;
      StateMoves(files.slots, files.marks, vol.open, disk, was, was, Nothing);
      match action {
        case TryMount =>
          SoundWithoutLive(files.slots, files.marks, vol.open, disk, was.state, was.generation, disk, Absent, 0);
          var result := vol.Mount();
          next, changed := core.Step(MountResult, result, now);
          SoundWithoutLive(files.slots, files.marks, vol.open, disk, was.state, was.generation, vol.files, core.state,
                           core.generation);
        case Probe =>
          var result := vol.Answers();
          next, changed := core.Step(ProbeResult, result, now);
          StateMoves(files.slots, files.marks, vol.open, disk, was, core.View(), next);
        case PresentCheck =>
          var result := vol.Answers();
          next, changed := core.Step(PresentResult, result, now);
          StateMoves(files.slots, files.marks, vol.open, disk, was, core.View(), next);
      }
    }

    /** Between two actions: the handles are sound for the state that the action is to leave, and
        every state change has been announced, but for the last if `changed`. */
    ghost predicate Pending(action: Action, changed: bool, gen: uint32)
      reads this, vol, core, files
    {
      && Linked() && vol.Valid()
      && Sound(files.slots, files.marks, vol.open, vol.files, if action == Unmount then Mounted else core.state,
               if action == Unmount then gen else core.generation)
      && (changed ==> core.announced && (core.state == Mounted ==> NoLive(files.slots)))
      && (!changed && core.announced && core.state != NotFitted ==>
            published != [] && published[|published| - 1] == core.state)
    }

    /** Feeds the input itself. */
    method Begin(input: Input) returns (action: Action, changed: bool)
      requires Valid() && input in {Tick, ReqEject, ReqMount, IoError}
      modifies core
      ensures Pending(action, changed, old(core.generation))
      ensures Going(old(core.View()), core.View(), input, action)
    {
      hide Sound, Volume.Valid, OneToOne, HandleOk, NoLive, Fits;
      var now: uint32 := *;
      ghost var was := core.View();
      action, changed := core.Step(input, Ok, now);
      FirstStep(was, core.timing, input, now);
      StateMoves(files.slots, files.marks, vol.open, vol.files, was, core.View(), action);
    }

    /** Announces the last state change, if there was one. */
    method Announce(action: Action, changed: bool, ghost gen: uint32)
      requires Pending(action, changed, gen) && (action == Unmount ==> core.state != Mounted)
      modifies this`published, files`ioError, vol
      ensures Pending(action, false, gen) && vol.drawn == old(vol.drawn)
    {
      hide Sound, Volume.Valid, OneToOne, HandleOk, NoLive;
      if changed {
        Report();
      }
    }

    /** Carries out an action that has a result. */
    method Carry(action: Action, ghost gen: uint32, ghost was: Mount, ghost input: Input)
        returns (next: Action, changed: bool)
      requires Pending(action, false, gen) && Going(was, core.View(), input, action)
      requires action == TryMount || action == Probe || action == PresentCheck
      modifies core, vol
      ensures Pending(next, changed, old(core.generation)) && Going(was, core.View(), input, next)
      ensures vol.drawn == old(vol.drawn) && Rank(next) < Rank(action)
    {
      hide Sound, Volume.Valid, OneToOne, HandleOk, NoLive, Going, FollowsUp, Rank, Fits;
      ghost var before := core.View();
      GoingFits(was, before, input, action);
      next, changed := FollowUp(action);
      GoesOn(was, before, core.View(), input, action, next);
    }

    /** One input and every action that follows from it. */
    method Run(input: Input)
      requires Valid() && input in {Tick, ReqEject, ReqMount, IoError}
      modifies this`published, core, files, vol
      ensures Valid() && vol.drawn == old(vol.drawn)
      ensures Ran(old(core.View()), core.View(), input)
      // Leaving MOUNTED makes every handle stale and closes its descriptor; otherwise none is touched.
      ensures core.state != Mounted ==> vol.open == map[]
      ensures Touched(old(files.slots), files.slots, old(core.state) == Mounted && core.state != Mounted)
      ensures files.marks == old(files.marks)
    {
      hide Sound, Volume.Valid, Going, Touched, Fits, Rank, Ran, Pending;
      ghost var was := core.View();
      ghost var gen: uint32 := core.generation;
      var action, changed := Begin(input);
      while true
        invariant Pending(action, changed, gen) && Going(was, core.View(), input, action)
        invariant vol.drawn == old(vol.drawn) && files.slots == old(files.slots) && files.marks == old(files.marks)
        decreases Rank(action)
      {
        GoingFits(was, core.View(), input, action);
        Announce(action, changed, gen);
        match action {
          case TryMount | Probe | PresentCheck =>
            ghost var last := gen;
            gen := core.generation;
            action, changed := Carry(action, last, was, input);
          case Unmount | Nothing =>
            Finish(action, gen);
            GoingEnds(was, core.View(), input, action);
            return;
        }
      }
    }

    /** The last action: before the card goes, every open handle goes stale. */
    method Finish(action: Action, ghost gen: uint32)
      requires Pending(action, false, gen) && (action == Nothing || (action == Unmount && core.state != Mounted))
      modifies files`slots, vol
      ensures Valid() && vol.drawn == old(vol.drawn) && (core.state != Mounted ==> vol.open == map[])
      ensures Touched(old(files.slots), files.slots, action == Unmount)
    {
      hide Sound, Volume.Valid, OneToOne, HandleOk;
      if action == Unmount {
        files.Invalidate(gen);
        vol.Unmount();
      } else if core.state != Mounted {
        SoundWithoutLive(files.slots, files.marks, vol.open, vol.files, core.state, core.generation, vol.files,
                         Absent, 0);
      }
    }

    /** Any task may ask; the storage task acts on it. */
    method RequestEject()
      modifies this`reqEject
      ensures reqEject
    {
      reqEject := true;
    }

    method RequestMount()
      modifies this`reqMount
      ensures reqMount
    {
      reqMount := true;
    }

    /** An eject with files open is refused: nothing changes, and the state is announced again.
        Otherwise no handle is in use, so none goes stale under its owner. */
    method Eject() returns (refused: bool)
      requires Valid()
      modifies this`published, core, files, vol
      ensures Valid() && vol.drawn == old(vol.drawn)
      ensures refused <==> old(core.state) == Mounted && Used(old(files.slots)) > 0
      ensures refused ==> unchanged(core) && unchanged(files) && unchanged(vol)
                          && published == old(published) + [Mounted]
      ensures !refused ==> Ran(old(core.View()), core.View(), ReqEject)
      ensures Touched(old(files.slots), files.slots, false) && files.marks == old(files.marks)
    {
      hide Sound, Volume.Valid, Ran;
      var open := files.OpenCount();
      refused := open > 0 && core.state == Mounted;
      if refused {
        Publish(core.state);
      } else {
        Run(ReqEject);
      }
    }

    /** One input of the storage task, in a section that began with the handles in `was`. */
    method Take(input: Input, ghost was: seq<File>)
      requires Valid() && input in {Tick, ReqEject, ReqMount, IoError} && Kept(was, files.slots)
      modifies this`published, core, files, vol
      ensures Valid() && vol.drawn == old(vol.drawn) && files.marks == old(files.marks) && Kept(was, files.slots)
      ensures core.state != Mounted ==> vol.open == map[]
      ensures old(core.state) == Ejected && input != ReqMount ==>
                core.state == Ejected || (input == Tick && core.state == Absent)
    {
      hide Sound, Volume.Valid, Touched, Kept;
      ghost var before := files.slots;
      if input == ReqEject {
        var _ := Eject();
        if core.state != Mounted {
          SoundWithoutLive(files.slots, files.marks, vol.open, vol.files, core.state, core.generation, vol.files,
                           Absent, 0);
        }
      } else {
        Run(input);
      }
      KeptTwice(was, before, files.slots);
    }

    /** The storage task's locked section. */
    method Section(now: uint32) returns (wait: uint32)
      requires Valid()
      modifies this, core, files, vol
      ensures Valid() && vol.drawn == old(vol.drawn) && wait == WaitMs(core.View(), now)
      ensures !reqEject && !reqMount && files.marks == old(files.marks)
      // Either no handle has been touched, or all have gone stale.
      ensures Kept(old(files.slots), files.slots)
      ensures core.state != Mounted ==> vol.open == map[]
      ensures old(core.state) == Ejected && !old(reqMount) ==> core.state != Mounted
    {
      hide Sound, Volume.Valid, Touched, Kept;
      var eject, mount := reqEject, reqMount;
      reqEject, reqMount := false, false;
      ghost var was := files.slots;
      Untouched(was);
      if eject {
        Take(ReqEject, was);
      }
      if mount {
        Take(ReqMount, was);
      }
      if files.ioError {
        files.ioError := false;
        Take(IoError, was);
      }
      Take(Tick, was);
      wait := core.Wait(now);
    }

    /** Every interleaving of locked sections: file calls from any task, requests and the storage
        task. At its end each descriptor ever opened has been closed exactly once, unless a live
        handle of the mounted generation still holds it; then never. */
    method AnyRun()
      requires Valid()
      modifies this, core, files, vol
      ensures Valid()
      ensures forall t: nat :: t < vol.drawn ==>
                Closes(vol.log, t) == if HeldByHandle(files.slots, vol.open, t) then 0 else 1
      ensures forall k :: 0 <= k < |files.slots| && Live(files.slots[k]) ==>
                core.state == Mounted && files.slots[k].generation == core.generation
    {
      var n: nat := *;
      while n > 0
        invariant Valid()
      {
        AnySection();
        n := n - 1;
      }
      forall t: nat
        ensures Held(vol.open, t) <==> HeldByHandle(files.slots, vol.open, t)
      {
        HeldMeansHandle(files.slots, vol.open, t);
      }
      forall k | 0 <= k < |files.slots| && Live(files.slots[k])
        ensures core.state == Mounted && files.slots[k].generation == core.generation
      {
        assert HandleOk(files.slots[k], files.marks[k], vol.open, vol.files, core.state, core.generation);
      }
    }

    method AnySection()
      requires Valid()
      modifies this, core, files, vol
      ensures Valid()
    {
      hide Sound, Volume.Valid, Closing, Touched, Kept;
      var now: uint32 := *;
      if {
        case true => RequestEject();
        case true => RequestMount();
        case true => var _ := Section(now);
        case true => AnyHandleCall();
        case true => AnyPathCall();
      }
    }

    method AnyHandleCall()
      requires Valid()
      modifies files, vol
      ensures Valid()
    {
      hide Sound, Volume.Valid, Closing;
      var h: int, len: nat, data: seq<byte> := *, *, *;
      if {
        case true => var _, _ := files.Read(h, len);
        case true => var _ := files.Write(h, data);
        case true => var _, _ := files.Close(h);
        case true => files.Discard(h);
      }
    }

    method AnyPathCall()
      requires Valid()
      modifies files, vol
      ensures Valid()
    {
      hide Sound, Volume.Valid, Closing;
      var dir: Dir, name: string, other: string, mode: Mode := *, *, *, *;
      if {
        case true => var _, _ := files.Open(dir, name, mode);
        case true => var _ := files.Remove(dir, name);
        case true => var _ := files.Rename(dir, name, other);
      }
    }
  }

  /** What a follow-up action may do to the state. */
  predicate FollowsUp(before: Mount, now: Mount, action: Action, next: Action) {
    && (next == Nothing || (next == Unmount && action == Probe)) && Fits(next, now.state) && now.state != NotFitted
    && now.generation == (if next == Unmount then Add32(before.generation, 1) else before.generation)
    && (next == Unmount <==> before.state == Mounted && now.state != Mounted)
    && (action == PresentCheck ==> now.state == Ejected || now.state == Absent)
  }

  /** Between the actions of one input, from state `was`. */
  predicate Going(was: Mount, now: Mount, input: Input, action: Action) {
    && Fits(action, now.state) && (action == Unmount || action == Probe ==> was.state == Mounted)
    && now.generation == (if was.state == Mounted && now.state != Mounted then Add32(was.generation, 1)
                          else was.generation)
    && (was.state == Mounted && now.state != Mounted <==> action == Unmount)
    && (was.state == Ejected && input != ReqMount ==>
          action != TryMount && (now.state == Ejected || now.state == Absent))
    && (was.state == NotFitted <==> now.state == NotFitted)
    && (input == ReqEject ==> (action == Unmount || action == Nothing)
                              && now.state == if was.state == Mounted then Ejected else was.state)
    && (input == IoError ==> action == Nothing && now.state == was.state)
  }

  /** What one input and everything that follows from it does: a new generation begins exactly
      when the volume leaves MOUNTED, an ejected card is never mounted unasked, an eject ejects
      a mounted card and does nothing else, and an I/O error only brings the probe forward. */
  predicate Ran(was: Mount, now: Mount, input: Input) {
    && now.generation == (if was.state == Mounted && now.state != Mounted then Add32(was.generation, 1)
                          else was.generation)
    && (was.state == Ejected && input != ReqMount ==> now.state == Ejected || now.state == Absent)
    && (was.state == NotFitted <==> now.state == NotFitted)
    && (input == ReqEject ==> now.state == if was.state == Mounted then Ejected else was.state)
    && (input == IoError ==> now.state == was.state)
  }

  lemma {:induction false} FirstStep(m: Mount, t: Timing, input: Input, now: uint32)
    requires input in {Tick, ReqEject, ReqMount, IoError}
    ensures var s := StepTo(m, t, input, Ok, now);
            && Going(m, s.m, input, s.action)
            && (s.changed ==> s.m.announced && s.m.state == Ejected)
            && (!s.changed ==> s.m.state == m.state && s.m.announced == m.announced)
            && (s.action == Unmount ==> m.state == Mounted)
            && (s.action != Unmount ==> s.m.generation == m.generation && (s.m.state == m.state || m.state != Mounted))
  {
  }

  lemma GoingFits(was: Mount, now: Mount, input: Input, action: Action)
    requires Going(was, now, input, action)
    ensures Fits(action, now.state) && (action == Unmount ==> now.state != Mounted)
  {
  }

  lemma GoesOn(was: Mount, before: Mount, now: Mount, input: Input, action: Action, next: Action)
    requires Going(was, before, input, action) && FollowsUp(before, now, action, next)
    requires action == TryMount || action == Probe || action == PresentCheck
    ensures Going(was, now, input, next) && Rank(next) < Rank(action)
  {
  }

  lemma GoingEnds(was: Mount, now: Mount, input: Input, action: Action)
    requires Going(was, now, input, action) && (action == Nothing || action == Unmount)
    ensures Ran(was, now, input)
    ensures was.state == Mounted && now.state != Mounted <==> action == Unmount
  {
  }

  /** After a step that does not unmount, the handles are as sound as before. */
  lemma {:induction false} StateMoves(slots: seq<File>, marks: seq<Mark>, open: map<nat, Descriptor>, files: Disk,
                                      was: Mount, now: Mount, action: Action)
    requires Sound(slots, marks, open, files, was.state, was.generation)
    requires action == Unmount ==> was.state == Mounted
    requires action != Unmount ==> now.generation == was.generation && (now.state == was.state || was.state != Mounted)
    ensures Sound(slots, marks, open, files, if action == Unmount then Mounted else now.state,
                  if action == Unmount then was.generation else now.generation)
    ensures was.state != Mounted ==> NoLive(slots)
  {
    if was.state != Mounted {
      SoundWithoutLive(slots, marks, open, files, was.state, was.generation, files, now.state, now.generation);
    }
  }
}
