/** Whole runs of the storage service: what an atomic write that is closed in the middle of any
    interleaving puts under its final name, told by the calls made and nothing else. */
module StorageRuns {
  import opened Stark
  import opened StorageCore
  import opened StoragePath
  import opened StorageVolume
  import opened StorageFiles
  import opened Storage

  /** What a locked section did, as its caller and the file system saw it. */
  datatype Event =
    | Opened(h: int, mode: Mode, path: string)
    | OpenFailed(mode: Mode, path: string)
    | Wrote(h: int, data: seq<byte>, ok: bool)
    | Committed(h: int, path: string, ok: bool, before: Disk, calls: seq<Call>, now: Disk)
    | Released(h: int)
    | Departed
    | Other

  type Trace = seq<Event>

  // ---- What the trace says about a handle ------------------------------------

  /** The file that handle h is writing atomically. */
  function Holder(t: Trace, h: int): Option<string> {
    if t == [] then None
    else
      match t[|t| - 1]
      case Opened(x, mode, path) =>
        if x != h then Holder(t[..|t| - 1], h) else if mode == WriteAtomic then Some(path) else None
      case Committed(x, _, _, _, _, _) => if x == h then None else Holder(t[..|t| - 1], h)
      case Released(x) => if x == h then None else Holder(t[..|t| - 1], h)
      case Departed => None
      case _ => Holder(t[..|t| - 1], h)
  }

  /** The concatenation of what has been written through handle h since it was opened. */
  function Sent(t: Trace, h: int): seq<byte> {
    if t == [] then []
    else
      match t[|t| - 1]
      case Opened(x, _, _) => if x == h then [] else Sent(t[..|t| - 1], h)
      case Wrote(x, data, _) => if x == h then Sent(t[..|t| - 1], h) + data else Sent(t[..|t| - 1], h)
      case _ => Sent(t[..|t| - 1], h)
  }

  /** Every write through handle h since it was opened has succeeded. */
  predicate AllSent(t: Trace, h: int) {
    if t == [] then true
    else
      match t[|t| - 1]
      case Opened(x, _, _) => x == h || AllSent(t[..|t| - 1], h)
      case Wrote(x, _, ok) => (x == h ==> ok) && AllSent(t[..|t| - 1], h)
      case _ => AllSent(t[..|t| - 1], h)
  }

  /** Nobody has tried to write the same file atomically while handle h has been open. */
  predicate Alone(t: Trace, h: int) {
    if t == [] then true
    else
      var was := t[..|t| - 1];
      match t[|t| - 1]
      case Opened(x, mode, path) =>
        if x == h then forall i :: 0 <= i < SLOTS && i != h ==> Holder(was, i) != Some(path)
        else Alone(was, h) && (mode == WriteAtomic ==> Holder(was, h) != Some(path))
      case OpenFailed(mode, path) => Alone(was, h) && (mode == WriteAtomic ==> Holder(was, h) != Some(path))
      case _ => Alone(was, h)
  }

  lemma Drops(t: Trace, e: Event)
    ensures (t + [e])[..|t|] == t && (t + [e])[|t|] == e
  {
  }

  // ---- The promise -----------------------------------------------------------

  /** A commit whose writes all succeeded, alone on its file: after each of its calls the final
      name holds the complete old file or exactly the bytes written, or is missing because it
      never existed or has been unlinked; and once it answered OK, the bytes written. */
  ghost predicate KeepsPromise(t: Trace, e: Event)
    requires e.Committed?
  {
    && Holder(t, e.h) == Some(e.path)
    && (AllSent(t, e.h) && Alone(t, e.h) ==>
          && WholeThroughout(0, e.calls, e.before, e.path, Sent(t, e.h))
          && (e.ok ==> e.path in e.now && e.now[e.path] == Sent(t, e.h)))
    && (e.ok ==> Installed(e.before, e.now, e.path, e.path + TMP))
  }

  ghost predicate Promised(t: Trace) {
    forall k :: 0 <= k < |t| && t[k].Committed? ==> KeepsPromise(t[..k], t[k])
  }

  // ---- The handles follow the trace ------------------------------------------

  predicate Writing(f: File) {
    Live(f) && f.mode == WriteAtomic
  }

  ghost predicate Follows(t: Trace, i: int, f: File, m: Mark) {
    && Holder(t, i) == (if Writing(f) then Some(f.path) else None)
    && (Writing(f) ==> m.written == Sent(t, i) && (AllSent(t, i) ==> m.whole) && (Alone(t, i) ==> !m.shared))
  }

  ghost predicate Tracks(t: Trace, slots: seq<File>, marks: seq<Mark>) {
    |slots| == |marks| == SLOTS && forall i :: 0 <= i < SLOTS ==> Follows(t, i, slots[i], marks[i])
  }

  /** Temporary names are the final names' own. */
  ghost predicate OwnTmp(slots: seq<File>) {
    forall i :: 0 <= i < |slots| && Live(slots[i]) ==> slots[i].tmp == slots[i].path + TMP
  }

  lemma {:induction false} SoundOwnTmp(slots: seq<File>, marks: seq<Mark>, open: map<nat, Descriptor>, files: Disk,
                                       state: MountState, gen: uint32)
    requires Sound(slots, marks, open, files, state, gen)
    ensures OwnTmp(slots) && |slots| == |marks| == SLOTS
  {
    forall i | 0 <= i < |slots| && Live(slots[i])
      ensures slots[i].tmp == slots[i].path + TMP
    {
      assert HandleOk(slots[i], marks[i], open, files, state, gen);
    }
  }

  lemma SameTmp(a: string, b: string)
    ensures a + TMP == b + TMP <==> a == b
  {
    assert (a + TMP)[..|a|] == a && (b + TMP)[..|b|] == b;
  }

  /** A section that touches no handle adds nothing to what the trace says. */
  lemma {:induction false} TracksOther(t: Trace, slots: seq<File>, marks: seq<Mark>)
    requires Tracks(t, slots, marks)
    ensures Tracks(t + [Other], slots, marks)
  {
    Drops(t, Other);
    assert forall i :: 0 <= i < SLOTS ==> Follows(t, i, slots[i], marks[i]);
  }

  lemma UsableIsLive(slots: seq<File>, h: int, state: MountState, gen: uint32)
    requires Usable(slots, h, state, gen) == Ok
    ensures 0 <= h < |slots| && Live(slots[h])
  {
  }

  lemma LiveIsWriting(slots: seq<File>, h: int, state: MountState, gen: uint32)
    requires Usable(slots, h, state, gen) == Ok && slots[h].mode == WriteAtomic
    ensures Writing(slots[h])
  {
  }

  lemma {:induction false} TracksReleased(t: Trace, slots: seq<File>, marks: seq<Mark>, h: nat, e: Event)
    requires Tracks(t, slots, marks) && h < SLOTS && (e == Released(h) || (e.Committed? && e.h == h))
    ensures Tracks(t + [e], slots[h := Free], marks)
  {
    Drops(t, e);
    assert forall i :: 0 <= i < SLOTS ==> Follows(t, i, slots[i], marks[i]);
  }

  lemma {:induction false} TracksDeparted(t: Trace, slots: seq<File>, now: seq<File>, marks: seq<Mark>)
    requires Tracks(t, slots, marks) && Touched(slots, now, true)
    ensures Tracks(t + [Departed], now, marks)
  {
    Drops(t, Departed);
  }

  lemma {:induction false} TracksWrote(t: Trace, slots: seq<File>, marks: seq<Mark>, h: nat, data: seq<byte>, ok: bool)
    requires Tracks(t, slots, marks) && h < SLOTS
    ensures Tracks(t + [Wrote(h, data, ok)], slots,
                   marks[h := Mark(marks[h].written + data, marks[h].whole && ok, marks[h].shared)])
  {
    Drops(t, Wrote(h, data, ok));
    assert forall i :: 0 <= i < SLOTS ==> Follows(t, i, slots[i], marks[i]);
  }

  lemma {:induction false} TracksOpenFailed(t: Trace, slots: seq<File>, marks: seq<Mark>, mode: Mode, path: string)
    requires Tracks(t, slots, marks) && OwnTmp(slots)
    ensures Tracks(t + [OpenFailed(mode, path)], slots, MarksAfterOpen(slots, marks, -1, path, mode))
  {
    var e := OpenFailed(mode, path);
    Drops(t, e);
    var now := MarksAfterOpen(slots, marks, -1, path, mode);
    forall i | 0 <= i < SLOTS
      ensures Follows(t + [e], i, slots[i], now[i])
    {
      assert Follows(t, i, slots[i], marks[i]);
      SameTmp(slots[i].path, path);
    }
  }

  lemma {:induction false} TracksOpened(t: Trace, slots: seq<File>, marks: seq<Mark>, h: nat, f: File)
    requires Tracks(t, slots, marks) && OwnTmp(slots) && h < SLOTS && !slots[h].used && Live(f)
    ensures Tracks(t + [Opened(h, f.mode, f.path)], slots[h := f], MarksAfterOpen(slots, marks, h, f.path, f.mode))
  {
    var e := Opened(h, f.mode, f.path);
    Drops(t, e);
    var now, files := MarksAfterOpen(slots, marks, h, f.path, f.mode), slots[h := f];
    forall i | 0 <= i < SLOTS
      ensures Follows(t + [e], i, files[i], now[i])
    {
      assert Follows(t, i, slots[i], marks[i]);
      SameTmp(slots[i].path, f.path);
      if i == h && Alone(t + [e], h) {
        NewIsAlone(t, slots, marks, h, f);
      }
    }
  }

  lemma {:induction false} NewIsAlone(t: Trace, slots: seq<File>, marks: seq<Mark>, h: nat, f: File)
    requires Tracks(t, slots, marks) && OwnTmp(slots) && h < SLOTS && !slots[h].used
    requires Alone(t + [Opened(h, f.mode, f.path)], h)
    ensures !TmpInUse(slots, f.path + TMP)
  {
    Drops(t, Opened(h, f.mode, f.path));
    forall i | 0 <= i < SLOTS && Writing(slots[i])
      ensures slots[i].tmp != f.path + TMP
    {
      assert Follows(t, i, slots[i], marks[i]);
      SameTmp(slots[i].path, f.path);
    }
  }

  /** The calls of one close, by themselves. */
  lemma {:induction false} CallsAlone(was: seq<Call>, log: seq<Call>, d: Disk, path: string, bytes: seq<byte>)
    requires was <= log && WholeThroughout(|was|, log, d, path, bytes)
    ensures WholeThroughout(0, log[|was|..], d, path, bytes)
  {
    var calls := log[|was|..];
    forall k | 0 <= k < |calls|
      ensures Whole(d, calls[k].after, path, bytes, GoneBy(calls, 0, k, path))
    {
      assert Whole(d, log[|was| + k].after, path, bytes, GoneBy(log, |was|, |was| + k, path));
      if GoneBy(log, |was|, |was| + k, path) {
        var j :| |was| <= j <= |was| + k && j < |log| && log[j].op == OpUnlink(path) && log[j].ok;
        assert calls[j - |was|] == log[j];
      }
    }
  }

  // ---- What was asked and what happened --------------------------------------

  /** What a task asks of the service. */
  datatype Request =
    | DoOpen(dir: Dir, name: string, mode: Mode)
    | DoRead(h: int, len: nat)
    | DoWrite(h: int, data: seq<byte>)
    | DoClose(h: int)
    | DoDiscard(h: int)
    | DoRemove(dir: Dir, name: string)
    | DoRename(dir: Dir, name: string, other: string)
    | DoSection(now: uint32)
    | AskEject
    | AskMount

  /** The service at a moment when its lock is free. */
  datatype Snap = Snap(slots: seq<File>, marks: seq<Mark>, state: MountState, gen: uint32, open: map<nat, Descriptor>,
                       disk: Disk, log: seq<Call>)

  ghost function Look(s: Service): Snap
    reads s, s.files, s.core, s.vol
  {
    Snap(s.files.slots, s.files.marks, s.core.state, s.core.generation, s.vol.open, s.vol.files, s.vol.log)
  }

  ghost predicate Sane(a: Snap) {
    Sound(a.slots, a.marks, a.open, a.disk, a.state, a.gen)
  }

  function Use(a: Snap, h: int): Err {
    Usable(a.slots, h, a.state, a.gen)
  }

  /** No file-system call was made. */
  predicate Untouched(a: Snap, b: Snap) {
    b.log == a.log && b.disk == a.disk
  }

  predicate OpenedAs(f: File, mode: Mode, path: string) {
    Live(f) && f.mode == mode && f.path == path
  }

  /** An open answers OK exactly when a free slot now holds the handle; it is recorded with its path,
      failed ones included, unless it was refused without a call. */
  predicate OpenHappened(path: Option<string>, mode: Mode, a: Snap, err: Err, e: Event, b: Snap) {
    if err == Ok then
      && path.Some? && e.Opened? && e == Opened(e.h, mode, path.value)
      && |a.slots| == |b.slots| && 0 <= e.h < |a.slots| && !a.slots[e.h].used
      && b.slots == a.slots[e.h := b.slots[e.h]] && OpenedAs(b.slots[e.h], mode, path.value)
    else
      && b.slots == a.slots
      && e == if path.Some? && |b.log| > |a.log| then OpenFailed(mode, path.value) else Other
  }

  ghost predicate WriteHappened(h: int, data: seq<byte>, a: Snap, err: Err, e: Event, b: Snap) {
    && b.slots == a.slots
    && if Use(a, h) == Ok && a.slots[h].mode != ReadOnly then
         e == Wrote(h, data, err == Ok) && OnlyThese(a.disk, b.disk, OnDisk(a.slots[h]), OnDisk(a.slots[h]))
       else e == Other && err != Ok && Untouched(a, b)
  }

  /** A close of a usable atomic handle is a commit, recorded with the calls it made and the disk
      before and after; of any other used handle, a release. */
  predicate CloseHappened(h: int, a: Snap, err: Err, e: Event, b: Snap) {
    && b.slots == (if Use(a, h) == InvalidArg then a.slots else a.slots[h := Free])
    && (Use(a, h) != Ok ==> err == Use(a, h) && Untouched(a, b))
    && a.log <= b.log
    && e == if Use(a, h) == InvalidArg then Other
            else if Use(a, h) == Ok && a.slots[h].mode == WriteAtomic then
              Committed(h, a.slots[h].path, err == Ok, a.disk, b.log[|a.log|..], b.disk)
            else Released(h)
  }

  predicate DiscardHappened(h: int, a: Snap, e: Event, b: Snap) {
    && b.slots == (if Use(a, h) == InvalidArg then a.slots else a.slots[h := Free])
    && e == if Use(a, h) == InvalidArg then Other else Released(h)
  }

  /** The storage task's section either touches no handle or makes all stale. */
  ghost predicate SectionHappened(a: Snap, e: Event, b: Snap) {
    (e == Departed && Touched(a.slots, b.slots, true)) || (e == Other && b.slots == a.slots)
  }

  /** From a to b one request was answered, and e says what it did. */
  ghost predicate Happened(root: string, a: Snap, q: Request, err: Err, e: Event, b: Snap) {
    && (!q.DoSection? ==> b.state == a.state && b.gen == a.gen)
    && match q
       case DoOpen(dir, name, mode) => OpenHappened(BuildPath(root, dir, name, false), mode, a, err, e, b)
       case DoWrite(h, data) => WriteHappened(h, data, a, err, e, b)
       case DoClose(h) => CloseHappened(h, a, err, e, b)
       case DoDiscard(h) => DiscardHappened(h, a, e, b)
       case DoSection(_) => SectionHappened(a, e, b)
       case _ => e == Other && b.slots == a.slots
  }

  predicate Holds(t: Trace, h: int) {
    0 <= h < SLOTS && Holder(t, h).Some?
  }

  /** The same told by the trace alone: a commit is exactly a close of a handle that is writing
      atomically; a write through one is recorded; and no event is made up. */
  predicate Told(root: string, t: Trace, q: Request, err: Err, e: Event) {
    && (e.Committed? <==> q.DoClose? && Holds(t, q.h))
    && (e.Committed? ==> e.h == q.h && e.ok == (err == Ok))
    && (q.DoWrite? && Holds(t, q.h) ==> e.Wrote?)
    && (e.Wrote? ==> q.DoWrite? && e == Wrote(q.h, q.data, err == Ok))
    && (q.DoOpen? && err == Ok ==> e.Opened?)
    && (e.Opened? || e.OpenFailed? ==>
          && q.DoOpen? && e.mode == q.mode && Some(e.path) == BuildPath(root, q.dir, q.name, false)
          && (e.Opened? <==> err == Ok))
    && (e.Released? ==> (q.DoClose? || q.DoDiscard?) && e.h == q.h)
    && (e.Departed? ==> q.DoSection?)
  }

  /** A handle writes atomically by the trace exactly when it is usable and atomic. */
  lemma {:induction false} HoldsExactly(t: Trace, a: Snap, h: int)
    requires Tracks(t, a.slots, a.marks) && Sane(a)
    ensures Holds(t, h) <==> Use(a, h) == Ok && a.slots[h].mode == WriteAtomic
  {
    hide Holder, OneToOne;
    if 0 <= h < SLOTS {
      assert Follows(t, h, a.slots[h], a.marks[h]);
      assert Live(a.slots[h]) ==> HandleOk(a.slots[h], a.marks[h], a.open, a.disk, a.state, a.gen);
    }
  }

  lemma {:induction false} HappenedIsTold(root: string, t: Trace, a: Snap, q: Request, err: Err, e: Event, b: Snap)
    requires Tracks(t, a.slots, a.marks) && Sane(a) && Happened(root, a, q, err, e, b)
    ensures Told(root, t, q, err, e)
  {
    hide Sane, Tracks, Use, Holds, BuildPath, OpenedAs, OnlyThese, Untouched;
    match q {
      case DoWrite(h, _) => HoldsExactly(t, a, h);
      case DoClose(h) => HoldsExactly(t, a, h);
      case _ =>
    }
  }

  // ---- One section -----------------------------------------------------------

  method Open(s: Service, dir: Dir, name: string, mode: Mode, ghost t: Trace) returns (err: Err, h: int, ghost e: Event)
    requires s.Valid() && Tracks(t, s.files.slots, s.files.marks)
    modifies s, s.core, s.files, s.vol
    ensures s.Valid() && Tracks(t + [e], s.files.slots, s.files.marks)
    ensures Happened(s.files.root, old(Look(s)), DoOpen(dir, name, mode), err, e, Look(s))
    ensures err == Ok ==> e.Opened? && e.h == h
  {
    hide Sound, Volume.Valid, Tracks, MarksAfterOpen, OpensOnly, OwnTmp, BuildPath, Usable, OnDisk;
    ghost var slots, marks, log := s.files.slots, s.files.marks, s.vol.log;
    SoundOwnTmp(slots, marks, s.vol.open, s.vol.files, s.core.state, s.core.generation);
    err, h := s.files.Open(dir, name, mode);
    ghost var path := BuildPath(s.files.root, dir, name, false);
    if err == Ok {
      UsableIsLive(s.files.slots, h, s.core.state, s.core.generation);
      e := Opened(h, mode, path.value);
      TracksOpened(t, slots, marks, h, s.files.slots[h]);
    } else if path.Some? && |s.vol.log| > |log| {
      e := OpenFailed(mode, path.value);
      TracksOpenFailed(t, slots, marks, mode, path.value);
    } else {
      e := Other;
      TracksOther(t, slots, marks);
    }
  }

  method Write(s: Service, h: int, data: seq<byte>, ghost t: Trace) returns (err: Err, ghost e: Event)
    requires s.Valid() && Tracks(t, s.files.slots, s.files.marks)
    modifies s, s.core, s.files, s.vol
    ensures s.Valid() && Tracks(t + [e], s.files.slots, s.files.marks)
    ensures Happened(s.files.root, old(Look(s)), DoWrite(h, data), err, e, Look(s))
  {
    hide Sound, Volume.Valid, Tracks, OnlyThese;
    ghost var slots, marks := s.files.slots, s.files.marks;
    ghost var u := Usable(slots, h, s.core.state, s.core.generation);
    SoundOwnTmp(slots, marks, s.vol.open, s.vol.files, s.core.state, s.core.generation);
    err := s.files.Write(h, data);
    if u == Ok && slots[h].mode != ReadOnly {
      e := Wrote(h, data, err == Ok);
      TracksWrote(t, slots, marks, h, data, err == Ok);
    } else {
      e := Other;
      TracksOther(t, slots, marks);
    }
  }

  method Close(s: Service, h: int, ghost t: Trace) returns (err: Err, ghost e: Event)
    requires s.Valid() && Tracks(t, s.files.slots, s.files.marks)
    modifies s, s.core, s.files, s.vol
    ensures s.Valid() && Tracks(t + [e], s.files.slots, s.files.marks)
    ensures Happened(s.files.root, old(Look(s)), DoClose(h), err, e, Look(s))
    ensures e.Committed? ==> KeepsPromise(t, e)
  {
    hide Sound, Volume.Valid, Tracks, Closing, KeepsPromise, OwnTmp;
    ghost var slots, marks, log, before := s.files.slots, s.files.marks, s.vol.log, s.vol.files;
    ghost var u := Usable(slots, h, s.core.state, s.core.generation);
    SoundOwnTmp(slots, marks, s.vol.open, before, s.core.state, s.core.generation);
    ghost var r;
    err, r := s.files.Close(h);
    if u == InvalidArg {
      e := Other;
      TracksOther(t, slots, marks);
    } else if u == Ok && slots[h].mode == WriteAtomic {
      e := Committed(h, slots[h].path, err == Ok, before, s.vol.log[|log|..], s.vol.files);
      TracksReleased(t, slots, marks, h, e);
      LiveIsWriting(slots, h, s.core.state, s.core.generation);
      Keeps(t, slots, marks, h, log, s.vol.log, e, err, r);
    } else {
      e := Released(h);
      TracksReleased(t, slots, marks, h, e);
    }
  }

  lemma {:induction false} Keeps(t: Trace, slots: seq<File>, marks: seq<Mark>, h: nat, was: seq<Call>, log: seq<Call>,
                                 e: Event, err: Err, r: Replies)
    requires Tracks(t, slots, marks) && OwnTmp(slots) && h < SLOTS && Writing(slots[h]) && was <= log
    requires e.Committed? && e.h == h && e.path == slots[h].path && e.calls == log[|was|..] && e.ok == (err == Ok)
    requires Closing(slots[h], marks[h], was, log, e.before, e.now, err, r)
    ensures KeepsPromise(t, e)
  {
    hide WholeThroughout, Holder, Sent, AllSent, Alone, Replays, OnlyThese;
    assert Follows(t, h, slots[h], marks[h]);
    if AllSent(t, h) && Alone(t, h) {
      CallsAlone(was, log, e.before, e.path, marks[h].written);
    }
  }

  method Discard(s: Service, h: int, ghost t: Trace) returns (ghost e: Event)
    requires s.Valid() && Tracks(t, s.files.slots, s.files.marks)
    modifies s, s.core, s.files, s.vol
    ensures s.Valid() && Tracks(t + [e], s.files.slots, s.files.marks)
    ensures Happened(s.files.root, old(Look(s)), DoDiscard(h), Ok, e, Look(s))
  {
    hide Sound, Volume.Valid, Tracks, OnlyThese;
    ghost var slots, marks := s.files.slots, s.files.marks;
    ghost var u := Usable(slots, h, s.core.state, s.core.generation);
    SoundOwnTmp(slots, marks, s.vol.open, s.vol.files, s.core.state, s.core.generation);
    s.files.Discard(h);
    if u == InvalidArg {
      e := Other;
      TracksOther(t, slots, marks);
    } else {
      e := Released(h);
      TracksReleased(t, slots, marks, h, e);
    }
  }

  method Section(s: Service, now: uint32, ghost t: Trace) returns (ghost e: Event)
    requires s.Valid() && Tracks(t, s.files.slots, s.files.marks)
    modifies s, s.core, s.files, s.vol
    ensures s.Valid() && Tracks(t + [e], s.files.slots, s.files.marks)
    ensures Happened(s.files.root, old(Look(s)), DoSection(now), Ok, e, Look(s))
  {
    hide Sound, Volume.Valid, Tracks;
    ghost var slots, marks := s.files.slots, s.files.marks;
    var _ := s.Section(now);
    if Touched(slots, s.files.slots, true) {
      e := Departed;
      TracksDeparted(t, slots, s.files.slots, marks);
    } else {
      e := Other;
      assert s.files.slots == slots;
      TracksOther(t, slots, marks);
    }
  }

  /** Carries out one request of any task. */
  method Serve(s: Service, q: Request, ghost t: Trace) returns (err: Err, ghost e: Event)
    requires s.Valid() && Tracks(t, s.files.slots, s.files.marks)
    modifies s, s.core, s.files, s.vol
    ensures s.Valid() && Tracks(t + [e], s.files.slots, s.files.marks)
    ensures Happened(s.files.root, old(Look(s)), q, err, e, Look(s)) && Told(s.files.root, t, q, err, e)
    ensures e.Committed? ==> KeepsPromise(t, e)
  {
    hide Sound, Volume.Valid, Tracks, KeepsPromise, OpenHappened, WriteHappened, CloseHappened, DiscardHappened;
    hide SectionHappened, Holds, BuildPath;
    ghost var slots, marks, was := s.files.slots, s.files.marks, Look(s);
    assert Sane(was);
    err, e := Ok, Other;
    TracksOther(t, slots, marks);
    match q {
      case DoOpen(dir, name, mode) =>
        var h;
        err, h, e := Open(s, dir, name, mode, t);
      case DoRead(h, len) =>
        var data;
        err, data := s.files.Read(h, len);
      case DoWrite(h, data) => err, e := Write(s, h, data, t);
      case DoClose(h) => err, e := Close(s, h, t);
      case DoDiscard(h) => e := Discard(s, h, t);
      case DoRemove(dir, name) => err := s.files.Remove(dir, name);
      case DoRename(dir, name, other) => err := s.files.Rename(dir, name, other);
      case DoSection(now) => e := Section(s, now, t);
      case AskEject => s.RequestEject();
      case AskMount => s.RequestMount();
    }
    HappenedIsTold(s.files.root, t, was, q, err, e, Look(s));
  }

  lemma {:induction false} PromisedMore(t: Trace, e: Event)
    requires Promised(t) && (e.Committed? ==> KeepsPromise(t, e))
    ensures Promised(t + [e])
  {
    hide KeepsPromise;
    var u := t + [e];
    forall k | 0 <= k < |u| && u[k].Committed?
      ensures KeepsPromise(u[..k], u[k])
    {
      assert u[..k] == if k < |t| then t[..k] else t;
    }
  }

  lemma TracksNone(slots: seq<File>, marks: seq<Mark>)
    requires |slots| == |marks| == SLOTS && NoLive(slots)
    ensures Tracks([], slots, marks) && Promised([])
  {
  }

  /** The run told in full: each request, its answer, its event, and the service before and after. */
  ghost predicate Story(root: string, qs: seq<Request>, errs: seq<Err>, t: Trace, seen: seq<Snap>) {
    && |errs| == |t| == |qs| && |seen| == |qs| + 1
    && forall k :: 0 <= k < |qs| ==>
         Happened(root, seen[k], qs[k], errs[k], t[k], seen[k + 1]) && Told(root, t[..k], qs[k], errs[k], t[k])
  }

  lemma {:induction false} StoryGoesOn(root: string, qs: seq<Request>, errs: seq<Err>, t: Trace, seen: seq<Snap>,
                                       q: Request, err: Err, e: Event, b: Snap)
    requires Story(root, qs, errs, t, seen)
    requires Happened(root, seen[|qs|], q, err, e, b) && Told(root, t, q, err, e)
    ensures Story(root, qs + [q], errs + [err], t + [e], seen + [b])
  {
    hide Happened, Told;
    forall k | 0 <= k <= |qs|
      ensures Happened(root, (seen + [b])[k], (qs + [q])[k], (errs + [err])[k], (t + [e])[k], (seen + [b])[k + 1])
      ensures Told(root, (t + [e])[..k], (qs + [q])[k], (errs + [err])[k], (t + [e])[k])
    {
      assert (t + [e])[..k] == if k < |t| then t[..k] else t;
    }
  }

  /** Any requests of any tasks, in any order, from a time when no handle is open: the trace is the
      story of exactly these requests, from the service as it was to the service as it is, and every
      commit in it keeps the promise. */
  method AnyRun(s: Service, qs: seq<Request>) returns (errs: seq<Err>, ghost t: Trace, ghost seen: seq<Snap>)
    requires s.Valid() && NoLive(s.files.slots)
    modifies s, s.core, s.files, s.vol
    ensures s.Valid() && Tracks(t, s.files.slots, s.files.marks)
    ensures Story(s.files.root, qs, errs, t, seen) && seen[0] == old(Look(s)) && seen[|qs|] == Look(s)
    ensures Promised(t)
  {
    hide Sound, Volume.Valid, Tracks, KeepsPromise, Promised, Happened, Told;
    SoundOwnTmp(s.files.slots, s.files.marks, s.vol.open, s.vol.files, s.core.state, s.core.generation);
    TracksNone(s.files.slots, s.files.marks);
    errs, t, seen := [], [], [Look(s)];
    var i := 0;
    while i < |qs|
      invariant i <= |qs| && Story(s.files.root, qs[..i], errs, t, seen)
      invariant seen[0] == old(Look(s)) && seen[i] == Look(s)
      invariant s.Valid() && Tracks(t, s.files.slots, s.files.marks) && Promised(t)
    {
      var err;
      ghost var e;
      err, e := Serve(s, qs[i], t);
      PromisedMore(t, e);
      StoryGoesOn(s.files.root, qs[..i], errs, t, seen, qs[i], err, e, Look(s));
      assert qs[..i + 1] == qs[..i] + [qs[i]];
      errs, t, seen := errs + [err], t + [e], seen + [Look(s)];
      i := i + 1;
    }
    assert qs[..i] == qs;
  }
}
