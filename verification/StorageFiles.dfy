/** Files on the card and the atomic replace (components/stark_storage/storage_file.c). Each
    method is one locked section. */
module StorageFiles {
  import opened Stark
  import opened StorageCore
  import opened StoragePath
  import opened StorageVolume

  const SLOTS := 4

  datatype File = File(used: bool, stale: bool, fd: int, generation: uint32, mode: Mode, path: string, tmp: string)

  const Free := File(false, false, 0, 0, ReadOnly, "", "")

  predicate Live(f: File) {
    f.used && !f.stale
  }

  // ---- Closing an atomic write -----------------------------------------------

  /** What the file system answers during a close; synced and closed are what a failed call
      leaves of the file. */
  datatype Replies = Replies(sync: Reply, synced: seq<byte>, close: Reply, closed: seq<byte>,
                             unlink: Reply, rename: Reply, drop: Reply)

  /** Before any call: nothing has been unlinked or renamed. */
  const NotCalled := Replies(Done, [], Done, [], Failed(OtherErrno), Failed(OtherErrno), Failed(OtherErrno))

  function Failure(r: Reply): (err: Err)
    ensures err == Ok <==> r.Done?
  {
    if r.Done? then Ok else MapErrno(r.errno)
  }

  /** The disk after each call of the close, and its result. */
  datatype Replaced = Replaced(err: Err, after: seq<Disk>)

  function AfterCall(d: Disk, name: string, r: Reply, c: seq<byte>): Disk {
    if r.Done? then d else Spoilt(d, name, c)
  }

  function AfterRename(d: Disk, tmp: string, path: string, r: Reply): Disk {
    if r.Done? && tmp in d then Renamed(d, tmp, path) else d
  }

  function AfterUnlink(d: Disk, name: string, r: Reply): Disk {
    if r.Done? then Without(d, name) else d
  }

  /** The old file goes and the new one takes its name. */
  function Swapped(d: Disk, path: string, tmp: string, r: Replies): (so: Replaced)
    ensures so.after != []
  {
    var d1 := AfterUnlink(d, path, r.unlink);
    if r.unlink.Failed? && r.unlink.errno != NoEnt then Replaced(Failure(r.unlink), [d1])
    else Replaced(Failure(r.rename), [d1, AfterRename(d1, tmp, path, r.rename)])
  }

  function Last(d: Disk, after: seq<Disk>): Disk {
    if after == [] then d else after[|after| - 1]
  }

  /** The calls after the descriptor is closed, which so far went with result e. */
  function Install(d: Disk, e: Err, path: string, tmp: string, r: Replies): Replaced {
    var so := if e == Ok then Swapped(d, path, tmp, r) else Replaced(e, []);
    if so.err == Ok || so.err == Io then so
    else Replaced(so.err, so.after + [AfterUnlink(Last(d, so.after), tmp, r.drop)])
  }

  function Replace(d: Disk, path: string, tmp: string, r: Replies): Replaced {
    var d1 := AfterCall(d, tmp, r.sync, r.synced);
    var d2 := AfterCall(d1, tmp, r.close, r.closed);
    var rest := Install(d2, if r.sync.Failed? then Failure(r.sync) else Failure(r.close), path, tmp, r);
    Replaced(rest.err, [d1, d2] + rest.after)
  }

  /** The final name holds the complete old file, the complete new bytes, or nothing; and
      nothing only if it held nothing before or the unlink has been done. */
  ghost predicate Whole(was: Disk, now: Disk, path: string, bytes: seq<byte>, unlinked: bool) {
    && (path in now ==> now[path] == bytes || (path in was && now[path] == was[path]))
    && (path !in now ==> path !in was || unlinked)
  }

  ghost predicate OnlyThese(was: Disk, now: Disk, path: string, tmp: string) {
    forall n :: n != path && n != tmp ==> (n in now <==> n in was) && (n in now ==> now[n] == was[n])
  }

  lemma {:induction false} InstallIsWhole(d: Disk, e: Err, path: string, tmp: string, bytes: seq<byte>, r: Replies,
                                          k: nat)
    requires (e == Ok ==> tmp in d && d[tmp] == bytes) && path != tmp
    requires k < |Install(d, e, path, tmp, r).after|
    ensures var now := Install(d, e, path, tmp, r).after[k];
            && Whole(d, now, path, bytes, r.unlink.Done?) && OnlyThese(d, now, path, tmp)
            && (Install(d, e, path, tmp, r).err != Ok && path in now ==> path in d && now[path] == d[path])
  {
    hide Failure, MapErrno;
  }

  lemma {:induction false} InstallOnly(d: Disk, e: Err, path: string, tmp: string, r: Replies)
    ensures var after := Install(d, e, path, tmp, r).after;
            OnlyThese(d, if after == [] then d else after[|after| - 1], path, tmp)
  {
    hide Failure, MapErrno;
  }

  /** After any prefix of a close's calls, failing ones included, the final name is whole and
      no other file has changed; a failing close never puts anything but the old file there. */
  lemma {:induction false} ReplaceIsWhole(d: Disk, path: string, tmp: string, bytes: seq<byte>, r: Replies, k: nat)
    requires tmp in d && d[tmp] == bytes && path != tmp
    requires k < |Replace(d, path, tmp, r).after|
    ensures var now := Replace(d, path, tmp, r).after[k];
            && Whole(d, now, path, bytes, k >= 2 && r.unlink.Done?)
            && OnlyThese(d, now, path, tmp)
            && (Replace(d, path, tmp, r).err != Ok && path in now ==> path in d && now[path] == d[path])
  {
    hide Failure, MapErrno, Install, Spoilt;
    var d1 := AfterCall(d, tmp, r.sync, r.synced);
    var d2 := AfterCall(d1, tmp, r.close, r.closed);
    SpoiltOnly(d, d1, tmp, r.sync, r.synced);
    SpoiltOnly(d1, d2, tmp, r.close, r.closed);
    if k >= 2 {
      var e := if r.sync.Failed? then Failure(r.sync) else Failure(r.close);
      InstallIsWhole(d2, e, path, tmp, bytes, r, k - 2);
    }
    assert OnlyThese(d, d1, tmp, tmp) && OnlyThese(d1, d2, tmp, tmp);
  }

  /** A close that returns OK installed the new bytes and left no temporary file. */
  lemma {:induction false} ReplaceInstalls(d: Disk, path: string, tmp: string, bytes: seq<byte>, r: Replies)
    requires tmp in d && d[tmp] == bytes && path != tmp
    ensures var after := Replace(d, path, tmp, r).after;
            && |after| >= 2
            && (Replace(d, path, tmp, r).err == Ok <==>
                r.sync.Done? && r.close.Done? && (r.unlink.Done? || r.unlink.errno == NoEnt) && r.rename.Done?)
            && (Replace(d, path, tmp, r).err == Ok ==>
                  var now := after[|after| - 1]; path in now && now[path] == bytes && tmp !in now)
  {
  }

  /** The final name now holds what the temporary one held, and that is gone. */
  ghost predicate Installed(was: Disk, now: Disk, path: string, tmp: string) {
    tmp in was && path in now && now[path] == was[tmp] && tmp !in now
  }

  /** The final name has been unlinked by one of the calls from the was-th to the k-th. */
  ghost predicate GoneBy(log: seq<Call>, was: nat, k: nat, path: string) {
    exists j :: was <= j <= k && j < |log| && log[j].op == OpUnlink(path) && log[j].ok
  }

  /** Every call from the was-th in the log left the final name whole, and missing only once it
      had been unlinked. */
  ghost predicate WholeThroughout(was: nat, log: seq<Call>, d: Disk, path: string, bytes: seq<byte>) {
    forall k :: was <= k < |log| ==> Whole(d, log[k].after, path, bytes, GoneBy(log, was, k, path))
  }

  /** An unlink of the final name that is reported done is the third call of the close. */
  ghost predicate UnlinkLogged(log: seq<Call>, at: nat, path: string, r: Reply) {
    r.Done? ==> at < |log| && log[at].op == OpUnlink(path) && log[at].ok
  }

  lemma {:induction false} TrailIsWhole(was: seq<Call>, log: seq<Call>, d: Disk, path: string, tmp: string,
                                        bytes: seq<byte>, r: Replies)
    requires Trail(was, log, Replace(d, path, tmp, r).after) && tmp in d && d[tmp] == bytes && path != tmp
    requires UnlinkLogged(log, |was| + 2, path, r.unlink)
    ensures WholeThroughout(|was|, log, d, path, bytes)
  {
    hide Replace, Whole;
    var after := Replace(d, path, tmp, r).after;
    forall k | |was| <= k < |log|
      ensures Whole(d, log[k].after, path, bytes, GoneBy(log, |was|, k, path))
    {
      assert log[|was| + (k - |was|)].after == after[k - |was|];
      ReplaceIsWhole(d, path, tmp, bytes, r, k - |was|);
      if k >= |was| + 2 && r.unlink.Done? {
        assert log[|was| + 2].op == OpUnlink(path);
        assert GoneBy(log, |was|, k, path);
      }
      WholeSooner(d, log[k].after, path, bytes, k - |was| >= 2 && r.unlink.Done?, GoneBy(log, |was|, k, path));
    }
  }

  lemma WholeSooner(d: Disk, now: Disk, path: string, bytes: seq<byte>, a: bool, b: bool)
    requires Whole(d, now, path, bytes, a) && (a ==> b)
    ensures Whole(d, now, path, bytes, b)
  {
  }

  /** Both copies are lost exactly when the old file was unlinked, the rename failed with
      something other than an I/O error, and the temporary copy was then dropped. */
  lemma {:induction false} BothCopiesLost(d: Disk, path: string, tmp: string, r: Replies)
    requires tmp in d && path in d && path != tmp
    ensures var after := Replace(d, path, tmp, r).after;
            |after| >= 2
            && (path !in after[|after| - 1] && tmp !in after[|after| - 1] <==>
                r.sync.Done? && r.close.Done? && r.unlink.Done?
                && r.rename.Failed? && Failure(r.rename) != Io && r.drop.Done?)
  {
  }

  /** For all answers, a close that returns OK installs what the temporary file held when it
      began; so it installs the handle's own bytes exactly when that file still held them. */
  lemma {:induction false} InstallsOwnExactly(d: Disk, path: string, tmp: string, bytes: seq<byte>, r: Replies)
    requires path != tmp && (r.rename.Done? ==> tmp in d) && Replace(d, path, tmp, r).err == Ok
    ensures var after := Replace(d, path, tmp, r).after;
            && |after| >= 2
            && var now := after[|after| - 1];
               tmp in d && path in now && tmp !in now && (now[path] == bytes <==> d[tmp] == bytes)
  {
  }

  // ---- Handles ---------------------------------------------------------------

  /** What has been written through a handle: all of it arrived, and no other open handle has
      used the same temporary name. */
  datatype Mark = Mark(written: seq<byte>, whole: bool, shared: bool)

  function OnDisk(f: File): string {
    if f.mode == WriteAtomic then f.tmp else f.path
  }

  /** A live handle belongs to the mounted generation and its descriptor is open on its file;
      a temporary file written completely and alone holds exactly the bytes written. */
  ghost predicate HandleOk(f: File, m: Mark, open: map<nat, Descriptor>, files: Disk, state: MountState, gen: uint32) {
    && state == Mounted && f.generation == gen
    && f.fd >= 0 && f.fd in open && open[f.fd].name == OnDisk(f) && open[f.fd].append == (f.mode == Append)
    && !IsTmp(f.path) && f.tmp == f.path + TMP
    && (f.mode == WriteAtomic && m.whole && !m.shared ==>
          f.tmp in files && files[f.tmp] == m.written && open[f.fd].pos == |m.written|)
  }

  predicate SharesTmp(a: File, b: File) {
    Live(a) && Live(b) && a.mode == WriteAtomic && b.mode == WriteAtomic && a.tmp == b.tmp
  }

  ghost predicate Owned(slots: seq<File>, fd: int) {
    exists i :: 0 <= i < |slots| && Live(slots[i]) && slots[i].fd == fd
  }

  /** Descriptors and live handles correspond one to one. */
  ghost predicate OneToOne(slots: seq<File>, open: map<nat, Descriptor>) {
    && (forall i :: 0 <= i < |slots| && Live(slots[i]) ==> slots[i].fd >= 0 && slots[i].fd in open)
    && (forall i, j :: 0 <= i < j < |slots| && Live(slots[i]) && Live(slots[j]) ==> slots[i].fd != slots[j].fd)
    && (forall fd :: fd in open ==> Owned(slots, fd))
  }

  ghost predicate Sound(slots: seq<File>, marks: seq<Mark>, open: map<nat, Descriptor>, files: Disk,
                        state: MountState, gen: uint32)
  {
    && |slots| == |marks| == SLOTS && OneToOne(slots, open)
    && (forall i :: 0 <= i < SLOTS && Live(slots[i]) ==> HandleOk(slots[i], marks[i], open, files, state, gen))
    && (forall i, j :: 0 <= i < SLOTS && 0 <= j < SLOTS && i != j && SharesTmp(slots[i], slots[j]) ==> marks[i].shared)
  }

  function Used(slots: seq<File>): (n: nat)
    ensures n <= |slots|
    ensures n == 0 <==> forall k :: 0 <= k < |slots| ==> !slots[k].used
    ensures n == |slots| <==> forall k :: 0 <= k < |slots| ==> slots[k].used
  {
    if slots == [] then 0
    else Used(slots[..|slots| - 1]) + (if slots[|slots| - 1].used then 1 else 0)
  }

  /** OK when the slot holds an open handle of the current mount. */
  function Usable(slots: seq<File>, h: int, state: MountState, gen: uint32): Err {
    if !(0 <= h < |slots|) || !slots[h].used then InvalidArg
    else if slots[h].stale || state != Mounted || gen != slots[h].generation then Io
    else Ok
  }

  /** The marks once path has been opened in a mode, by handle h, or by none when it failed: a
      failed open may have emptied the temporary file as well. */
  ghost function MarksAfterOpen(slots: seq<File>, marks: seq<Mark>, h: int, path: string, mode: Mode): seq<Mark>
    requires |slots| == |marks|
  {
    var shared := if mode == WriteAtomic then Share(slots, marks, path + TMP) else marks;
    if 0 <= h < |marks| then shared[h := Mark([], true, TmpInUse(slots, path + TMP))] else shared
  }

  /** What opening path may do to the disk. */
  ghost predicate OpensOnly(was: Disk, now: Disk, path: string, mode: Mode, ok: bool) {
    var name := if mode == WriteAtomic then path + TMP else path;
    && OnlyThese(was, now, name, name)
    && (mode == ReadOnly ==> now == was)
    && (ok && mode == WriteAtomic ==> now == was[name := []])
    && (ok && mode == Append ==> now == if name in was then was else was[name := []])
  }

  /** The calls logged left the disk as `so` says, one by one, with its result. */
  ghost predicate Replays(was: seq<Call>, log: seq<Call>, now: Disk, err: Err, so: Replaced) {
    err == so.err && Trail(was, log, so.after) && |so.after| > 0 && now == so.after[|so.after| - 1]
  }

  /** What closing a usable handle does to the disk. For an atomic write: the calls of Replace, in
      order; OK installs what the temporary file held; and if all its writes arrived and nobody
      shared that file, it held exactly the bytes written and every call left the final name whole. */
  ghost predicate Closing(f: File, m: Mark, was: seq<Call>, log: seq<Call>, files: Disk, now: Disk, err: Err,
                          r: Replies)
  {
    && OnlyThese(files, now, f.path, OnDisk(f))
    && (f.mode == WriteAtomic ==>
          && Replays(was, log, now, err, Replace(files, f.path, f.tmp, r))
          && (err == Ok ==> Installed(files, now, f.path, f.tmp))
          && (m.whole && !m.shared ==>
                && WholeThroughout(|was|, log, files, f.path, m.written)
                && f.tmp in files && files[f.tmp] == m.written))
  }

  lemma TmpIsTmp(s: string)
    ensures IsTmp(s + TMP) && s + TMP != s
  {
    assert (s + TMP)[|s|..] == TMP;
  }

  class Files {
    const vol: Volume
    const core: Core
    const root: string
    var slots: seq<File>
    var ioError: bool
    ghost var marks: seq<Mark>

    /** What holds whenever the storage lock is free. */
    ghost predicate Valid()
      reads this, vol, core
    {
      vol.Valid() && Sound(slots, marks, vol.open, vol.files, core.state, core.generation)
    }

    constructor (vol: Volume, core: Core, root: string)
      requires vol.Valid() && vol.open == map[]
      ensures Valid() && this.vol == vol && this.core == core && this.root == root
      ensures forall k :: 0 <= k < SLOTS ==> !slots[k].used
      ensures |slots| == SLOTS && !ioError
    {
      this.vol, this.core, this.root := vol, core, root;
      slots := [Free, Free, Free, Free];
      marks := [Mark([], false, false), Mark([], false, false), Mark([], false, false), Mark([], false, false)];
      ioError := false;
    }

    /** Maps a failed call's errno; an I/O error asks for a probe. */
    method Fail(errno: Errno) returns (err: Err)
      modifies this`ioError
      ensures err == MapErrno(errno) && (ioError <==> old(ioError) || err == Io)
    {
      err := MapErrno(errno);
      if err == Io {
        ioError := true;
      }
    }

    method OpenCount() returns (n: nat)
      ensures n == Used(slots)
    {
      n := 0;
      var i := 0;
      while i < |slots|
        invariant i <= |slots| && n == Used(slots[..i])
      {
        assert slots[..i + 1][..i] == slots[..i];
        n := n + (if slots[i].used then 1 else 0);
        i := i + 1;
      }
      assert slots[..i] == slots;
    }

    /** Before the volume goes away: closes every open descriptor, each once, and marks its
        handle stale. */
    method Invalidate(ghost gen: uint32)
      requires vol.Valid() && Sound(slots, marks, vol.open, vol.files, Mounted, gen)
      modifies this`slots, vol
      ensures Valid() && vol.open == map[] && vol.drawn == old(vol.drawn)
      ensures |slots| == |old(slots)|
      ensures forall k :: 0 <= k < |slots| ==>
                slots[k] == old(slots)[k].(stale := old(slots)[k].used || old(slots)[k].stale)
    {
      hide HandleOk, Spoilt, Owned, Volume.Valid;
      var i := 0;
      while i < SLOTS
        invariant i <= SLOTS == |slots| && vol.Valid() && OneToOne(slots, vol.open) && vol.drawn == old(vol.drawn)
        invariant forall k :: 0 <= k < SLOTS ==>
                    slots[k] == if k < i then old(slots)[k].(stale := old(slots)[k].used || old(slots)[k].stale)
                                else old(slots)[k]
      {
        if slots[i].used && !slots[i].stale {
          ghost var was, open := slots, vol.open;
          var _, _ := vol.CloseFile(slots[i].fd);
          slots := slots[i := slots[i].(stale := true)];
          SlotLeaves(was, open, i, slots[i]);
        }
        i := i + 1;
      }
      NoneLive(slots, vol.open);
    }

    method FreeSlot() returns (h: int)
      requires |slots| == SLOTS
      ensures -1 <= h < SLOTS && (h >= 0 ==> !slots[h].used)
      ensures h < 0 <==> Used(slots) == SLOTS
    {
      h := 0;
      while h < SLOTS && slots[h].used
        invariant 0 <= h <= SLOTS && forall k :: 0 <= k < h ==> slots[k].used
      {
        h := h + 1;
      }
      if h == SLOTS {
        h := -1;
      }
    }

    /** Opens dir/name; an atomic write goes to its temporary name until it is closed. */
    method Open(dir: Dir, name: string, mode: Mode) returns (err: Err, h: int)
      requires Valid()
      modifies this`slots, this`marks, this`ioError, vol
      ensures Valid() && (ioError <==> old(ioError) || (|vol.log| > |old(vol.log)| && err == Io))
      ensures BuildPath(root, dir, name, false).None? || BuildPath(root, dir, name, true).None? ==> err == InvalidArg
      ensures var bad := BuildPath(root, dir, name, false).None? || BuildPath(root, dir, name, true).None?;
              && (!bad && core.state != Mounted ==> err == Err.State)
              && (!bad && core.state == Mounted && Used(old(slots)) == SLOTS ==> err == Busy)
              && (bad || core.state != Mounted || Used(old(slots)) == SLOTS ==>
                    vol.log == old(vol.log) && vol.files == old(vol.files) && marks == old(marks))
      ensures err != Ok ==> slots == old(slots) && vol.open == old(vol.open)
      ensures err == Ok ==>
                && 0 <= h < SLOTS && !old(slots)[h].used
                && vol.drawn == old(vol.drawn) + 1 && |vol.log| > |old(vol.log)|
                && slots == old(slots)[h := slots[h]] && Usable(slots, h, core.state, core.generation) == Ok
                && slots[h].mode == mode && Some(slots[h].path) == BuildPath(root, dir, name, false)
                && slots[h].tmp == slots[h].path + TMP && slots[h].fd >= 0 && slots[h].fd !in old(vol.open)
                && vol.open == old(vol.open)[slots[h].fd :=
                                  Descriptor(old(vol.drawn), OnDisk(slots[h]), 0, mode == Append)]
      // Only the file it opens may change, and only who shares a temporary file is marked.
      ensures match BuildPath(root, dir, name, false)
              case None => vol.files == old(vol.files) && marks == old(marks)
              case Some(path) =>
                && |old(slots)| == |old(marks)| && OpensOnly(old(vol.files), vol.files, path, mode, err == Ok)
                && marks == (if |vol.log| > |old(vol.log)|
                             then MarksAfterOpen(old(slots), old(marks), if err == Ok then h else -1, path, mode)
                             else old(marks))
    {
      var path, tmp := BuildPath(root, dir, name, false), BuildPath(root, dir, name, true);
      h := -1;
      if path.None? || tmp.None? {
        return InvalidArg, -1;
      }
      FinalIsNotTmp(root, dir, name);
      TmpIsTmp(path.value);
      var slot := FreeSlot();
      if core.state != Mounted {
        err := Err.State;
      } else if slot < 0 {
        err := Busy;
      } else {
        err := Create(slot, path.value, tmp.value, mode);
        h := if err == Ok then slot else -1;
      }
    }

    method Create(slot: nat, path: string, tmp: string, mode: Mode) returns (err: Err)
      requires Valid() && core.state == Mounted && slot < SLOTS && !slots[slot].used
      requires !IsTmp(path) && tmp == path + TMP && IsTmp(tmp)
      modifies this`slots, this`marks, this`ioError, vol
      ensures Valid() && |vol.log| > |old(vol.log)| && (ioError <==> old(ioError) || err == Io)
      ensures err != Ok ==> slots == old(slots) && vol.open == old(vol.open)
      ensures err == Ok ==>
                && vol.drawn == old(vol.drawn) + 1 && slots == old(slots)[slot := slots[slot]] && Live(slots[slot])
                && slots[slot].mode == mode && slots[slot].path == path && slots[slot].tmp == tmp
                && slots[slot].generation == core.generation && slots[slot].fd >= 0 && slots[slot].fd !in old(vol.open)
                && vol.open == old(vol.open)[slots[slot].fd :=
                                  Descriptor(old(vol.drawn), OnDisk(slots[slot]), 0, mode == Append)]
      ensures OpensOnly(old(vol.files), vol.files, path, mode, err == Ok)
      ensures |old(slots)| == |old(marks)|
      ensures marks == MarksAfterOpen(old(slots), old(marks), if err == Ok then slot else -1, path, mode)
    {
      hide OneToOne, HandleOk, Sound, Volume.Valid, MarksAfterOpen, IsTmp, MapErrno;
      err := Ok;
      ghost var was, open, files := marks, vol.open, vol.files;
      SoundParts(slots, marks, open, files, core.state, core.generation);
      var fd, errno, _ := vol.OpenFile(if mode == WriteAtomic then tmp else path, mode);
      marks := MarksAfterOpen(slots, was, if fd < 0 then -1 else slot, path, mode);
      if fd < 0 {
        FailedOpen(slots, was, open, files, vol.files, core.state, core.generation, path, mode);
        err := Fail(errno);
      } else {
        var f := File(true, false, fd, core.generation, mode, path, tmp);
        OpenArrives(slots, was, slot, f, open, vol.open[fd], files, vol.files, core.state, core.generation);
        slots := slots[slot := f];
      }
    }

    /** Reads on at the handle's position. */
    method Read(h: int, len: nat) returns (err: Err, data: seq<byte>)
      requires Valid()
      modifies this`ioError, vol
      ensures Valid() && vol.files == old(vol.files)
      ensures ioError <==> old(ioError) || (|vol.log| > |old(vol.log)| && err == Io)
      ensures var u := Usable(slots, h, core.state, core.generation);
              && (u != Ok ==> err == u) && (u == Ok && slots[h].mode != ReadOnly ==> err == Err.State)
              && (u != Ok || slots[h].mode != ReadOnly ==> unchanged(vol))
              && (u == Ok && slots[h].mode == ReadOnly ==>
                    && slots[h].fd in old(vol.open) && slots[h].fd in vol.open
                    && vol.open == old(vol.open)[slots[h].fd := vol.open[slots[h].fd]])
      ensures err == Ok && slots[h].path in vol.files ==>
                var c, p := vol.files[slots[h].path], old(vol.open)[slots[h].fd].pos;
                && |data| <= len && vol.open[slots[h].fd].pos == p + |data|
                && data == if p + |data| <= |c| then c[p..p + |data|] else []
    {
      hide OneToOne, HandleOk, Sound, Volume.Valid, Share, TmpInUse;
      data := [];
      err := Usable(slots, h, core.state, core.generation);
      if err == Ok && slots[h].mode != ReadOnly {
        err := Err.State;
      }
      if err == Ok {
        LiveHandle(slots, marks, h, vol.open, vol.files, core.state, core.generation);
        hide Usable;
        ghost var open := vol.open;
        var n, got, errno := vol.ReadFile(slots[h].fd, len);
        if n < 0 {
          err := Fail(errno);
        } else {
          data := got;
        }
        HandleStaysOpen(slots[h], marks[h], open, vol.open, vol.files, core.state, core.generation);
        HandleUsed(slots, marks, h, marks[h], open, vol.open, vol.files, vol.files, core.state, core.generation);
        assert marks[h := marks[h]] == marks;
      }
    }

    /** Writes all the data or fails. */
    method Write(h: int, data: seq<byte>) returns (err: Err)
      requires Valid()
      modifies this`marks, this`ioError, vol
      ensures Valid() && (ioError <==> old(ioError) || (|vol.log| > |old(vol.log)| && err == Io))
      ensures var u := Usable(slots, h, core.state, core.generation);
              && (u != Ok ==> err == u) && (u == Ok && slots[h].mode == ReadOnly ==> err == Err.State)
              && (u != Ok || slots[h].mode == ReadOnly ==> unchanged(vol) && marks == old(marks))
              && (u == Ok && slots[h].mode != ReadOnly ==>
                    && marks == old(marks)[h := Mark(old(marks)[h].written + data,
                                                     old(marks)[h].whole && err == Ok, old(marks)[h].shared)]
                    && slots[h].fd in vol.open && vol.open == old(vol.open)[slots[h].fd := vol.open[slots[h].fd]]
                    && OnlyThese(old(vol.files), vol.files, OnDisk(slots[h]), OnDisk(slots[h])))
      ensures err == Ok ==>
                vol.files == Written(old(vol.files), OnDisk(slots[h]), old(vol.WriteAt(slots[h].fd)), data)
    {
      hide Sound, OneToOne, HandleOk, OnlyThese, Written, Volume.Valid;
      err := Usable(slots, h, core.state, core.generation);
      if err == Ok && slots[h].mode == ReadOnly {
        err := Err.State;
      }
      if err != Ok {
        return;
      }
      LiveHandle(slots, marks, h, vol.open, vol.files, core.state, core.generation);
      hide Usable;
      ghost var open, files := vol.open, vol.files;
      ghost var m := Mark(marks[h].written + data, marks[h].whole, marks[h].shared);
      err := WriteAll(slots[h].fd, data);
      OnlyOfTwo(files, vol.files, slots[h].path, OnDisk(slots[h]));
      WroteOk(slots[h], marks[h], data, err == Ok, open, vol.open, files, vol.files, core.state, core.generation);
      HandleUsed(slots, marks, h, m.(whole := m.whole && err == Ok), open, vol.open, files, vol.files, core.state,
                 core.generation);
      marks := marks[h := m.(whole := m.whole && err == Ok)];
    }

    method WriteAll(fd: int, data: seq<byte>) returns (err: Err)
      requires vol.Valid() && fd in vol.open && fd >= 0
      modifies this`ioError, vol
      ensures vol.Valid() && fd in vol.open && (ioError <==> old(ioError) || (|vol.log| > |old(vol.log)| && err == Io))
      ensures var d := old(vol.open)[fd];
              && vol.open == old(vol.open)[fd := d.(pos := vol.open[fd].pos)]
              && OnlyThese(old(vol.files), vol.files, d.name, d.name)
              && (err == Ok ==>
                    && vol.files == Written(old(vol.files), d.name, old(vol.WriteAt(fd)), data)
                    && vol.open[fd].pos == if data == [] then d.pos else old(vol.WriteAt(fd)) + |data|)
    {
      hide *;
      SameDisk(vol.files, vol.open[fd].name);
      err := Ok;
      ghost var d, at, was := vol.open[fd], vol.WriteAt(fd), vol.files;
      var rest := data;
      ghost var sent: seq<byte> := [];
      while err == Ok && |rest| > 0
        invariant vol.Valid() && fd in vol.open && sent + rest == data
        invariant vol.open == old(vol.open)[fd := d.(pos := vol.open[fd].pos)]
        invariant OnlyThese(was, vol.files, d.name, d.name)
        invariant err == Ok ==> vol.files == Written(was, d.name, at, sent) && vol.WriteAt(fd) == at + |sent|
        invariant err == Ok ==> vol.open[fd].pos == if sent == [] then d.pos else at + |sent|
        invariant err == Ok ==> ioError == old(ioError)
        invariant |vol.log| >= |old(vol.log)|
        invariant ioError <==> old(ioError) || (|vol.log| > |old(vol.log)| && err == Io)
        decreases |rest| + if err == Ok then 1 else 0
      {
        ghost var before := vol.files;
        var n, errno, junk := vol.WriteFile(fd, rest);
        OneChanges(was, before, d.name, at + |sent|, if n > 0 then rest[..n] else [], junk);
        if n < 0 {
          err := Fail(errno);
        } else if n == 0 {
          err := NoSpace;
        } else {
          WrittenOn(was, d.name, at, sent, rest[..n]);
          sent := sent + rest[..n];
          rest := rest[n..];
        }
      }
      assert rest == [] ==> sent + rest == sent;
    }

    /** The calls of a close, in order. FAT cannot rename over a file, so the old one goes
        before an atomic write is installed. */
    method Commit(f: File) returns (err: Err, ghost r: Replies)
      requires vol.Valid() && f.fd >= 0 && f.fd in vol.open && vol.open[f.fd].name == OnDisk(f)
      modifies this`ioError, vol
      ensures vol.Valid() && vol.open == old(vol.open) - {f.fd} && vol.drawn == old(vol.drawn)
      ensures |vol.log| > |old(vol.log)| && old(vol.log) <= vol.log
      ensures OnlyThese(old(vol.files), vol.files, f.path, OnDisk(f))
      ensures ioError <==> old(ioError) || err == Io
      ensures f.mode == WriteAtomic ==>
                && Replays(old(vol.log), vol.log, vol.files, err, Replace(old(vol.files), f.path, f.tmp, r))
                && UnlinkLogged(vol.log, |old(vol.log)| + 2, f.path, r.unlink)
                && (err == Ok ==> f.tmp in old(vol.files))
    {
      hide Trail, MapErrno, Spoilt, Without, Renamed, Install, Failure, Volume.Valid;
      ghost var was, d := vol.log, vol.files;
      r := NotCalled;
      err := Ok;
      if f.mode != ReadOnly {
        var sync, junk := vol.SyncFile(f.fd);
        r := r.(sync := sync, synced := junk);
        if sync.Failed? {
          err := Fail(sync.errno);
        }
      }
      ghost var d1, log1 := vol.files, vol.log;
      var close, junk := vol.CloseFile(f.fd);
      r := r.(close := close, closed := junk);
      if close.Failed? && err == Ok {
        err := Fail(close.errno);
      }
      ghost var d2, log2, e := vol.files, vol.log, err;
      SpoiltOnly(d, d1, OnDisk(f), r.sync, r.synced);
      SpoiltOnly(d1, d2, OnDisk(f), r.close, r.closed);
      if f.mode == WriteAtomic {
        TrailOfTwo(was, log1, log2, d1, d2);
        assert e == (if r.sync.Failed? then Failure(r.sync) else Failure(r.close)) by {
          FailureIs(r.sync);
          FailureIs(r.close);
        }
        err, r := InstallNew(f.path, f.tmp, err, r);
        TrailJoins(was, log2, vol.log, [d1, d2], Install(d2, e, f.path, f.tmp, r).after);
      }
      OnlyTheseTwice(d, d1, d2, f.path, OnDisk(f));
      OnlyTheseTwice(d, d2, vol.files, f.path, OnDisk(f));
    }

    method InstallNew(path: string, tmp: string, e: Err, ghost was: Replies) returns (err: Err, ghost r: Replies)
      requires vol.Valid()
      modifies this`ioError, vol
      ensures vol.Valid() && vol.open == old(vol.open) && vol.drawn == old(vol.drawn)
      ensures old(vol.log) <= vol.log && OnlyThese(old(vol.files), vol.files, path, tmp)
      ensures ioError <==> old(ioError) || (e == Ok && err == Io)
      ensures e != Ok ==> err == e
      ensures r == was.(unlink := r.unlink, rename := r.rename, drop := r.drop)
      ensures was.unlink.Failed? ==> UnlinkLogged(vol.log, |old(vol.log)|, path, r.unlink)
      ensures err == Ok ==> tmp in old(vol.files)
      ensures var so := Install(old(vol.files), e, path, tmp, r);
              && err == so.err && Trail(old(vol.log), vol.log, so.after) && vol.files == Last(old(vol.files), so.after)
    {
      hide MapErrno, Spoilt, Without, Renamed, OnlyThese, Volume.Valid, Trail;
      err, r := e, was;
      ghost var after: seq<Disk> := [];
      NoTrail(vol.log);
      if err == Ok {
        err, r := Swap(path, tmp, was);
        after := Swapped(old(vol.files), path, tmp, r).after;
      }
      if err != Ok && err != Io {
        TrailMore(old(vol.log), vol.log, after);
        var drop := vol.UnlinkFile(tmp);
        r, after := r.(drop := drop), after + [vol.files];
      }
      InstallOnly(old(vol.files), e, path, tmp, r);
    }

    /** The old file goes and the new one takes its name. */
    method Swap(path: string, tmp: string, ghost was: Replies) returns (err: Err, ghost r: Replies)
      requires vol.Valid()
      modifies this`ioError, vol
      ensures vol.Valid() && vol.open == old(vol.open) && vol.drawn == old(vol.drawn) && old(vol.log) <= vol.log
      ensures ioError <==> old(ioError) || err == Io
      ensures r == was.(unlink := r.unlink, rename := r.rename)
      ensures UnlinkLogged(vol.log, |old(vol.log)|, path, r.unlink)
      ensures err == Ok ==> tmp in old(vol.files)
      ensures var so := Swapped(old(vol.files), path, tmp, r);
              && err == so.err && Trail(old(vol.log), vol.log, so.after) && vol.files == Last(old(vol.files), so.after)
    {
      hide MapErrno, Spoilt, Without, Renamed, OnlyThese, Volume.Valid, Trail;
      err, r := Ok, was;
      NoTrail(vol.log);
      TrailMore(vol.log, vol.log, []);
      var unlink := vol.UnlinkFile(path);
      r := r.(unlink := unlink);
      assert [] + [vol.files] == [vol.files];
      if unlink.Failed? && unlink.errno != NoEnt {
        err := Fail(unlink.errno);
      } else {
        ghost var d1 := vol.files;
        TrailMore(old(vol.log), vol.log, [d1]);
        var rename := vol.RenameFile(tmp, path);
        r := r.(rename := rename);
        assert [d1] + [vol.files] == [d1, vol.files];
        if rename.Failed? {
          err := Fail(rename.errno);
        }
      }
    }

    /** Frees the handle, whatever happens; an atomic write replaces the old file. */
    method Close(h: int) returns (err: Err, ghost r: Replies)
      requires Valid()
      modifies this`slots, this`ioError, vol
      ensures Valid() && old(vol.log) <= vol.log
      ensures ioError <==> old(ioError) || (|vol.log| > |old(vol.log)| && err == Io)
      ensures var u := Usable(old(slots), h, core.state, core.generation);
              && (u == InvalidArg ==> err == u && slots == old(slots))
              && (u != InvalidArg ==> slots == old(slots)[h := Free])
              && (u != Ok ==> err == u && unchanged(vol))
              && (u == Ok ==>
                    && vol.open == old(vol.open) - {old(slots)[h].fd}
                    && Closing(old(slots)[h], marks[h], old(vol.log), vol.log, old(vol.files), vol.files, err, r))
    {
      hide Closing, HandleOk, OneToOne;
      r := NotCalled;
      err := Usable(slots, h, core.state, core.generation);
      if err == Ok {
        err, r := CloseLive(h);
      } else if err != InvalidArg {
        StaleReleased(slots, marks, h, vol.open, vol.files, core.state, core.generation);
        slots := slots[h := Free];
      }
    }

    method CloseLive(h: int) returns (err: Err, ghost r: Replies)
      requires Valid() && Usable(slots, h, core.state, core.generation) == Ok
      modifies this`slots, this`ioError, vol
      ensures Valid() && old(vol.log) < vol.log && slots == old(slots)[h := Free]
      ensures ioError <==> old(ioError) || err == Io
      ensures vol.open == old(vol.open) - {old(slots)[h].fd}
      ensures Closing(old(slots)[h], marks[h], old(vol.log), vol.log, old(vol.files), vol.files, err, r)
    {
      hide Sound, Usable, HandleOk, OneToOne, OnlyThese, OnDisk, Replace, Replays, UnlinkLogged, Closing;
      hide Volume.Valid, IsTmp, Failure, Live;
      LiveHandle(slots, marks, h, vol.open, vol.files, core.state, core.generation);
      ghost var open, files, f := vol.open, vol.files, slots[h];
      err, r := Commit(slots[h]);
      Committed(f, marks[h], open, files, core.state, core.generation, old(vol.log), vol.log, vol.files, err, r);
      HandleReleased(slots, marks, h, open, files, vol.files, core.state, core.generation);
      slots := slots[h := Free];
    }

    /** Frees the handle without committing: an atomic write is dropped. */
    method Discard(h: int)
      requires Valid()
      modifies this`slots, vol
      ensures Valid() && old(vol.log) <= vol.log
      ensures var u := Usable(old(slots), h, core.state, core.generation);
              && slots == (if u == InvalidArg then old(slots) else old(slots)[h := Free])
              && (u != Ok ==> vol.log == old(vol.log) && vol.files == old(vol.files) && vol.open == old(vol.open))
              && (u == Ok ==> vol.open == old(vol.open) - {old(slots)[h].fd}
                              && OnlyThese(old(vol.files), vol.files, OnDisk(old(slots)[h]), OnDisk(old(slots)[h])))
    {
      var err := Usable(slots, h, core.state, core.generation);
      if err == InvalidArg {
        return;
      }
      ghost var open, files := vol.open, vol.files;
      if err == Ok {
        LiveHandle(slots, marks, h, open, files, core.state, core.generation);
        hide Sound, Usable, HandleOk, OneToOne, OnlyThese, Volume.Valid;
        Drop(slots[h]);
        HandleReleased(slots, marks, h, open, files, vol.files, core.state, core.generation);
      } else {
        StaleReleased(slots, marks, h, open, files, core.state, core.generation);
      }
      slots := slots[h := Free];
    }

    method Drop(f: File)
      requires vol.Valid() && f.fd >= 0 && f.fd in vol.open && vol.open[f.fd].name == OnDisk(f)
      modifies vol
      ensures vol.Valid() && vol.open == old(vol.open) - {f.fd} && old(vol.log) <= vol.log
      ensures OnlyThese(old(vol.files), vol.files, OnDisk(f), OnDisk(f))
      ensures OnlyThese(old(vol.files), vol.files, f.path, OnDisk(f))
    {
      hide Volume.Valid;
      var _, _ := vol.CloseFile(f.fd);
      if f.mode == WriteAtomic {
        var _ := vol.UnlinkFile(f.tmp);
      }
    }

    method Remove(dir: Dir, name: string) returns (err: Err)
      requires Valid()
      modifies this`ioError, vol
      ensures Valid() && (ioError <==> old(ioError) || (|vol.log| > |old(vol.log)| && err == Io))
      ensures vol.open == old(vol.open)
      ensures vol.files == match BuildPath(root, dir, name, false)
                           case Some(path) => if err == Ok then Without(old(vol.files), path) else old(vol.files)
                           case None => old(vol.files)
      ensures BuildPath(root, dir, name, false).None? ==> err == InvalidArg
      ensures BuildPath(root, dir, name, false).Some? && core.state != Mounted ==> err == Err.State
    {
      var path := BuildPath(root, dir, name, false);
      if path.None? {
        return InvalidArg;
      }
      FinalIsNotTmp(root, dir, name);
      err := Ok;
      if core.state != Mounted {
        err := Err.State;
      } else {
        ghost var files := vol.files;
        var r := vol.UnlinkFile(path.value);
        if r.Failed? {
          err := Fail(r.errno);
        }
        FinalNameChanges(slots, marks, vol.open, files, vol.files, core.state, core.generation, path.value, path.value);
      }
    }

    method Rename(dir: Dir, source: string, target: string) returns (err: Err)
      requires Valid()
      modifies this`ioError, vol
      ensures Valid() && (ioError <==> old(ioError) || (|vol.log| > |old(vol.log)| && err == Io))
      ensures var a, b := BuildPath(root, dir, source, false), BuildPath(root, dir, target, false);
              && (a.None? || b.None? ==> err == InvalidArg)
              && (a.Some? && b.Some? && core.state != Mounted ==> err == Err.State)
              && (err != Ok ==> vol.files == old(vol.files))
              && (err == Ok ==> a.Some? && b.Some? && a.value in old(vol.files)
                                && vol.files == Renamed(old(vol.files), a.value, b.value))
    {
      var a, b := BuildPath(root, dir, source, false), BuildPath(root, dir, target, false);
      if a.None? || b.None? {
        return InvalidArg;
      }
      FinalIsNotTmp(root, dir, source);
      FinalIsNotTmp(root, dir, target);
      err := Ok;
      if core.state != Mounted {
        err := Err.State;
      } else {
        ghost var files := vol.files;
        var r := vol.RenameFile(a.value, b.value);
        if r.Failed? {
          err := Fail(r.errno);
        }
        FinalNameChanges(slots, marks, vol.open, files, vol.files, core.state, core.generation, a.value, b.value);
      }
    }

    /** After a mount, with no handle open yet: makes the directories and deletes the temporary
        files a removal or power loss left; files under final names stay as they are. */
    method Prepare() returns (err: Err)
      requires Valid() && forall k :: 0 <= k < |slots| ==> !Live(slots[k])
      modifies this`ioError, vol
      ensures Valid() && vol.open == map[] && vol.drawn == old(vol.drawn) && old(vol.log) <= vol.log
      ensures forall n :: n in vol.files ==> n in old(vol.files) && vol.files[n] == old(vol.files)[n]
      ensures forall n :: n in old(vol.files) && !IsTmp(n) ==> n in vol.files
      ensures err == Io ==> ioError
    {
      hide BuildPath, NameValid;
      NoneLive(slots, vol.open);
      err := MakeDirectory();
      var dirs := [Captures, Logs, Apps, Config];
      var i := 0;
      while err == Ok && i < |dirs|
        invariant Valid() && vol.open == map[] && vol.drawn == old(vol.drawn) && old(vol.log) <= vol.log
        invariant i <= |dirs| && (err == Io ==> ioError)
        invariant forall n :: n in vol.files ==> n in old(vol.files) && vol.files[n] == old(vol.files)[n]
        invariant forall n :: n in old(vol.files) && !IsTmp(n) ==> n in vol.files
        decreases |dirs| - i
      {
        err := MakeDirectory();
        if err == Ok {
          err := SweepDirectory(DirPath(root, dirs[i]));
        }
        i := i + 1;
      }
    }

    method MakeDirectory() returns (err: Err)
      requires Valid() && vol.open == map[] && forall k :: 0 <= k < |slots| ==> !Live(slots[k])
      modifies this`ioError, vol`log
      ensures Valid() && old(vol.log) <= vol.log && (err == Io ==> ioError)
    {
      err := Ok;
      var r, _ := vol.Directory();
      if r.Failed? && r.errno != Exist {
        err := Fail(r.errno);
      }
    }

    method SweepDirectory(path: string) returns (err: Err)
      requires Valid() && vol.open == map[] && forall k :: 0 <= k < |slots| ==> !Live(slots[k])
      modifies this`ioError, vol
      ensures Valid() && vol.open == map[] && vol.drawn == old(vol.drawn) && old(vol.log) <= vol.log
      ensures forall n :: n in vol.files ==> n in old(vol.files) && vol.files[n] == old(vol.files)[n]
      ensures forall n :: n in old(vol.files) && !IsTmp(n) ==> n in vol.files
      ensures err == Io ==> ioError
    {
      err := Ok;
      var r, names := vol.Directory();
      var i := 0;
      while i < |names|
        invariant i <= |names| && err == Ok && slots == old(slots)
        invariant Valid() && vol.open == map[] && vol.drawn == old(vol.drawn) && old(vol.log) <= vol.log
        invariant forall n :: n in vol.files ==> n in old(vol.files) && vol.files[n] == old(vol.files)[n]
        invariant forall n :: n in old(vol.files) && !IsTmp(n) ==> n in vol.files
      {
        var name := names[i];
        if IsTmp(name) && |path| + 1 + |name| < PATH_MAX + NAME_MAX {
          assert IsTmp(path + "/" + name) by {
            var p := path + "/" + name;
            assert p[|p| - |TMP|..] == name[|name| - |TMP|..];
          }
          var _ := vol.UnlinkFile(path + "/" + name);
        }
        i := i + 1;
      }
      if r.Failed? {
        err := Fail(r.errno);
      }
    }
  }

  /** Two writers of one name share its temporary file. One opens it again after the other has
      written: when all four calls answer OK, the close installed neither the old file nor the
      bytes it was given, but the file the second open emptied. */
  method SharedTmpIsNotWhole(files: Files, dir: Dir, name: string, data: seq<byte>)
      returns (done: bool, ghost path: string)
    requires files.Valid() && data != []
    modifies files, files.vol
    ensures files.Valid()
    ensures done ==> && BuildPath(files.root, dir, name, false) == Some(path)
                     && path in files.vol.files && files.vol.files[path] == [] != data
  {
    hide Sound, Volume.Valid, Replays, WholeThroughout;
    done, path := false, "";
    var err, one := files.Open(dir, name, WriteAtomic);
    if err != Ok {
      return;
    }
    path := files.slots[one].path;
    err := files.Write(one, data);
    if err != Ok {
      return;
    }
    var two: int;
    err, two := files.Open(dir, name, WriteAtomic);
    if err != Ok {
      return;
    }
    var last, _ := files.Close(one);
    done := last == Ok;
  }

  const AllDone := Replies(Done, [], Done, [], Done, Done, Done)

  /** And all four can answer OK: on any disk with an old file, an open empties the temporary file,
      the write fills it, the second open empties it again, and the close, every call of it done,
      installs the empty file. */
  lemma {:induction false} SharedTmpHappens(d: Disk, path: string, data: seq<byte>)
    requires path in d && d[path] != [] && data != []
    ensures var tmp := path + TMP;
            var one := d[tmp := []];
            var two := Written(one, tmp, 0, data);
            var three := two[tmp := []];
            var so := Replace(three, path, tmp, AllDone);
            && OpensOnly(d, one, path, WriteAtomic, true) && OpensOnly(two, three, path, WriteAtomic, true)
            && two[tmp] == data && so.err == Ok && |so.after| > 0
            && var now := so.after[|so.after| - 1];
               path in now && now[path] == [] && now[path] != d[path] && now[path] != data
  {
    TmpIsTmp(path);
    var tmp := path + TMP;
    var two := Written(d[tmp := []], tmp, 0, data);
    assert two[tmp] == [] + data + [] == data;
  }

  /** A handle that stops being live takes its descriptor with it. */
  lemma {:induction false} SlotLeaves(slots: seq<File>, open: map<nat, Descriptor>, i: nat, f: File)
    requires i < |slots| && Live(slots[i]) && !Live(f) && OneToOne(slots, open)
    ensures OneToOne(slots[i := f], open - {slots[i].fd})
  {
    var now := slots[i := f];
    forall fd | fd in open && fd != slots[i].fd
      ensures Owned(now, fd)
    {
      var k :| 0 <= k < |slots| && Live(slots[k]) && slots[k].fd == fd;
      assert Live(now[k]) && now[k].fd == fd;
    }
  }

  lemma {:induction false} NoneLive(slots: seq<File>, open: map<nat, Descriptor>)
    requires OneToOne(slots, open) && forall k :: 0 <= k < |slots| ==> !Live(slots[k])
    ensures open == map[]
  {
    assert forall fd :: fd in open ==> Owned(slots, fd);
    assert open.Keys == {};
  }

  predicate TmpOf(f: File, x: string, y: string) {
    Live(f) && f.mode == WriteAtomic && (f.tmp == x || f.tmp == y)
  }

  /** Files x and y may have changed; whoever writes to them as a temporary shares it. */
  ghost predicate Disturbs(slots: seq<File>, marks: seq<Mark>, h: int, files: Disk, now: Disk, x: string, y: string)
    requires |slots| == |marks|
  {
    && OnlyThese(files, now, x, y)
    && (forall i :: 0 <= i < |slots| && i != h && TmpOf(slots[i], x, y) ==> marks[i].shared)
  }

  lemma {:induction false} HandleStays(f: File, m: Mark, open: map<nat, Descriptor>, now: map<nat, Descriptor>,
                                       files: Disk, disk: Disk, state: MountState, gen: uint32, x: string, y: string)
    requires HandleOk(f, m, open, files, state, gen) && f.fd in now && now[f.fd] == open[f.fd]
    requires OnlyThese(files, disk, x, y)
    requires f.mode == WriteAtomic && (f.tmp == x || f.tmp == y) ==> m.shared
    ensures HandleOk(f, m, now, disk, state, gen)
  {
  }

  /** A call made through handle h, or on a final name, leaves every other handle sound. */
  lemma {:induction false} OthersStay(slots: seq<File>, marks: seq<Mark>, h: int, open: map<nat, Descriptor>,
                                      now: map<nat, Descriptor>, files: Disk, disk: Disk, state: MountState,
                                      gen: uint32,
                                      x: string, y: string)
    requires Sound(slots, marks, open, files, state, gen) && Disturbs(slots, marks, h, files, disk, x, y)
    requires forall i :: 0 <= i < SLOTS && i != h && Live(slots[i]) ==>
               slots[i].fd in now && now[slots[i].fd] == open[slots[i].fd]
    ensures forall i :: 0 <= i < SLOTS && i != h && Live(slots[i]) ==>
              HandleOk(slots[i], marks[i], now, disk, state, gen)
  {
    hide HandleOk;
    forall i | 0 <= i < SLOTS && i != h && Live(slots[i])
      ensures HandleOk(slots[i], marks[i], now, disk, state, gen)
    {
      HandleStays(slots[i], marks[i], open, now, files, disk, state, gen, x, y);
    }
  }

  /** Who else writes to what handle h writes to shares its temporary file. */
  lemma {:induction false} HandleDisturbs(slots: seq<File>, marks: seq<Mark>, h: nat, open: map<nat, Descriptor>,
                                          files: Disk, disk: Disk, state: MountState, gen: uint32)
    requires Sound(slots, marks, open, files, state, gen) && h < SLOTS && Live(slots[h])
    requires var f := slots[h]; OnlyThese(files, disk, f.path, OnDisk(f))
    ensures Disturbs(slots, marks, h, files, disk, slots[h].path, OnDisk(slots[h]))
  {
    forall i | 0 <= i < SLOTS && i != h && Live(slots[i]) && slots[i].mode == WriteAtomic
      ensures IsTmp(slots[i].tmp) && !IsTmp(slots[h].path)
      ensures slots[h].mode == WriteAtomic && slots[i].tmp == slots[h].tmp ==> SharesTmp(slots[i], slots[h])
    {
      assert HandleOk(slots[i], marks[i], open, files, state, gen);
      assert HandleOk(slots[h], marks[h], open, files, state, gen);
      TmpIsTmp(slots[i].path);
    }
  }

  /** The descriptor of one handle moves. */
  lemma {:induction false} OneMoves(slots: seq<File>, open: map<nat, Descriptor>, h: nat, now: map<nat, Descriptor>)
    requires OneToOne(slots, open) && h < |slots| && Live(slots[h]) && slots[h].fd in now
    requires now == open[slots[h].fd := now[slots[h].fd]]
    ensures OneToOne(slots, now)
    ensures forall i :: 0 <= i < |slots| && i != h && Live(slots[i]) ==>
              slots[i].fd in now && now[slots[i].fd] == open[slots[i].fd]
  {
    assert now.Keys == open.Keys;
  }

  /** A new descriptor and the handle that holds it. */
  lemma {:induction false} OneArrives(slots: seq<File>, open: map<nat, Descriptor>, h: nat, f: File, d: Descriptor)
    requires OneToOne(slots, open) && h < |slots| && !slots[h].used && Live(f) && f.fd >= 0 && f.fd !in open
    ensures OneToOne(slots[h := f], open[f.fd := d])
    ensures forall i :: 0 <= i < |slots| && i != h && Live(slots[i]) ==>
              slots[i].fd in open && open[f.fd := d][slots[i].fd] == open[slots[i].fd]
  {
    var now := slots[h := f];
    forall fd | fd in open[f.fd := d]
      ensures Owned(now, fd)
    {
      if fd == f.fd {
        assert now[h].fd == fd;
      } else {
        var k :| 0 <= k < |slots| && Live(slots[k]) && slots[k].fd == fd;
        assert Live(now[k]) && now[k].fd == fd;
      }
    }
  }

  /** Handle h is used and stays open. */
  lemma {:induction false} HandleUsed(slots: seq<File>, marks: seq<Mark>, h: nat, m: Mark, open: map<nat, Descriptor>,
                                      now: map<nat, Descriptor>, files: Disk, disk: Disk, state: MountState,
                                      gen: uint32)
    requires Sound(slots, marks, open, files, state, gen) && h < SLOTS && Live(slots[h])
    requires m.shared == marks[h].shared && slots[h].fd in open && slots[h].fd in now
    requires now == open[slots[h].fd := now[slots[h].fd]]
    requires OnlyThese(files, disk, slots[h].path, OnDisk(slots[h]))
    requires HandleOk(slots[h], m, now, disk, state, gen)
    ensures Sound(slots, marks[h := m], now, disk, state, gen)
  {
    hide HandleOk, OnlyThese, OneToOne, Disturbs;
    OneMoves(slots, open, h, now);
    HandleDisturbs(slots, marks, h, open, files, disk, state, gen);
    OthersStay(slots, marks, h, open, now, files, disk, state, gen, slots[h].path, OnDisk(slots[h]));
  }

  lemma {:induction false} RestAgrees(slots: seq<File>, open: map<nat, Descriptor>, h: nat)
    requires OneToOne(slots, open) && h < |slots| && Live(slots[h])
    ensures var rest := open - {slots[h].fd};
            forall i :: 0 <= i < |slots| && i != h && Live(slots[i]) ==>
              slots[i].fd in rest && rest[slots[i].fd] == open[slots[i].fd]
  {
  }

  /** Handle h is released. */
  lemma {:induction false} HandleReleased(slots: seq<File>, marks: seq<Mark>, h: nat, open: map<nat, Descriptor>,
                                          files: Disk, disk: Disk, state: MountState, gen: uint32)
    requires Sound(slots, marks, open, files, state, gen) && h < SLOTS && Live(slots[h])
    requires OnlyThese(files, disk, slots[h].path, OnDisk(slots[h]))
    ensures Sound(slots[h := Free], marks, open - {slots[h].fd}, disk, state, gen)
  {
    hide HandleOk, OnlyThese, OneToOne, Disturbs, OnDisk, TmpOf, IsTmp;
    var now, rest := slots[h := Free], open - {slots[h].fd};
    SlotLeaves(slots, open, h, Free);
    RestAgrees(slots, open, h);
    HandleDisturbs(slots, marks, h, open, files, disk, state, gen);
    OthersStay(slots, marks, h, open, rest, files, disk, state, gen, slots[h].path, OnDisk(slots[h]));
    forall i | 0 <= i < SLOTS && Live(now[i])
      ensures HandleOk(now[i], marks[i], rest, disk, state, gen)
    {
      assert i != h && now[i] == slots[i];
    }
    forall i, j | 0 <= i < SLOTS && 0 <= j < SLOTS && i != j && SharesTmp(now[i], now[j])
      ensures marks[i].shared
    {
      assert SharesTmp(slots[i], slots[j]);
    }
  }

  /** A final name is removed, renamed or fails to open. */
  lemma {:induction false} FinalNameChanges(slots: seq<File>, marks: seq<Mark>, open: map<nat, Descriptor>,
                                            files: Disk, disk: Disk, state: MountState, gen: uint32, x: string,
                                            y: string)
    requires Sound(slots, marks, open, files, state, gen) && !IsTmp(x) && !IsTmp(y) && OnlyThese(files, disk, x, y)
    ensures Sound(slots, marks, open, disk, state, gen)
  {
    forall i | 0 <= i < SLOTS && Live(slots[i])
      ensures IsTmp(slots[i].tmp)
    {
      assert HandleOk(slots[i], marks[i], open, files, state, gen);
      TmpIsTmp(slots[i].path);
    }
    hide HandleOk, OnlyThese, IsTmp;
    OthersStay(slots, marks, -1, open, open, files, disk, state, gen, x, y);
  }

  /** The marks once somebody opens temporary file tmp. */
  function Share(slots: seq<File>, marks: seq<Mark>, tmp: string): (r: seq<Mark>)
    requires |slots| == |marks|
    ensures |r| == |marks|
    ensures forall i :: 0 <= i < |r| ==>
              r[i] == if Live(slots[i]) && slots[i].mode == WriteAtomic && slots[i].tmp == tmp
                      then marks[i].(shared := true) else marks[i]
  {
    if slots == [] then []
    else
      var n := |slots| - 1;
      Share(slots[..n], marks[..n], tmp) +
      [if Live(slots[n]) && slots[n].mode == WriteAtomic && slots[n].tmp == tmp then marks[n].(shared := true)
       else marks[n]]
  }

  ghost predicate TmpInUse(slots: seq<File>, tmp: string) {
    exists i :: 0 <= i < |slots| && Live(slots[i]) && slots[i].mode == WriteAtomic && slots[i].tmp == tmp
  }

  lemma {:induction false} ShareIsSound(slots: seq<File>, marks: seq<Mark>, open: map<nat, Descriptor>, files: Disk,
                                        state: MountState, gen: uint32, tmp: string)
    requires Sound(slots, marks, open, files, state, gen)
    ensures Sound(slots, Share(slots, marks, tmp), open, files, state, gen)
  {
    var r := Share(slots, marks, tmp);
    forall i | 0 <= i < SLOTS && Live(slots[i])
      ensures HandleOk(slots[i], r[i], open, files, state, gen)
    {
      assert HandleOk(slots[i], marks[i], open, files, state, gen);
    }
  }

  /** A handle is opened in a free slot. */
  lemma {:induction false} HandleArrives(slots: seq<File>, marks: seq<Mark>, h: nat, f: File, m: Mark,
                                         open: map<nat, Descriptor>, d: Descriptor, files: Disk, disk: Disk,
                                         state: MountState, gen: uint32)
    requires Sound(slots, marks, open, files, state, gen) && h < SLOTS && !slots[h].used && Live(f)
    requires f.fd >= 0 && f.fd !in open && HandleOk(f, m, open[f.fd := d], disk, state, gen)
    requires OnlyThese(files, disk, OnDisk(f), OnDisk(f))
    requires forall i :: 0 <= i < SLOTS && SharesTmp(slots[i], f) ==> marks[i].shared && m.shared
    ensures Sound(slots[h := f], marks[h := m], open[f.fd := d], disk, state, gen)
  {
    hide OnlyThese, IsTmp, OneToOne;
    OneArrives(slots, open, h, f, d);
    forall i | 0 <= i < SLOTS && Live(slots[i])
      ensures IsTmp(slots[i].tmp)
    {
      assert HandleOk(slots[i], marks[i], open, files, state, gen);
      TmpIsTmp(slots[i].path);
    }
    assert !IsTmp(f.path);
    hide HandleOk;
    OthersStay(slots, marks, h, open, open[f.fd := d], files, disk, state, gen, OnDisk(f), OnDisk(f));
  }

  lemma {:induction false} FailedOpen(slots: seq<File>, marks: seq<Mark>, open: map<nat, Descriptor>, files: Disk,
                                      disk: Disk, state: MountState, gen: uint32, path: string, mode: Mode)
    requires Sound(slots, marks, open, files, state, gen) && !IsTmp(path)
    requires OpensOnly(files, disk, path, mode, false)
    ensures Sound(slots, MarksAfterOpen(slots, marks, -1, path, mode), open, disk, state, gen)
  {
    hide Sound, HandleOk, OnlyThese, IsTmp;
    SoundParts(slots, marks, open, files, state, gen);
    if mode == WriteAtomic {
      var tmp := path + TMP;
      ShareIsSound(slots, marks, open, files, state, gen, tmp);
      OthersStay(slots, Share(slots, marks, tmp), -1, open, open, files, disk, state, gen, tmp, tmp);
      SoundAnew(slots, Share(slots, marks, tmp), open, files, disk, state, gen);
    } else {
      FinalNameChanges(slots, marks, open, files, disk, state, gen, path, path);
    }
  }

  lemma SoundAnew(slots: seq<File>, marks: seq<Mark>, open: map<nat, Descriptor>, files: Disk, disk: Disk,
                  state: MountState, gen: uint32)
    requires Sound(slots, marks, open, files, state, gen)
    requires forall i :: 0 <= i < SLOTS && Live(slots[i]) ==> HandleOk(slots[i], marks[i], open, disk, state, gen)
    ensures Sound(slots, marks, open, disk, state, gen)
  {
  }

  lemma {:induction false} OpenArrives(slots: seq<File>, marks: seq<Mark>, h: nat, f: File, open: map<nat, Descriptor>,
                                       d: Descriptor, files: Disk, disk: Disk, state: MountState, gen: uint32)
    requires Sound(slots, marks, open, files, state, gen) && h < SLOTS && !slots[h].used && Live(f)
    requires state == Mounted && f.generation == gen && f.fd >= 0 && f.fd !in open
    requires d.name == OnDisk(f) && d.append == (f.mode == Append) && d.pos == 0
    requires !IsTmp(f.path) && f.tmp == f.path + TMP && OpensOnly(files, disk, f.path, f.mode, true)
    ensures Sound(slots[h := f], MarksAfterOpen(slots, marks, h, f.path, f.mode), open[f.fd := d], disk, state, gen)
  {
    hide Sound, HandleOk, IsTmp;
    ShareIsSound(slots, marks, open, files, state, gen, f.tmp);
    var m := Mark([], true, TmpInUse(slots, f.tmp));
    FreshHandle(f, m, open[f.fd := d], disk, state, gen);
    SoundParts(slots, marks, open, files, state, gen);
    var shared := if f.mode == WriteAtomic then Share(slots, marks, f.tmp) else marks;
    HandleArrives(slots, shared, h, f, m, open, d, files, disk, state, gen);
  }

  lemma SoundParts(slots: seq<File>, marks: seq<Mark>, open: map<nat, Descriptor>, files: Disk, state: MountState,
                   gen: uint32)
    requires Sound(slots, marks, open, files, state, gen)
    ensures |slots| == |marks| == SLOTS && OneToOne(slots, open)
  {
  }

  lemma FreshHandle(f: File, m: Mark, open: map<nat, Descriptor>, files: Disk, state: MountState, gen: uint32)
    requires state == Mounted && f.generation == gen && f.fd >= 0 && f.fd in open && open[f.fd].name == OnDisk(f)
    requires open[f.fd].append == (f.mode == Append) && open[f.fd].pos == 0 && !IsTmp(f.path) && f.tmp == f.path + TMP
    requires m.written == [] && (f.mode == WriteAtomic ==> f.tmp in files && files[f.tmp] == [])
    ensures HandleOk(f, m, open, files, state, gen)
  {
  }

  /** What committing an atomic handle means for its final name. */
  lemma {:induction false} Committed(f: File, m: Mark, open: map<nat, Descriptor>, files: Disk, state: MountState,
                                     gen: uint32, was: seq<Call>, log: seq<Call>, now: Disk, err: Err, r: Replies)
    requires HandleOk(f, m, open, files, state, gen) && OnlyThese(files, now, f.path, OnDisk(f))
    requires f.mode == WriteAtomic ==>
               && Replays(was, log, now, err, Replace(files, f.path, f.tmp, r))
               && UnlinkLogged(log, |was| + 2, f.path, r.unlink) && (err == Ok ==> f.tmp in files)
    ensures Closing(f, m, was, log, files, now, err, r)
  {
    hide HandleOk, OnlyThese, Replace, Trail, UnlinkLogged, WholeThroughout;
    if f.mode == WriteAtomic {
      TmpIsTmp(f.path);
      TmpNamed(f, m, open, files, state, gen);
      if err == Ok {
        InstallsOwnExactly(files, f.path, f.tmp, files[f.tmp], r);
      }
      if m.whole && !m.shared {
        CleanHandle(f, m, open, files, state, gen);
        TrailIsWhole(was, log, files, f.path, f.tmp, m.written, r);
      }
    }
  }

  lemma TmpNamed(f: File, m: Mark, open: map<nat, Descriptor>, files: Disk, state: MountState, gen: uint32)
    requires HandleOk(f, m, open, files, state, gen)
    ensures f.tmp == f.path + TMP
  {
  }

  lemma {:induction false} CleanHandle(f: File, m: Mark, open: map<nat, Descriptor>, files: Disk, state: MountState,
                                       gen: uint32)
    requires HandleOk(f, m, open, files, state, gen) && f.mode == WriteAtomic && m.whole && !m.shared
    ensures f.tmp in files && files[f.tmp] == m.written && f.path != f.tmp
  {
    TmpIsTmp(f.path);
  }

  lemma OnlyOfTwo(was: Disk, now: Disk, x: string, y: string)
    requires OnlyThese(was, now, y, y)
    ensures OnlyThese(was, now, x, y)
  {
  }

  /** A write keeps its own handle sound. */
  lemma {:induction false} WroteOk(f: File, m: Mark, data: seq<byte>, ok: bool, open: map<nat, Descriptor>,
                                   now: map<nat, Descriptor>, files: Disk, disk: Disk, state: MountState, gen: uint32)
    requires HandleOk(f, m, open, files, state, gen) && f.fd in now && now[f.fd] == open[f.fd].(pos := now[f.fd].pos)
    requires ok && f.mode == WriteAtomic ==>
               && disk == Written(files, f.tmp, open[f.fd].pos, data)
               && now[f.fd].pos == if data == [] then open[f.fd].pos else open[f.fd].pos + |data|
    ensures HandleOk(f, Mark(m.written + data, m.whole && ok, m.shared), now, disk, state, gen)
  {
    hide Put;
    PutAtEnd(m.written, data);
  }

  lemma {:induction false} LiveHandle(slots: seq<File>, marks: seq<Mark>, h: int, open: map<nat, Descriptor>,
                                      files: Disk, state: MountState, gen: uint32)
    requires Sound(slots, marks, open, files, state, gen) && Usable(slots, h, state, gen) == Ok
    ensures 0 <= h < SLOTS == |slots| == |marks| && Live(slots[h]) && state == Mounted
    ensures slots[h].fd >= 0 && slots[h].fd in open && open[slots[h].fd].name == OnDisk(slots[h])
    ensures open[slots[h].fd].append == (slots[h].mode == Append)
    ensures HandleOk(slots[h], marks[h], open, files, state, gen)
  {
  }

  lemma {:induction false} HandleStaysOpen(f: File, m: Mark, open: map<nat, Descriptor>, now: map<nat, Descriptor>,
                                           files: Disk, state: MountState, gen: uint32)
    requires HandleOk(f, m, open, files, state, gen) && f.mode == ReadOnly
    requires f.fd in now && now[f.fd] == open[f.fd].(pos := now[f.fd].pos)
    ensures HandleOk(f, m, now, files, state, gen)
  {
  }

  lemma SameDisk(d: Disk, name: string)
    ensures OnlyThese(d, d, name, name) && forall p: nat :: Written(d, name, p, []) == d
  {
  }

  lemma OneChanges(was: Disk, d: Disk, name: string, p: nat, data: seq<byte>, junk: seq<byte>)
    requires OnlyThese(was, d, name, name)
    ensures OnlyThese(was, Written(d, name, p, data), name, name) && OnlyThese(was, Spoilt(d, name, junk), name, name)
  {
  }

  /** The log has grown by calls that left the disk in the given states. */
  ghost predicate Trail(was: seq<Call>, log: seq<Call>, after: seq<Disk>) {
    |log| == |was| + |after| && was <= log && forall k :: 0 <= k < |after| ==> log[|was| + k].after == after[k]
  }

  lemma NoTrail(log: seq<Call>)
    ensures Trail(log, log, [])
  {
  }

  lemma TrailMore(was: seq<Call>, log: seq<Call>, after: seq<Disk>)
    requires Trail(was, log, after)
    ensures was <= log && forall c: Call :: Trail(was, log + [c], after + [c.after])
  {
  }

  lemma {:induction false} TrailOfTwo(was: seq<Call>, one: seq<Call>, two: seq<Call>, d1: Disk, d2: Disk)
    requires |one| == |was| + 1 && was <= one && one[|was|].after == d1
    requires |two| == |one| + 1 && one <= two && two[|one|].after == d2
    ensures Trail(was, two, [d1, d2])
  {
    assert two[|was|] == one[|was|];
  }

  lemma {:induction false} TrailJoins(a: seq<Call>, b: seq<Call>, c: seq<Call>, first: seq<Disk>, rest: seq<Disk>)
    requires Trail(a, b, first) && Trail(b, c, rest)
    ensures Trail(a, c, first + rest)
  {
    forall k | 0 <= k < |first| + |rest|
      ensures c[|a| + k].after == (first + rest)[k]
    {
      if k < |first| {
        assert c[|a| + k] == b[|a| + k];
      } else {
        assert c[|b| + (k - |first|)].after == rest[k - |first|];
      }
    }
  }

  lemma FailureIs(r: Reply)
    ensures r.Failed? ==> Failure(r) == MapErrno(r.errno)
  {
  }

  lemma SpoiltOnly(d: Disk, now: Disk, name: string, r: Reply, junk: seq<byte>)
    requires now == if r.Done? then d else Spoilt(d, name, junk)
    ensures forall x :: OnlyThese(d, now, x, name)
  {
  }

  lemma OnlyTheseTwice(a: Disk, b: Disk, c: Disk, x: string, y: string)
    requires OnlyThese(a, b, x, y) && OnlyThese(b, c, x, y)
    ensures OnlyThese(a, c, x, y)
  {
  }

  lemma {:induction false} StaleReleased(slots: seq<File>, marks: seq<Mark>, h: nat, open: map<nat, Descriptor>,
                                         files: Disk, state: MountState, gen: uint32)
    requires Sound(slots, marks, open, files, state, gen) && h < SLOTS && slots[h].used
    requires Usable(slots, h, state, gen) == Io
    ensures Sound(slots[h := Free], marks, open, files, state, gen)
  {
    hide OneToOne, HandleOk;
    assert !Live(slots[h]) by {
      assert Live(slots[h]) ==> HandleOk(slots[h], marks[h], open, files, state, gen);
      StaleIsNotLive(slots[h], marks[h], open, files, state, gen);
    }
    NotLiveReleased(slots, open, h);
  }

  lemma StaleIsNotLive(f: File, m: Mark, open: map<nat, Descriptor>, files: Disk, state: MountState, gen: uint32)
    requires f.stale || state != Mounted || gen != f.generation
    ensures !(Live(f) && HandleOk(f, m, open, files, state, gen))
  {
  }

  lemma {:induction false} NotLiveReleased(slots: seq<File>, open: map<nat, Descriptor>, h: nat)
    requires OneToOne(slots, open) && h < |slots| && !Live(slots[h])
    ensures OneToOne(slots[h := Free], open)
  {
    var now := slots[h := Free];
    forall fd | fd in open
      ensures Owned(now, fd)
    {
      var k :| 0 <= k < |slots| && Live(slots[k]) && slots[k].fd == fd;
      assert Live(now[k]) && now[k].fd == fd;
    }
  }
}
