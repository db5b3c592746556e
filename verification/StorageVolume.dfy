/** The file-system calls the file helpers make (components/stark_storage/storage_io.h), over a
    volume that maps names to bytes. Any call may fail; a failed call that had a file open, or
    was creating one, may leave that file with any content. */
module StorageVolume {
  import opened Stark

  datatype Errno = NoSpc | NoEnt | Exist | Inval | NameTooLong | OtherErrno
  datatype Mode = ReadOnly | WriteAtomic | Append
  datatype Reply = Done | Failed(errno: Errno)

  type Disk = map<string, seq<byte>>

  /** An open file; each successful open draws the next ticket. */
  datatype Descriptor = Descriptor(ticket: nat, name: string, pos: nat, append: bool)

  datatype Op =
    | OpOpen(ticket: nat, name: string)
    | OpRead(ticket: nat)
    | OpWrite(ticket: nat)
    | OpSync(ticket: nat)
    | OpClose(ticket: nat)
    | OpUnlink(name: string)
    | OpRename(source: string, target: string)
    | OpDir
    | OpMount
    | OpUnmount

  datatype Call = Call(op: Op, ok: bool, after: Disk)

  function MapErrno(e: Errno): (err: Err)
    ensures err != Ok
  {
    match e
    case NoSpc => NoSpace
    case NoEnt => NotFound
    case Exist => Err.State
    case Inval | NameTooLong => InvalidArg
    case OtherErrno => Io
  }

  function Zeros(n: nat): (z: seq<byte>)
    ensures |z| == n
  {
    if n == 0 then [] else Zeros(n - 1) + [0]
  }

  /** The content after d has been written at position p. */
  function Put(c: seq<byte>, p: nat, d: seq<byte>): (r: seq<byte>)
    ensures |r| == Max(|c|, p + |d|)
  {
    (if p <= |c| then c[..p] else c + Zeros(p - |c|)) + d + (if p + |d| < |c| then c[p + |d|..] else [])
  }

  lemma {:induction false} PutPut(c: seq<byte>, p: nat, d: seq<byte>, e: seq<byte>)
    ensures Put(Put(c, p, d), p + |d|, e) == Put(c, p, d + e)
  {
    hide Zeros;
    var head := if p <= |c| then c[..p] else c + Zeros(p - |c|);
    assert Put(c, p, d)[..p + |d|] == head + d;
    assert head + d + e == head + (d + e);
    if p + |d| + |e| < |c| {
      assert Put(c, p, d)[p + |d| + |e|..] == c[p + |d| + |e|..];
    }
  }

  /** The disk once all the data has been written at position p; writing nothing changes
      nothing. */
  function Written(d: Disk, name: string, p: nat, data: seq<byte>): Disk {
    if name in d && data != [] then d[name := Put(d[name], p, data)] else d
  }

  lemma PutAtEnd(c: seq<byte>, d: seq<byte>)
    ensures Put(c, |c|, d) == c + d
  {
  }

  /** The disk after a failed call on an open file left it with content c. */
  function Spoilt(d: Disk, name: string, c: seq<byte>): Disk {
    if name in d then d[name := c] else d
  }

  function Without(d: Disk, name: string): (r: Disk)
    ensures name !in r && forall n :: n != name ==> (n in r <==> n in d)
    ensures forall n :: n in r ==> r[n] == d[n]
  {
    d - {name}
  }

  function Renamed(d: Disk, source: string, target: string): Disk
    requires source in d
  {
    Without(d, source)[target := d[source]]
  }

  function Closes(log: seq<Call>, ticket: nat): nat {
    if log == [] then 0
    else Closes(log[..|log| - 1], ticket) + (if log[|log| - 1].op == OpClose(ticket) then 1 else 0)
  }

  lemma ClosesAppends(log: seq<Call>, c: Call, ticket: nat)
    ensures Closes(log + [c], ticket) == Closes(log, ticket) + (if c.op == OpClose(ticket) then 1 else 0)
  {
    assert (log + [c])[..|log|] == log;
  }

  ghost predicate Held(open: map<nat, Descriptor>, ticket: nat) {
    exists fd :: fd in open && open[fd].ticket == ticket
  }

  /** Writing on where the last write ended. */
  lemma {:induction false} WrittenOn(d: Disk, name: string, p: nat, sent: seq<byte>, more: seq<byte>)
    requires more != []
    ensures Written(Written(d, name, p, sent), name, p + |sent|, more) == Written(d, name, p, sent + more)
  {
    hide Put;
    if sent == [] {
      assert sent + more == more;
    } else if name in d {
      PutPut(d[name], p, sent, more);
    }
  }

  class Volume {
    var files: Disk
    var open: map<nat, Descriptor>
    var drawn: nat
    ghost var log: seq<Call>

    /** Every ticket drawn is on an open descriptor and never closed, or closed exactly once. */
    ghost predicate Valid()
      reads this
    {
      && (forall fd :: fd in open ==> open[fd].ticket < drawn)
      && (forall x, y :: x in open && y in open && open[x].ticket == open[y].ticket ==> x == y)
      && (forall t: nat :: Closes(log, t) == if t < drawn && !Held(open, t) then 1 else 0)
    }

    constructor ()
      ensures Valid() && files == map[] && open == map[] && drawn == 0 && log == []
    {
      files, open, drawn, log := map[], map[], 0, [];
    }

    ghost method Logged(op: Op, ok: bool, was: seq<Call>)
      requires was == log && !op.OpClose? && Valid()
      modifies this`log
      ensures Valid() && log == was + [Call(op, ok, files)]
    {
      var c := Call(op, ok, files);
      forall t: nat
        ensures Closes(log + [c], t) == Closes(log, t)
      {
        ClosesAppends(log, c, t);
      }
      log := log + [c];
    }

    method OpenFile(name: string, mode: Mode) returns (fd: int, errno: Errno, ghost junk: seq<byte>)
      requires Valid()
      modifies this
      ensures Valid() && log == old(log) + [Call(OpOpen(old(drawn), name), fd >= 0, files)]
      ensures fd >= 0 ==> fd !in old(open) && drawn == old(drawn) + 1
      ensures fd >= 0 ==> open == old(open)[fd := Descriptor(old(drawn), name, 0, mode == Append)]
      ensures fd >= 0 ==> files == if mode == WriteAtomic || (mode == Append && name !in old(files))
                                   then old(files)[name := []] else old(files)
      ensures fd >= 0 && mode == ReadOnly ==> name in files
      ensures fd < 0 ==> open == old(open) && drawn == old(drawn)
      ensures fd < 0 ==> files == old(files) || (mode != ReadOnly && files == old(files)[name := junk])
    {
      fd, errno, junk := *, *, *;
      ghost var ticket := drawn;
      if fd < 0 || fd in open || (mode == ReadOnly && name !in files) {
        fd := -1;
        var spoil: bool := *;
        if spoil && mode != ReadOnly {
          var rest: seq<byte> := *;
          files := files[name := rest];
          junk := rest;
        }
      } else {
        if mode == WriteAtomic || (mode == Append && name !in files) {
          files := files[name := []];
        }
        Draw(fd, Descriptor(drawn, name, 0, mode == Append));
      }
      Logged(OpOpen(ticket, name), fd >= 0, log);
    }

    method Draw(fd: nat, d: Descriptor)
      requires Valid() && d.ticket == drawn && fd !in open
      modifies this`open, this`drawn
      ensures Valid() && open == old(open)[fd := d] && drawn == old(drawn) + 1
    {
      open := open[fd := d];
      drawn := drawn + 1;
      assert open[fd].ticket == d.ticket;
      forall t: nat
        ensures Held(open, t) <==> t == d.ticket || Held(old(open), t)
      {
        if Held(old(open), t) {
          var x :| x in old(open) && old(open)[x].ticket == t;
          assert open[x].ticket == t;
        }
      }
    }

    /** A descriptor's position moves. */
    method Moved(fd: nat, pos: nat)
      requires Valid() && fd in open
      modifies this`open
      ensures Valid() && open == old(open)[fd := old(open)[fd].(pos := pos)]
    {
      open := open[fd := open[fd].(pos := pos)];
      forall t: nat
        ensures Held(open, t) <==> Held(old(open), t)
      {
        if Held(old(open), t) {
          var x :| x in old(open) && old(open)[x].ticket == t;
          assert open[x].ticket == t;
        }
        if Held(open, t) {
          var x :| x in open && open[x].ticket == t;
          assert old(open)[x].ticket == t;
        }
      }
    }

    /** Where the next write through fd goes. */
    function WriteAt(fd: nat): nat
      requires fd in open
      reads this
    {
      if open[fd].append && open[fd].name in files then |files[open[fd].name]| else open[fd].pos
    }

    method ReadFile(fd: nat, len: nat) returns (n: int, data: seq<byte>, errno: Errno)
      requires Valid() && fd in open
      modifies this
      ensures Valid() && log == old(log) + [Call(OpRead(old(open)[fd].ticket), n >= 0, files)] && drawn == old(drawn)
      ensures files == old(files) && fd in open
      ensures n >= 0 ==> n <= len && open == old(open)[fd := old(open)[fd].(pos := old(open)[fd].pos + n)]
      ensures n >= 0 ==> |data| == n
      ensures n >= 0 && old(open)[fd].name in files ==>
                var c, p := files[old(open)[fd].name], old(open)[fd].pos;
                data == if p + n <= |c| then c[p..p + n] else []
      ensures n < 0 ==> open == old(open)
    {
      n, errno, data := *, *, [];
      var d := open[fd];
      if n > len {
        n := len;
      }
      if n >= 0 {
        var rest := if d.name in files && d.pos <= |files[d.name]| then files[d.name][d.pos..] else [];
        n := Min(n, |rest|);
        data := rest[..n];
        Moved(fd, d.pos + n);
      }
      Logged(OpRead(d.ticket), n >= 0, log);
    }

    /** Writes some of the bytes at the descriptor's position; 0 when the volume is full. */
    method WriteFile(fd: nat, data: seq<byte>) returns (n: int, errno: Errno, ghost junk: seq<byte>)
      requires Valid() && fd in open
      modifies this
      ensures Valid() && log == old(log) + [Call(OpWrite(old(open)[fd].ticket), n >= 0, files)] && drawn == old(drawn)
      ensures n <= |data| && fd in open
      ensures n >= 0 ==>
                && open == old(open)[fd := old(open)[fd].(pos := old(WriteAt(fd)) + n)]
                && files == Written(old(files), open[fd].name, old(WriteAt(fd)), data[..n])
                && WriteAt(fd) == old(WriteAt(fd)) + n
      ensures n < 0 ==> open == old(open) && files == Spoilt(old(files), open[fd].name, junk)
    {
      n, errno, junk := *, *, *;
      var d := open[fd];
      if n > |data| {
        n := 0;
      }
      if n < 0 {
        var rest: seq<byte> := *;
        files := Spoilt(files, d.name, rest);
        junk := rest;
      } else {
        var at := WriteAt(fd);
        files := Written(files, d.name, at, data[..n]);
        Moved(fd, at + n);
      }
      Logged(OpWrite(d.ticket), n >= 0, log);
    }

    method SyncFile(fd: nat) returns (r: Reply, ghost junk: seq<byte>)
      requires Valid() && fd in open
      modifies this
      ensures Valid() && log == old(log) + [Call(OpSync(old(open)[fd].ticket), r.Done?, files)] && drawn == old(drawn)
      ensures open == old(open)
      ensures files == if r.Done? then old(files) else Spoilt(old(files), open[fd].name, junk)
    {
      r, junk := *, *;
      if r.Failed? {
        var rest: seq<byte> := *;
        files := Spoilt(files, open[fd].name, rest);
        junk := rest;
      }
      Logged(OpSync(open[fd].ticket), r.Done?, log);
    }

    /** Releases the descriptor even when it fails. */
    method CloseFile(fd: nat) returns (r: Reply, ghost junk: seq<byte>)
      requires Valid() && fd in open
      modifies this
      ensures Valid() && log == old(log) + [Call(OpClose(old(open)[fd].ticket), r.Done?, files)] && drawn == old(drawn)
      ensures open == old(open) - {fd}
      ensures files == if r.Done? then old(files) else Spoilt(old(files), old(open)[fd].name, junk)
    {
      r, junk := *, *;
      if r.Failed? {
        var rest: seq<byte> := *;
        files := Spoilt(files, open[fd].name, rest);
        junk := rest;
      }
      var d := open[fd];
      open := open - {fd};
      ghost var c := Call(OpClose(d.ticket), r.Done?, files);
      forall t: nat
        ensures Held(old(open), t) <==> t == d.ticket || Held(open, t)
        ensures Closes(log + [c], t) == Closes(log, t) + (if t == d.ticket then 1 else 0)
        ensures !Held(open, d.ticket)
      {
        ClosesAppends(log, c, t);
        if Held(old(open), t) && t != d.ticket {
          var x :| x in old(open) && old(open)[x].ticket == t;
          assert x in open && open[x].ticket == t;
        }
        if Held(open, t) {
          var x :| x in open && open[x].ticket == t;
          assert old(open)[x].ticket == t;
        }
      }
      log := log + [c];
    }

    method UnlinkFile(name: string) returns (r: Reply)
      requires Valid()
      modifies this
      ensures Valid() && log == old(log) + [Call(OpUnlink(name), r.Done?, files)]
      ensures open == old(open) && drawn == old(drawn)
      ensures files == if r.Done? then Without(old(files), name) else old(files)
    {
      r := *;
      if r.Done? {
        files := Without(files, name);
      }
      Logged(OpUnlink(name), r.Done?, log);
    }

    method RenameFile(source: string, target: string) returns (r: Reply)
      requires Valid()
      modifies this
      ensures Valid() && log == old(log) + [Call(OpRename(source, target), r.Done?, files)]
      ensures open == old(open) && drawn == old(drawn)
      ensures r.Done? ==> source in old(files) && files == Renamed(old(files), source, target)
      ensures r.Failed? ==> files == old(files)
    {
      r := *;
      if r.Done? && source !in files {
        r := Failed(NoEnt);
      }
      if r.Done? {
        files := Renamed(files, source, target);
      }
      Logged(OpRename(source, target), r.Done?, log);
    }

    /** mkdir, and listing a directory: no file changes. */
    method Directory() returns (r: Reply, names: seq<string>)
      requires Valid()
      modifies this`log
      ensures Valid() && log == old(log) + [Call(OpDir, r.Done?, files)]
    {
      r, names := *, *;
      Logged(OpDir, r.Done?, log);
    }

    /** Mounts whatever card is there; only when no descriptor is open. */
    method Mount() returns (err: Err)
      requires Valid() && open == map[]
      modifies this
      ensures Valid() && log == old(log) + [Call(OpMount, err == Ok, files)]
      ensures open == map[] && drawn == old(drawn)
    {
      err := *;
      var card: Disk := *;
      files := card;
      Logged(OpMount, err == Ok, log);
    }

    /** Releases the card; only when no descriptor is open. */
    method Unmount()
      requires Valid() && open == map[]
      modifies this`log
      ensures Valid() && log == old(log) + [Call(OpUnmount, true, files)]
    {
      Logged(OpUnmount, true, log);
    }

    /** Whether the card answers. */
    method Answers() returns (err: Err)
    {
      err := *;
    }
  }
}
