/**
 * Replacing a file by writing a temporary beside it and renaming.
 *
 * A name leads to an inode. Contents not yet synced may be anything after a
 * crash, and so may the choice between the directory entries a name has had:
 * the code never syncs the directory. A rename is one change of the directory.
 */
module AtomicFile {
  import opened Wrappers
  import opened Text

  newtype byte = x: int | 0 <= x < 256

  datatype Inode = Inode(content: seq<byte>, mode: nat, synced: bool)

  /** The directory, the versions of it that a crash may bring back, and the
      inodes they lead to. */
  datatype Disk = Disk(earlier: seq<map<string, nat>>, names: map<string, nat>, inodes: seq<Inode>) {
    ghost predicate Valid() {
      && Leads(names)
      && forall v | v in earlier :: Leads(v)
    }

    predicate Leads(v: map<string, nat>) {
      forall name | name in v :: v[name] < |inodes|
    }

    function Contents(name: string): Option<seq<byte>>
      requires Leads(names)
    {
      if name in names then Some(inodes[names[name]].content) else None
    }

    function Entered(entries: map<string, nat>): Disk {
      Disk(earlier + [names], entries, inodes)
    }

    function Stored(file: nat, inode: Inode): Disk {
      if file < |inodes| then Disk(earlier, names, inodes[file := inode]) else this
    }

    function File(file: nat): Inode {
      if file < |inodes| then inodes[file] else Inode([], 0, false)
    }
  }

  // -------------------------------------------------------------- the changes

  const PRIVATE := 384  // 0600, what os.CreateTemp gives
  const PUBLIC := 420   // 0644

  function Created(d: Disk, name: string): Disk {
    Disk(d.earlier + [d.names], d.names[name := |d.inodes|], d.inodes + [Inode([], PRIVATE, false)])
  }

  function Written(d: Disk, file: nat, bytes: seq<byte>): Disk {
    d.Stored(file, Inode(d.File(file).content + bytes, d.File(file).mode, false))
  }

  function Moded(d: Disk, file: nat, mode: nat): Disk {
    d.Stored(file, Inode(d.File(file).content, mode, false))
  }

  function Synced(d: Disk, file: nat): Disk {
    d.Stored(file, d.File(file).(synced := true))
  }

  function Renamed(d: Disk, source: string, target: string): Disk
    requires source in d.names
  {
    d.Entered((d.names - {source})[target := d.names[source]])
  }

  function Removed(d: Disk, name: string): Disk {
    d.Entered(d.names - {name})
  }

  // ----------------------------------------------------------------- crashes

  /** What one version of the directory may show under a name after a crash. */
  predicate Shows(v: map<string, nat>, inodes: seq<Inode>, name: string, found: Option<seq<byte>>)
    requires name in v ==> v[name] < |inodes|
  {
    if name !in v then found.None?
    else found.Some? && (inodes[v[name]].synced ==> found.value == inodes[v[name]].content)
  }

  /** What may be found under a name after a crash. */
  ghost predicate Survives(d: Disk, name: string, found: Option<seq<byte>>)
    requires d.Valid()
  {
    Shows(d.names, d.inodes, name, found) || exists v | v in d.earlier :: Shows(v, d.inodes, name, found)
  }

  // -------------------------------------------------------------- the program

  datatype Error =
    | MkdirFailed | CreateFailed | WriteFailed | ChmodFailed | SyncFailed | CloseFailed | RenameFailed | RemoveFailed

  datatype Removal = Gone | AlreadyGone | Refused

  /** How the operating system answers each call. The created name is one that
      was not in use; a write that fails has stored some of the bytes. */
  datatype Answers = Answers(mkdir: bool, created: Option<string>, write: bool, stored: nat,
                             chmod: bool, sync: bool, close: bool, rename: bool, removal: Removal)

  /** candidate tells the names os.CreateTemp may try in the directory. */
  ghost predicate Possible(a: Answers, d: Disk, candidate: string -> bool) {
    a.created.Some? ==> a.created.value !in d.names && candidate(a.created.value)
  }

  /** The disks gone through, the present one, and the joined errors. */
  datatype Outcome = Outcome(past: seq<Disk>, now: Disk, errors: seq<Error>) {
    function Then(d: Disk): Outcome {
      Outcome(past + [now], d, errors)
    }

    function Failed(e: Error): Outcome {
      Outcome(past, now, [e])
    }

    function With(more: seq<Error>): Outcome {
      Outcome(past, now, errors + more)
    }
  }

  function StoredBytes(a: Answers, data: seq<byte>): seq<byte> {
    if a.write then data else if a.stored < |data| then data[..a.stored] else data
  }

  /** Absence counts as removal. */
  function RemoveTemporary(o: Outcome, name: string, a: Answers): Outcome {
    if a.removal.Refused? then o.Then(o.now).With([RemoveFailed]) else o.Then(Removed(o.now, name))
  }

  function CloseAndRemove(o: Outcome, name: string, a: Answers): Outcome {
    RemoveTemporary(o.Then(o.now).With(if a.close then [] else [CloseFailed]), name, a)
  }

  /** The temporary is written, given its mode and synced, or given up. */
  function Fill(o: Outcome, a: Answers, file: nat, name: string, data: seq<byte>): Outcome {
    var written := o.Then(Written(o.now, file, StoredBytes(a, data)));
    if !a.write then CloseAndRemove(written.Failed(WriteFailed), name, a)
    else if !a.chmod then CloseAndRemove(written.Then(written.now).Failed(ChmodFailed), name, a)
    else
      var moded := written.Then(Moded(written.now, file, PUBLIC));
      if !a.sync then CloseAndRemove(moded.Then(moded.now).Failed(SyncFailed), name, a)
      else moded.Then(Synced(moded.now, file))
  }

  /** The temporary is closed and takes the target's name, or is given up. */
  function Install(o: Outcome, a: Answers, name: string, filename: string): Outcome
    requires name in o.now.names
  {
    var closed := o.Then(o.now);
    if !a.close then RemoveTemporary(closed.Failed(CloseFailed), name, a)
    else if !a.rename then RemoveTemporary(closed.Then(o.now).Failed(RenameFailed), name, a)
    else closed.Then(Renamed(o.now, name, filename))
  }

  function Run(a: Answers, d: Disk, filename: string, data: seq<byte>): Outcome {
    if !a.mkdir then Outcome([], d, [MkdirFailed])
    else if a.created.None? then Outcome([], d, [CreateFailed])
    else
      var name := a.created.value;
      var filled := Fill(Outcome([d], Created(d, name), []), a, |d.inodes|, name, data);
      if filled.errors != [] then filled else Install(filled, a, name, filename)
  }

  // -------------------------------------------------------------- properties

  /** Whatever a crash leaves under the name was possible at the start, or is
      the complete new contents. */
  ghost predicate CrashSafe(start: Disk, d: Disk, filename: string, data: seq<byte>)
    requires start.Valid()
  {
    && d.Valid()
    && forall found :: Survives(d, filename, found) ==> found == Some(data) || Survives(start, filename, found)
  }

  ghost predicate AlwaysCrashSafe(o: Outcome, start: Disk, filename: string, data: seq<byte>)
    requires start.Valid()
  {
    CrashSafe(start, o.now, filename, data) && forall d | d in o.past :: CrashSafe(start, d, filename, data)
  }

  predicate SameEntry(v: map<string, nat>, w: map<string, nat>, name: string) {
    (name in v <==> name in w) && (name in v ==> v[name] == w[name])
  }

  /** Nothing has happened to the name or to the inodes there were. */
  ghost predicate Untouched(start: Disk, d: Disk, filename: string) {
    && start.Valid() && d.Valid()
    && start.inodes <= d.inodes
    && SameEntry(d.names, start.names, filename)
    && forall v | v in d.earlier :: v in start.earlier || SameEntry(v, start.names, filename)
  }

  lemma UntouchedIsSafe(start: Disk, d: Disk, filename: string, data: seq<byte>)
    requires Untouched(start, d, filename)
    ensures forall found :: Survives(d, filename, found) ==> Survives(start, filename, found)
    ensures CrashSafe(start, d, filename, data)
    ensures d.Contents(filename) == start.Contents(filename)
  {
  }

  lemma StoringKeeps(start: Disk, d: Disk, file: nat, inode: Inode, filename: string)
    requires Untouched(start, d, filename) && |start.inodes| <= file
    ensures Untouched(start, d.Stored(file, inode), filename)
  {
  }

  lemma CreatingKeeps(d: Disk, name: string, filename: string)
    requires d.Valid() && name != filename
    ensures Untouched(d, Created(d, name), filename)
  {
  }

  /** Every disk so far leaves the name alone. */
  ghost predicate AllUntouched(o: Outcome, start: Disk, filename: string) {
    start.Valid() && Untouched(start, o.now, filename) && forall d | d in o.past :: Untouched(start, d, filename)
  }

  lemma AllUntouchedIsSafe(o: Outcome, start: Disk, filename: string, data: seq<byte>)
    requires AllUntouched(o, start, filename)
    ensures AlwaysCrashSafe(o, start, filename, data)
  {
  }

  lemma ThenKeeps(o: Outcome, start: Disk, d: Disk, filename: string)
    requires AllUntouched(o, start, filename) && Untouched(start, d, filename)
    ensures AllUntouched(o.Then(d), start, filename)
  {
  }

  lemma RemovingKeeps(o: Outcome, start: Disk, name: string, filename: string, a: Answers)
    requires AllUntouched(o, start, filename) && name != filename
    ensures AllUntouched(RemoveTemporary(o, name, a), start, filename)
  {
  }

  lemma ClosingKeeps(o: Outcome, start: Disk, name: string, filename: string, a: Answers)
    requires AllUntouched(o, start, filename) && name != filename
    ensures AllUntouched(CloseAndRemove(o, name, a), start, filename)
  {
  }

  lemma FillingKeeps(o: Outcome, start: Disk, a: Answers, file: nat, name: string, filename: string, data: seq<byte>)
    requires AllUntouched(o, start, filename) && name != filename && |start.inodes| <= file
    ensures AllUntouched(Fill(o, a, file, name, data), start, filename)
  {
    var written := o.Then(Written(o.now, file, StoredBytes(a, data)));
    var moded := written.Then(Moded(written.now, file, PUBLIC));
    var was := o.now.File(file);
    StoringKeeps(start, o.now, file, Inode(was.content + StoredBytes(a, data), was.mode, false), filename);
    ThenKeeps(o, start, written.now, filename);
    StoringKeeps(start, written.now, file, Inode(written.now.File(file).content, PUBLIC, false), filename);
    ThenKeeps(written, start, moded.now, filename);
    if !a.write {
      ClosingKeeps(written.Failed(WriteFailed), start, name, filename, a);
    } else if !a.chmod {
      ThenKeeps(written, start, written.now, filename);
      ClosingKeeps(written.Then(written.now).Failed(ChmodFailed), start, name, filename, a);
    } else if !a.sync {
      ThenKeeps(moded, start, moded.now, filename);
      ClosingKeeps(moded.Then(moded.now).Failed(SyncFailed), start, name, filename, a);
    } else {
      StoringKeeps(start, moded.now, file, moded.now.File(file).(synced := true), filename);
      ThenKeeps(moded, start, Synced(moded.now, file), filename);
    }
  }

  /** Filling succeeds exactly when each of its calls does, and then the
      temporary holds all the bytes, durably, and the directory is as it was. */
  lemma FilledExactly(o: Outcome, a: Answers, file: nat, name: string, data: seq<byte>)
    requires o.errors == [] && file < |o.now.inodes|
    ensures var r := Fill(o, a, file, name, data);
            && (r.errors == [] <==> a.write && a.chmod && a.sync)
            && (r.errors == [] ==>
                  r.now == Disk(o.now.earlier, o.now.names,
                                o.now.inodes[file := Inode(o.now.inodes[file].content + data, PUBLIC, true)]))
  {
  }

  /** The synced temporary takes the name in one change. */
  lemma RenamingIsSafe(start: Disk, d: Disk, name: string, filename: string, data: seq<byte>)
    requires Untouched(start, d, filename) && name in d.names
    requires d.inodes[d.names[name]].content == data && d.inodes[d.names[name]].synced
    ensures CrashSafe(start, Renamed(d, name, filename), filename, data)
  {
  }

  /** Until the rename the target is untouched, and the rename brings it the
      complete, synced contents: no crash shows anything else. */
  lemma ReplaceIsSafe(a: Answers, start: Disk, filename: string, data: seq<byte>)
    requires start.Valid() && a.mkdir && a.created.Some? && a.created.value != filename
    ensures AlwaysCrashSafe(Run(a, start, filename, data), start, filename, data)
    ensures Run(a, start, filename, data).errors != [] ==> AllUntouched(Run(a, start, filename, data), start, filename)
  {
    var name, file := a.created.value, |start.inodes|;
    var o := Outcome([start], Created(start, name), []);
    CreatingKeeps(start, name, filename);
    FillingKeeps(o, start, a, file, name, filename, data);
    FilledExactly(o, a, file, name, data);
    var filled := Fill(o, a, file, name, data);
    AllUntouchedIsSafe(filled, start, filename, data);
    if filled.errors == [] {
      var closed := filled.Then(filled.now);
      ThenKeeps(filled, start, filled.now, filename);
      if !a.close {
        RemovingKeeps(closed.Failed(CloseFailed), start, name, filename, a);
        AllUntouchedIsSafe(Install(filled, a, name, filename), start, filename, data);
      } else if !a.rename {
        ThenKeeps(closed, start, closed.now, filename);
        RemovingKeeps(closed.Then(closed.now).Failed(RenameFailed), start, name, filename, a);
        AllUntouchedIsSafe(Install(filled, a, name, filename), start, filename, data);
      } else {
        AllUntouchedIsSafe(closed, start, filename, data);
        assert [] + data == data;
        RenamingIsSafe(start, filled.now, name, filename, data);
      }
    }
  }

  lemma RunIsSafe(a: Answers, start: Disk, filename: string, data: seq<byte>, candidate: string -> bool)
    requires start.Valid() && Possible(a, start, candidate)
    requires filename in start.names || !candidate(filename)
    ensures AlwaysCrashSafe(Run(a, start, filename, data), start, filename, data)
  {
    if a.mkdir && a.created.Some? {
      ReplaceIsSafe(a, start, filename, data);
    } else {
      UntouchedIsSafe(start, start, filename, data);
    }
  }

  /** At every crash point, whatever the answers, the target holds what it could
      hold before or the complete new contents, exactly when its name exists or
      is not one that CreateTemp may pick: the temporary is then another file. */
  lemma CrashSafeExactly(start: Disk, filename: string, data: seq<byte>, candidate: string -> bool)
    requires start.Valid() && start.earlier == []
    ensures (forall a | Possible(a, start, candidate) ::
               AlwaysCrashSafe(Run(a, start, filename, data), start, filename, data))
            <==> filename in start.names || !candidate(filename)
  {
    if filename in start.names || !candidate(filename) {
      forall a | Possible(a, start, candidate)
        ensures AlwaysCrashSafe(Run(a, start, filename, data), start, filename, data)
      {
        RunIsSafe(a, start, filename, data, candidate);
      }
    } else {
      var a := Answers(true, Some(filename), true, 0, true, true, true, false, Gone);
      var o := Run(a, start, filename, data);
      assert Possible(a, start, candidate);
      TornTarget(start, filename, data);
      assert o.past[1] == Created(start, filename);
    }
  }

  /** A temporary of the target's own name shows torn contents after a crash. */
  lemma TornTarget(start: Disk, filename: string, data: seq<byte>)
    requires start.Valid() && start.earlier == [] && filename !in start.names
    ensures !CrashSafe(start, Created(start, filename), filename, data)
  {
    var d, torn := Created(start, filename), Some(data + [0]);
    if d.Valid() {
      assert Shows(d.names, d.inodes, filename, torn) && Survives(d, filename, torn);
      assert !Survives(start, filename, torn);
      assert torn.value[|data|..] == [0];
    }
  }

  const PREFIX := ".openapi-"
  const SUFFIX := ".tmp"

  /** The names that os.CreateTemp may try for the code's pattern: a 64-bit number in
      decimal takes the place of the star. */
  predicate IsTemporaryName(name: string) {
    exists n: nat | n < 0x1_0000_0000_0000_0000 :: name == TemporaryName(n)
  }

  function TemporaryName(n: nat): string {
    PREFIX + Itoa(n) + SUFFIX
  }

  /** No answers of the operating system make replacing a file of an ordinary name
      unsafe, such as the document the program writes by default. */
  lemma OrdinaryTargetIsSafe(a: Answers, start: Disk, filename: string, data: seq<byte>)
    requires start.Valid() && Possible(a, start, IsTemporaryName)
    requires filename == "" || filename[0] != '.'
    ensures AlwaysCrashSafe(Run(a, start, filename, data), start, filename, data)
  {
    assert PREFIX[0] == '.';
    RunIsSafe(a, start, filename, data, IsTemporaryName);
  }

  lemma DefaultTargetIsSafe(a: Answers, start: Disk, data: seq<byte>)
    requires start.Valid() && Possible(a, start, IsTemporaryName)
    ensures AlwaysCrashSafe(Run(a, start, "openapi.json", data), start, "openapi.json", data)
  {
    OrdinaryTargetIsSafe(a, start, "openapi.json", data);
  }

  /** A new file called like a temporary is not safe: the code may be given this
      very name for its temporary, and succeed, and a crash before the sync leaves
      the target torn. */
  lemma TemporaryTargetIsTorn(data: seq<byte>)
    ensures var start := Disk([], map[], []);
            var a := Answers(true, Some(".openapi-1.tmp"), true, 0, true, true, true, true, Gone);
            var o := Run(a, start, ".openapi-1.tmp", data);
            && start.Valid() && Possible(a, start, IsTemporaryName)
            && o.errors == [] && !AlwaysCrashSafe(o, start, ".openapi-1.tmp", data)
  {
    var start, name := Disk([], map[], []), ".openapi-1.tmp";
    assert Itoa(1) == "1" && name == TemporaryName(1);
    var a := Answers(true, Some(name), true, 0, true, true, true, true, Gone);
    var o := Run(a, start, name, data);
    FilledExactly(Outcome([start], Created(start, name), []), a, 0, name, data);
    TornTarget(start, name, data);
    assert o.past[1] == Created(start, name);
  }

  /** No error is returned exactly when every call it made succeeded; the target
      is then the new file, readable, complete and safe from a crash, and no
      other entry has changed. */
  lemma NilMeansInPlace(a: Answers, start: Disk, filename: string, data: seq<byte>, candidate: string -> bool)
    requires start.Valid() && Possible(a, start, candidate)
    ensures var o := Run(a, start, filename, data);
            && (o.errors == [] <==> a.mkdir && a.created.Some? && a.write && a.chmod && a.sync && a.close && a.rename)
            && (o.errors == [] ==>
                  && filename in o.now.names
                  && o.now.File(o.now.names[filename]) == Inode(data, 6 * 64 + 4 * 8 + 4, true)
                  && o.now.names - {filename} == start.names - {filename}
                  && o.now.Valid() && o.now.Contents(filename) == Some(data))
  {
    if a.mkdir && a.created.Some? {
      var names, name, file := start.names, a.created.value, |start.inodes|;
      var o := Outcome([start], Created(start, name), []);
      FilledExactly(o, a, file, name, data);
      assert [] + data == data;
      if a.write && a.chmod && a.sync && a.close && a.rename {
        var now := Run(a, start, filename, data).now;
        assert now.names - {filename} == names - {filename};
        forall v | v in now.earlier ensures now.Leads(v) {
          assert v in start.earlier || v == names || v == names[name := file];
          assert start.Leads(names) && (v in start.earlier ==> start.Leads(v));
        }
      }
    }
  }

  /** The calls up to the rename, in order, by the errors they may return. */
  const CALLS := [MkdirFailed, CreateFailed, WriteFailed, ChmodFailed, SyncFailed, CloseFailed, RenameFailed]

  predicate Succeeds(a: Answers, call: Error) {
    match call
    case MkdirFailed => a.mkdir
    case CreateFailed => a.created.Some?
    case WriteFailed => a.write
    case ChmodFailed => a.chmod
    case SyncFailed => a.sync
    case CloseFailed => a.close
    case RenameFailed => a.rename
    case RemoveFailed => !a.removal.Refused?
  }

  /** The error is that of the first call to fail, and behind it those of closing, where
      the temporary was still open, and of removing it, where there was one. */
  lemma ErrorsExactly(a: Answers, start: Disk, filename: string, data: seq<byte>, k: nat)
    requires k < |CALLS| && !Succeeds(a, CALLS[k]) && forall j | 0 <= j < k :: Succeeds(a, CALLS[j])
    ensures var made, open := k >= 2, 2 <= k < 5;
            Run(a, start, filename, data).errors
            == [CALLS[k]] + (if open && !a.close then [CloseFailed] else [])
               + (if made && a.removal.Refused? then [RemoveFailed] else [])
  {
    assert k > 0 ==> Succeeds(a, CALLS[0]);
    assert k > 1 ==> Succeeds(a, CALLS[1]);
    assert k > 2 ==> Succeeds(a, CALLS[2]);
    assert k > 3 ==> Succeeds(a, CALLS[3]);
    assert k > 4 ==> Succeeds(a, CALLS[4]);
    assert k > 5 ==> Succeeds(a, CALLS[5]);
  }

  /** No removal has failed yet and the temporary's entry is the only change. */
  predicate Begun(o: Outcome, start: Disk, name: string) {
    o.now.names == start.names[name := |start.inodes|] && RemoveFailed !in o.errors
  }

  /** Every entry is as it was but the temporary's, which is left exactly when
      the errors say that its removal failed. */
  predicate Cleared(o: Outcome, start: Disk, created: Option<string>) {
    if RemoveFailed in o.errors then created.Some? && o.now.names == start.names[created.value := |start.inodes|]
    else o.now.names == start.names
  }

  lemma RemovingClears(o: Outcome, start: Disk, name: string, a: Answers)
    requires name !in start.names && Begun(o, start, name)
    ensures Cleared(RemoveTemporary(o, name, a), start, Some(name))
    ensures Cleared(CloseAndRemove(o, name, a), start, Some(name))
  {
  }

  /** Whatever call fails, the temporary is cleared away. */
  lemma ErrorLeavesNoTrace(a: Answers, start: Disk, filename: string, data: seq<byte>, candidate: string -> bool)
    requires Possible(a, start, candidate)
    requires Run(a, start, filename, data).errors != []
    ensures Cleared(Run(a, start, filename, data), start, a.created)
  {
    if a.mkdir && a.created.Some? {
      var name, file := a.created.value, |start.inodes|;
      var o := Outcome([start], Created(start, name), []);
      FillingClears(o, start, a, file, name, data);
      var filled := Fill(o, a, file, name, data);
      if filled.errors == [] {
        var closed := filled.Then(filled.now);
        RemovingClears(closed.Failed(CloseFailed), start, name, a);
        RemovingClears(closed.Then(closed.now).Failed(RenameFailed), start, name, a);
      }
    }
  }

  lemma FillingClears(o: Outcome, start: Disk, a: Answers, file: nat, name: string, data: seq<byte>)
    requires name !in start.names && Begun(o, start, name)
    ensures var r := Fill(o, a, file, name, data);
            if a.write && a.chmod && a.sync then Begun(r, start, name) else Cleared(r, start, Some(name))
  {
  }

  /** In particular the target is untouched, now and after a crash. */
  lemma ErrorLeavesTarget(a: Answers, start: Disk, filename: string, data: seq<byte>, candidate: string -> bool)
    requires start.Valid() && Possible(a, start, candidate)
    requires filename in start.names || !candidate(filename)
    requires Run(a, start, filename, data).errors != []
    ensures var now := Run(a, start, filename, data).now;
            && now.Valid() && now.Contents(filename) == start.Contents(filename)
            && forall found :: Survives(now, filename, found) ==> Survives(start, filename, found)
  {
    var o := Run(a, start, filename, data);
    if a.mkdir && a.created.Some? {
      ReplaceIsSafe(a, start, filename, data);
    }
    UntouchedIsSafe(start, o.now, filename, data);
  }

  // ----------------------------------------------------------------- the code

  /** The directory behind the system calls, and the disks it has been through. */
  class FileSystem {
    var disk: Disk
    ghost var past: seq<Disk>

    ghost function Result(errors: seq<Error>): Outcome
      reads this
    {
      Outcome(past, disk, errors)
    }

    constructor (d: Disk)
      ensures disk == d && past == []
    {
      disk := d;
      past := [];
    }

    method CreateTemp(name: string) returns (file: nat)
      modifies this
      ensures past == old(past) + [old(disk)] && disk == Created(old(disk), name)
      ensures file == |old(disk).inodes|
    {
      file := |disk.inodes|;
      past, disk := past + [disk], Created(disk, name);
    }

    method Write(file: nat, bytes: seq<byte>)
      modifies this
      ensures past == old(past) + [old(disk)] && disk == Written(old(disk), file, bytes)
    {
      past, disk := past + [disk], Written(disk, file, bytes);
    }

    method Chmod(file: nat, ok: bool)
      modifies this
      ensures past == old(past) + [old(disk)] && disk == (if ok then Moded(old(disk), file, PUBLIC) else old(disk))
    {
      past, disk := past + [disk], if ok then Moded(disk, file, PUBLIC) else disk;
    }

    method Sync(file: nat, ok: bool)
      modifies this
      ensures past == old(past) + [old(disk)] && disk == (if ok then Synced(old(disk), file) else old(disk))
    {
      past, disk := past + [disk], if ok then Synced(disk, file) else disk;
    }

    /** Closing leaves the disk alone whether or not it reports an error. */
    method Close()
      modifies this
      ensures past == old(past) + [old(disk)] && disk == old(disk)
    {
      past := past + [disk];
    }

    method Rename(source: string, target: string, ok: bool)
      requires source in disk.names
      modifies this
      ensures past == old(past) + [old(disk)] && disk == (if ok then Renamed(old(disk), source, target) else old(disk))
    {
      past, disk := past + [disk], if ok then Renamed(disk, source, target) else disk;
    }

    /** The errors already there are kept, and the result says whether the temporary
        is gone. */
    method RemoveTemporaryFile(name: string, a: Answers, earlier: seq<Error>) returns (errors: seq<Error>)
      modifies this
      ensures Result(errors) == RemoveTemporary(old(Result(earlier)), name, a)
      ensures disk.inodes == old(disk.inodes)
      ensures RemoveFailed !in earlier ==>
                disk.names == if RemoveFailed in errors then old(disk.names) else old(disk.names) - {name}
      ensures earlier <= errors
    {
      past, disk := past + [disk], if a.removal.Refused? then disk else Removed(disk, name);
      errors := if a.removal.Gone? || a.removal.AlreadyGone? then earlier else earlier + [RemoveFailed];
    }

    method CloseAndRemoveFile(name: string, a: Answers, earlier: seq<Error>) returns (errors: seq<Error>)
      modifies this
      ensures Result(errors) == CloseAndRemove(old(Result(earlier)), name, a)
      ensures disk.inodes == old(disk.inodes)
      ensures RemoveFailed !in earlier ==>
                disk.names == if RemoveFailed in errors then old(disk.names) else old(disk.names) - {name}
      ensures earlier <= errors
    {
      Close();
      errors := RemoveTemporaryFile(name, a, earlier + if a.close then [] else [CloseFailed]);
    }

    /** The first call that fails is reported, joined with what went wrong in
        clearing the temporary away. */
    method WriteAtomic(filename: string, data: seq<byte>, a: Answers) returns (errors: seq<Error>)
      requires past == []
      modifies this
      ensures Result(errors) == Run(a, old(disk), filename, data)
    {
      if !a.mkdir {
        return [MkdirFailed];
      }
      if a.created.None? {
        return [CreateFailed];
      }
      var name := a.created.value;
      ghost var created := Outcome([disk], Created(disk, name), []);
      var file := CreateTemp(name);
      assert Result([]) == created;
      ghost var filled := Fill(created, a, file, name, data);
      Write(file, StoredBytes(a, data));
      if !a.write {
        errors := CloseAndRemoveFile(name, a, [WriteFailed]);
        assert Result(errors) == filled;
        return;
      }
      Chmod(file, a.chmod);
      if !a.chmod {
        errors := CloseAndRemoveFile(name, a, [ChmodFailed]);
        assert Result(errors) == filled;
        return;
      }
      Sync(file, a.sync);
      if !a.sync {
        errors := CloseAndRemoveFile(name, a, [SyncFailed]);
        assert Result(errors) == filled;
        return;
      }
      assert Result([]) == filled;
      Close();
      if !a.close {
        errors := RemoveTemporaryFile(name, a, [CloseFailed]);
        return;
      }
      Rename(name, filename, a.rename);
      if !a.rename {
        errors := RemoveTemporaryFile(name, a, [RenameFailed]);
        return;
      }
      errors := [];
    }
  }
}
