/** The seed runner as a protocol: any number of processes, one advisory lock,
    one history table, and a failure, a lost session, a crash or an unacknowledged
    commit possible at every step. */
module SeedRunner {
  import opened Wrappers
  import opened Sequences
  import opened SeedFiles

  /** A row of bootstrap_seed_history, whose primary key is the seed name. */
  datatype Record = Record(checksum: string, position: int)

  /** A seed whose body has been committed, with the file it was read from. */
  datatype AppliedSeed = AppliedSeed(name: string, contents: string)

  /** The committed state: the history table, and the seed bodies in commit order. */
  datatype Database = Database(history: map<string, Record>, applied: seq<AppliedSeed>)

  datatype Stage = Beginning | Executing | Recording | Recorded | Committing

  datatype Reason = HistoryMismatch | InvalidSeed | FailedOrCrashed

  datatype Phase =
    | Waiting                                            // blocked on the advisory lock
    | Locked                                             // history not yet validated
    | AtSeed(index: nat)                                 // about to read and check a seed
    | Applying(stage: Stage, index: nat, contents: string)
    | Done
    | Stopped(reason: Reason)

  /** A process and its server session. A COMMIT that was sent stays pending in
      the session, which keeps the lock, even when the process is gone. */
  datatype Process = Process(
    manifest: seq<string>,
    phase: Phase,
    connected: bool,
    pending: Option<(nat, string)>,
    wrote: bool)

  datatype System = System(db: Database, lock: Option<nat>, procs: map<nat, Process>)

  datatype Event =
    | Start(p: nat, manifest: seq<string>)
    | Acquire(p: nat)
    | Validate(p: nat)
    | Check(p: nat, contents: string)
    | Begin(p: nat)
    | Execute(p: nat)
    | Insert(p: nat)
    | SendCommit(p: nat)
    | Resolve(p: nat, committed: bool)
    | Finish(p: nat)
    | Fail(p: nat)
    | EndSession(p: nat)

  // ------------------------------------------------------- the code's checks

  /** What the program computes from a file: its checksum, and whether it has the
      transaction wrapper that every seed must have. */
  datatype Code = Code(hash: string -> string, unwraps: string -> bool)

  predicate RowMatches(manifest: seq<string>, name: string, position: int) {
    1 <= position <= |manifest| && manifest[position - 1] == name
  }

  /** validateHistory succeeds. */
  predicate HistoryMatches(history: map<string, Record>, manifest: seq<string>) {
    forall name | name in history :: RowMatches(manifest, name, history[name].position)
  }

  datatype CheckResult = NotApplied | AlreadyApplied | ChecksumChanged | PositionChanged

  function CheckHistory(history: map<string, Record>, name: string, expected: Record): CheckResult {
    if name !in history then NotApplied
    else if history[name].checksum != expected.checksum then ChecksumChanged
    else if history[name].position != expected.position then PositionChanged
    else AlreadyApplied
  }

  /** The table's constraints admit a new row. */
  predicate Insertable(history: map<string, Record>, name: string, position: int) {
    && name !in history
    && position > 0
    && forall other | other in history :: history[other].position != position
  }

  function Committed(code: Code, db: Database, name: string, i: nat, contents: string): Database {
    Database(
      db.history[name := Record(code.hash(contents), i + 1)],
      db.applied + [AppliedSeed(name, contents)])
  }

  // ----------------------------------------------------------- one transition

  /** The transition of one process on a working session; None when not enabled. */
  function Advance(code: Code, db: Database, e: Event, me: Process): Option<Process> {
    match (e, me.phase)
    case (Validate(_), Locked) =>
      Some(me.(phase := if HistoryMatches(db.history, me.manifest) then AtSeed(0) else Stopped(HistoryMismatch)))
    case (Check(_, contents), AtSeed(i)) =>
      if i >= |me.manifest| then None else Some(me.(phase := AfterCheck(code, db, me.manifest, i, contents)))
    case (Begin(_), Applying(Beginning, i, contents)) =>
      Some(me.(phase := Applying(Executing, i, contents)))
    case (Execute(_), Applying(Executing, i, contents)) =>
      Some(me.(phase := Applying(Recording, i, contents)))
    case (Insert(_), Applying(Recording, i, contents)) =>
      if i < |me.manifest| && Insertable(db.history, me.manifest[i], i + 1)
      then Some(me.(phase := Applying(Recorded, i, contents)))
      else None
    case (SendCommit(_), Applying(Recorded, i, contents)) =>
      Some(me.(phase := Applying(Committing, i, contents), pending := Some((i, contents))))
    case (Finish(_), AtSeed(i)) =>
      if i == |me.manifest| then Some(me.(phase := Done)) else None
    case _ => None
  }

  /** Where a process goes after reading and checking seed i. */
  function AfterCheck(code: Code, db: Database, manifest: seq<string>, i: nat, contents: string): Phase
    requires i < |manifest|
  {
    match CheckHistory(db.history, manifest[i], Record(code.hash(contents), i + 1))
    case AlreadyApplied => AtSeed(i + 1)
    case NotApplied =>
      if code.unwraps(contents) then Applying(Beginning, i, contents) else Stopped(InvalidSeed)
    case _ => Stopped(HistoryMismatch)
  }

  predicate Alive(phase: Phase) {
    !phase.Done? && !phase.Stopped?
  }

  /** The server decides a pending COMMIT; a process still waiting learns the truth. */
  function Resolved(me: Process, committed: bool): Process
    requires me.pending.Some?
  {
    var i := me.pending.value.0;
    me.(pending := None,
        wrote := me.wrote || committed,
        phase := if !me.phase.Applying? then me.phase
                 else if committed then AtSeed(i + 1)
                 else Stopped(FailedOrCrashed))
  }

  function Step(code: Code, s: System, e: Event): Option<System> {
    if e.Start? then
      if e.p !in s.procs && ValidManifest(e.manifest)
      then Some(s.(procs := s.procs[e.p := Process(e.manifest, Waiting, true, None, false)]))
      else None
    else if e.p !in s.procs then None
    else
      var me := s.procs[e.p];
      match e
      case Fail(p) =>
        if Alive(me.phase) then Some(s.(procs := s.procs[p := me.(phase := Stopped(FailedOrCrashed))])) else None
      case EndSession(p) =>
        if me.connected && me.pending.None?
        then Some(s.(procs := s.procs[p := me.(connected := false)],
                     lock := if s.lock == Some(p) then None else s.lock))
        else None
      case Acquire(p) =>
        if me.connected && me.phase.Waiting? && s.lock.None?
        then Some(s.(lock := Some(p), procs := s.procs[p := me.(phase := Locked)]))
        else None
      case Resolve(p, committed) =>
        if me.connected && me.pending.Some? && me.pending.value.0 < |me.manifest|
        then
          var (i, contents) := me.pending.value;
          Some(s.(db := if committed then Committed(code, s.db, me.manifest[i], i, contents) else s.db,
                  procs := s.procs[p := Resolved(me, committed)]))
        else None
      case _ =>
        if !me.connected then None
        else
          match Advance(code, s.db, e, me)
          case Some(next) => Some(s.(procs := s.procs[e.p := next]))
          case None => None
  }

  function Run(code: Code, s: System, events: seq<Event>): Option<System>
    decreases |events|
  {
    if events == [] then Some(s)
    else
      match Run(code, s, events[..|events| - 1])
      case Some(before) => Step(code, before, events[|events| - 1])
      case None => None
  }

  const INITIAL: System := System(Database(map[], []), None, map[])

  // ---------------------------------------------------------------- invariant

  function Names(applied: seq<AppliedSeed>): (names: seq<string>)
    ensures |names| == |applied|
    ensures forall k | 0 <= k < |applied| :: names[k] == applied[k].name
  {
    seq(|applied|, k requires 0 <= k < |applied| => applied[k].name)
  }

  /** Commit k wrote the history row of position k + 1, with its file's checksum. */
  ghost predicate CommitRecorded(code: Code, db: Database, k: nat)
    requires k < |db.applied|
  {
    var seed := db.applied[k];
    && seed.name in db.history
    && db.history[seed.name] == Record(code.hash(seed.contents), k + 1)
    && code.unwraps(seed.contents)
  }

  /** Every commit has its row, and every row its commit. */
  ghost predicate HistoryIsApplied(code: Code, db: Database) {
    && (forall k: nat | k < |db.applied| :: CommitRecorded(code, db, k))
    && (forall name | name in db.history :: RowMatches(Names(db.applied), name, db.history[name].position))
  }

  /** The seeds applied so far are the first ones of the manifest. */
  ghost predicate Follows(db: Database, manifest: seq<string>) {
    Names(db.applied) <= manifest
  }

  ghost predicate NextToApply(code: Code, db: Database, me: Process, i: nat, contents: string) {
    && Follows(db, me.manifest)
    && i == |db.applied| < |me.manifest|
    && code.unwraps(contents)
  }

  ghost predicate PhaseOk(code: Code, db: Database, me: Process) {
    match me.phase
    case Waiting => me.pending.None? && !me.wrote
    case Locked => me.pending.None? && !me.wrote
    case AtSeed(i) =>
      && me.pending.None?
      && (me.connected ==> Follows(db, me.manifest) && i <= |db.applied| && (me.wrote ==> i == |db.applied|))
    case Applying(stage, i, contents) =>
      && me.pending == (if stage.Committing? then Some((i, contents)) else None)
      && (me.connected ==> NextToApply(code, db, me, i, contents))
    case Done => me.pending.None? && me.manifest <= Names(db.applied)
    case Stopped(reason) => !reason.FailedOrCrashed? ==> me.pending.None? && (reason.HistoryMismatch? ==> !me.wrote)
  }

  ghost predicate ProcessOk(code: Code, db: Database, lock: Option<nat>, p: nat, me: Process) {
    && ValidManifest(me.manifest)
    && PhaseOk(code, db, me)
    && (me.connected && (me.phase.Locked? || me.phase.AtSeed? || me.phase.Applying?) ==> lock == Some(p))
    && (me.pending.Some? ==>
          && me.connected && lock == Some(p)
          && NextToApply(code, db, me, me.pending.value.0, me.pending.value.1))
  }

  ghost predicate Inv(code: Code, s: System) {
    && HistoryIsApplied(code, s.db)
    && forall p | p in s.procs :: ProcessOk(code, s.db, s.lock, p, s.procs[p])
  }

  lemma AlreadyInHistory(code: Code, db: Database, manifest: seq<string>, i: nat)
    requires HistoryIsApplied(code, db) && Follows(db, manifest)
    requires i < |db.applied|
    ensures manifest[i] in db.history && db.history[manifest[i]].position == i + 1
  {
    assert CommitRecorded(code, db, i);
    assert Names(db.applied)[i] == manifest[i];
  }

  lemma NotYetInHistory(code: Code, db: Database, manifest: seq<string>, i: nat)
    requires HistoryIsApplied(code, db) && Follows(db, manifest) && Distinct(manifest)
    requires |db.applied| <= i < |manifest|
    ensures manifest[i] !in db.history
  {
  }

  /** A history validates exactly when it is the beginning of the manifest. */
  lemma ValidatedFollows(code: Code, db: Database, manifest: seq<string>)
    requires HistoryIsApplied(code, db)
    ensures HistoryMatches(db.history, manifest) <==> Follows(db, manifest)
  {
    var names := Names(db.applied);
    if HistoryMatches(db.history, manifest) {
      forall k: nat | k < |names| ensures k < |manifest| && manifest[k] == names[k] {
        assert CommitRecorded(code, db, k);
        assert RowMatches(manifest, names[k], k + 1);
      }
      if names != [] {
        assert CommitRecorded(code, db, |names| - 1);
        assert RowMatches(manifest, names[|names| - 1], |names|);
      }
    }
    if Follows(db, manifest) {
      forall name | name in db.history ensures RowMatches(manifest, name, db.history[name].position) {
        assert RowMatches(names, name, db.history[name].position);
      }
    }
  }

  lemma CommitKeepsRecords(code: Code, db: Database, name: string, contents: string)
    requires HistoryIsApplied(code, db) && name !in db.history && code.unwraps(contents)
    ensures HistoryIsApplied(code, Committed(code, db, name, |db.applied|, contents))
  {
    var i := |db.applied|;
    var after := Committed(code, db, name, i, contents);
    forall k: nat | k < |after.applied| ensures CommitRecorded(code, after, k) {
      if k < i {
        assert CommitRecorded(code, db, k);
      }
    }
    forall other | other in after.history
      ensures RowMatches(Names(after.applied), other, after.history[other].position)
    {
      if other != name {
        assert RowMatches(Names(db.applied), other, db.history[other].position);
      }
    }
  }

  lemma CommitKeepsHistory(code: Code, db: Database, manifest: seq<string>, contents: string)
    requires HistoryIsApplied(code, db) && Follows(db, manifest) && Distinct(manifest)
    requires |db.applied| < |manifest| && code.unwraps(contents)
    ensures var i := |db.applied|;
            var after := Committed(code, db, manifest[i], i, contents);
            && HistoryIsApplied(code, after) && Follows(after, manifest)
            && Names(after.applied) == Names(db.applied) + [manifest[i]]
            && manifest[i] !in db.history
  {
    var i := |db.applied|;
    NotYetInHistory(code, db, manifest, i);
    CommitKeepsRecords(code, db, manifest[i], contents);
    assert Names(Committed(code, db, manifest[i], i, contents).applied) == Names(db.applied) + [manifest[i]];
  }

  lemma CheckIsSound(code: Code, db: Database, me: Process, i: nat, contents: string)
    requires HistoryIsApplied(code, db) && ValidManifest(me.manifest)
    requires me.phase == AtSeed(i) && me.connected && PhaseOk(code, db, me) && i < |me.manifest|
    ensures PhaseOk(code, db, me.(phase := AfterCheck(code, db, me.manifest, i, contents)))
  {
    if i < |db.applied| {
      AlreadyInHistory(code, db, me.manifest, i);
    } else {
      NotYetInHistory(code, db, me.manifest, i);
    }
  }

  lemma AdvanceKeepsProcess(code: Code, db: Database, lock: Option<nat>, e: Event, p: nat, me: Process)
    requires HistoryIsApplied(code, db) && ProcessOk(code, db, lock, p, me) && me.connected
    requires Advance(code, db, e, me).Some?
    ensures ProcessOk(code, db, lock, p, Advance(code, db, e, me).value)
  {
    match me.phase
    case Locked => ValidatedFollows(code, db, me.manifest);
    case AtSeed(i) =>
      if e.Check? {
        CheckIsSound(code, db, me, i, e.contents);
      }
    case _ =>
  }

  /** A process that does not hold the lock tolerates any append. */
  lemma BystanderKeeps(code: Code, db: Database, after: Database, lock: Option<nat>, p: nat, me: Process)
    requires ProcessOk(code, db, lock, p, me) && lock != Some(p)
    requires Names(db.applied) <= Names(after.applied)
    ensures ProcessOk(code, after, lock, p, me)
  {
  }

  lemma ResolveKeepsInv(code: Code, s: System, p: nat, committed: bool)
    requires Inv(code, s) && Step(code, s, Resolve(p, committed)).Some?
    ensures Inv(code, Step(code, s, Resolve(p, committed)).value)
  {
    var me := s.procs[p];
    var t := Step(code, s, Resolve(p, committed)).value;
    var (i, contents) := me.pending.value;
    CommitKeepsHistory(code, s.db, me.manifest, contents);
    assert ProcessOk(code, t.db, t.lock, p, t.procs[p]);
    forall q | q in t.procs && q != p ensures ProcessOk(code, t.db, t.lock, q, t.procs[q]) {
      BystanderKeeps(code, s.db, t.db, s.lock, q, s.procs[q]);
    }
  }

  lemma StepKeepsInv(code: Code, s: System, e: Event)
    requires Inv(code, s)
    ensures Step(code, s, e).Some? ==> Inv(code, Step(code, s, e).value)
  {
    if Step(code, s, e).None? {
      return;
    }
    var t := Step(code, s, e).value;
    if e.Resolve? {
      ResolveKeepsInv(code, s, e.p, e.committed);
    } else {
      if !e.Start? && !e.Fail? && !e.EndSession? && !e.Acquire? {
        AdvanceKeepsProcess(code, s.db, s.lock, e, e.p, s.procs[e.p]);
      }
      assert ProcessOk(code, t.db, t.lock, e.p, t.procs[e.p]);
      forall q | q in t.procs && q != e.p ensures ProcessOk(code, t.db, t.lock, q, t.procs[q]) {
        assert ProcessOk(code, s.db, s.lock, q, s.procs[q]);
      }
    }
  }

  /** Every reachable state satisfies the invariant. */
  lemma {:induction false} RunsKeepInv(code: Code, s: System, events: seq<Event>)
    requires Inv(code, s) && Run(code, s, events).Some?
    ensures Inv(code, Run(code, s, events).value)
    decreases |events|
  {
    if events != [] {
      RunsKeepInv(code, s, events[..|events| - 1]);
      StepKeepsInv(code, Run(code, s, events[..|events| - 1]).value, events[|events| - 1]);
    }
  }

  // ------------------------------------------------------- what runs guarantee

  /** One row for each position 1..k, in the order of the commits, with distinct
      names and the checksums of the files whose bodies were committed. */
  ghost predicate ExactHistory(code: Code, db: Database) {
    && |db.history| == |db.applied|
    && Distinct(Names(db.applied))
    && db.history.Keys == ToSet(Names(db.applied))
    && forall k: nat | k < |db.applied| :: CommitRecorded(code, db, k)
  }

  lemma AppliedIsExact(code: Code, db: Database)
    requires HistoryIsApplied(code, db)
    ensures ExactHistory(code, db)
  {
    var names := Names(db.applied);
    forall i: nat, j: nat | i < j < |names| ensures names[i] != names[j] {
      assert CommitRecorded(code, db, i) && CommitRecorded(code, db, j);
    }
    forall name ensures name in db.history <==> name in names {
      RowsAreCommits(code, db, name);
    }
    assert db.history.Keys == ToSet(names);
    DistinctSize(names);
    assert |db.history| == |db.history.Keys|;
  }

  lemma RowsAreCommits(code: Code, db: Database, name: string)
    requires HistoryIsApplied(code, db)
    ensures name in db.history <==> name in Names(db.applied)
  {
    var names := Names(db.applied);
    if name in db.history {
      assert RowMatches(names, name, db.history[name].position);
    }
    if name in names {
      var i: nat :| i < |names| && names[i] == name;
      assert CommitRecorded(code, db, i);
    }
  }

  /** After every run, however it was interleaved and interrupted, the history is
      exact: every committed seed body is in it once, in order, and nothing else is. */
  lemma HistoryIsExact(code: Code, events: seq<Event>)
    requires Run(code, INITIAL, events).Some?
    ensures ExactHistory(code, Run(code, INITIAL, events).value.db)
  {
    RunsKeepInv(code, INITIAL, events);
    AppliedIsExact(code, Run(code, INITIAL, events).value.db);
  }

  ghost predicate Appends(before: Database, after: Database) {
    && before.applied <= after.applied
    && forall name | name in before.history :: name in after.history && after.history[name] == before.history[name]
  }

  lemma StepAppends(code: Code, s: System, e: Event)
    requires Inv(code, s)
    ensures Step(code, s, e).Some? ==> Appends(s.db, Step(code, s, e).value.db)
  {
    if e.Resolve? && Step(code, s, e).Some? {
      CommitKeepsHistory(code, s.db, s.procs[e.p].manifest, s.procs[e.p].pending.value.1);
    }
  }

  /** Nothing in the database is ever changed or removed, only appended to. */
  lemma {:induction false} RunsAppend(code: Code, s: System, events: seq<Event>)
    requires Inv(code, s) && Run(code, s, events).Some?
    ensures Appends(s.db, Run(code, s, events).value.db)
    decreases |events|
  {
    if events != [] {
      var init := events[..|events| - 1];
      RunsAppend(code, s, init);
      RunsKeepInv(code, s, init);
      StepAppends(code, Run(code, s, init).value, events[|events| - 1]);
    }
  }

  /** A process that finishes leaves a history equal to its whole manifest. */
  lemma FinishedRunIsComplete(code: Code, s: System, p: nat)
    requires Inv(code, s) && Step(code, s, Finish(p)).Some?
    ensures Names(s.db.applied) == s.procs[p].manifest
    ensures Step(code, s, Finish(p)).value.db == s.db
  {
  }

  /** Wherever a run is stopped by a history or checksum mismatch, it wrote nothing. */
  lemma MismatchWroteNothing(code: Code, events: seq<Event>, p: nat)
    requires Run(code, INITIAL, events).Some?
    requires p in Run(code, INITIAL, events).value.procs
    requires Run(code, INITIAL, events).value.procs[p].phase == Stopped(HistoryMismatch)
    ensures !Run(code, INITIAL, events).value.procs[p].wrote
  {
    RunsKeepInv(code, INITIAL, events);
    var s := Run(code, INITIAL, events).value;
    assert ProcessOk(code, s.db, s.lock, p, s.procs[p]);
  }

  /** The flag records exactly the commits of the process. */
  lemma WroteTracksCommits(code: Code, s: System, e: Event, p: nat)
    requires Step(code, s, e).Some? && p in s.procs
    ensures var t := Step(code, s, e).value;
            && p in t.procs
            && (e.p != p ==> t.procs[p] == s.procs[p])
            && (e.p == p ==> t.procs[p].wrote == (s.procs[p].wrote || e == Resolve(p, true)))
            && (!(e.Resolve? && e.committed) ==> t.db == s.db)
  {
  }

  /** Rerunning a manifest that is already the whole history never writes. */
  lemma RerunAppliesNothing(code: Code, s: System, e: Event)
    requires Inv(code, s) && Step(code, s, e).Some?
    requires e.p in s.procs && s.procs[e.p].manifest == Names(s.db.applied)
    ensures Step(code, s, e).value.db == s.db
  {
  }

  /** With unchanged files such a rerun passes every check. */
  lemma RerunPassesChecks(code: Code, s: System, p: nat, contents: string)
    requires Inv(code, s) && p in s.procs && s.procs[p].manifest == Names(s.db.applied)
    requires s.procs[p].phase.AtSeed? && s.procs[p].connected
    requires s.procs[p].phase.index < |s.db.applied|
    requires code.hash(contents) == code.hash(s.db.applied[s.procs[p].phase.index].contents)
    ensures var i := s.procs[p].phase.index;
            && Step(code, s, Check(p, contents)).Some?
            && Step(code, s, Check(p, contents)).value.procs[p].phase == AtSeed(i + 1)
  {
    var i := s.procs[p].phase.index;
    assert CommitRecorded(code, s.db, i);
  }

  /** After validation on a duplicate-free manifest, no check can find a changed
      position, whatever the table holds. */
  lemma PositionMismatchUnreachable(history: map<string, Record>, manifest: seq<string>, i: nat, checksum: string)
    requires HistoryMatches(history, manifest) && Distinct(manifest) && i < |manifest|
    ensures CheckHistory(history, manifest[i], Record(checksum, i + 1)) != PositionChanged
  {
  }

  /** At most one live session applies a seed or has a COMMIT pending, even when the
      processes of both are gone. */
  lemma LockExcludes(code: Code, events: seq<Event>, p: nat, q: nat)
    requires Run(code, INITIAL, events).Some?
    requires var procs := Run(code, INITIAL, events).value.procs;
             p in procs && q in procs && procs[p].connected && procs[q].connected
             && (procs[p].phase.Applying? || procs[p].pending.Some?)
             && (procs[q].phase.Applying? || procs[q].pending.Some?)
    ensures p == q
  {
    RunsKeepInv(code, INITIAL, events);
    var s := Run(code, INITIAL, events).value;
    assert ProcessOk(code, s.db, s.lock, p, s.procs[p]) && ProcessOk(code, s.db, s.lock, q, s.procs[q]);
  }

  /** Who holds the lock is connected and no longer waiting for it. */
  ghost predicate HolderIsLive(s: System) {
    s.lock.Some? ==>
      s.lock.value in s.procs && s.procs[s.lock.value].connected && !s.procs[s.lock.value].phase.Waiting?
  }

  lemma StepKeepsHolder(code: Code, s: System, e: Event)
    requires HolderIsLive(s) && Step(code, s, e).Some?
    ensures HolderIsLive(Step(code, s, e).value)
  {
  }

  lemma {:induction false} RunsKeepHolder(code: Code, events: seq<Event>)
    requires Run(code, INITIAL, events).Some?
    ensures HolderIsLive(Run(code, INITIAL, events).value)
    decreases |events|
  {
    if events != [] {
      RunsKeepHolder(code, events[..|events| - 1]);
      StepKeepsHolder(code, Run(code, INITIAL, events[..|events| - 1]).value, events[|events| - 1]);
    }
  }

  /** Process q takes the lock and nothing else happens. */
  ghost predicate Takes(code: Code, s: System, q: nat) {
    var taken := Step(code, s, Acquire(q));
    && q in s.procs && taken.Some?
    && taken.value == s.(lock := Some(q), procs := s.procs[q := s.procs[q].(phase := Locked)])
  }

  /** The lock is never lost: in every reachable state a connected waiting process can take
      it at once, or as soon as the session of its holder has ended, for which at most a
      pending COMMIT has to be resolved. */
  lemma WaiterProceeds(code: Code, events: seq<Event>, q: nat, committed: bool)
    requires Run(code, INITIAL, events).Some?
    requires var s := Run(code, INITIAL, events).value;
             q in s.procs && s.procs[q].connected && s.procs[q].phase.Waiting?
    ensures var s := Run(code, INITIAL, events).value;
            match s.lock
            case None => Takes(code, s, q)
            case Some(p) =>
              && p in s.procs && p != q
              && var settled := if s.procs[p].pending.Some? then Step(code, s, Resolve(p, committed)) else Some(s);
                 && settled.Some?
                 && var ended := Step(code, settled.value, EndSession(p));
                    ended.Some? && Takes(code, ended.value, q)
  {
    var s := Run(code, INITIAL, events).value;
    RunsKeepInv(code, INITIAL, events);
    RunsKeepHolder(code, events);
    if s.lock.Some? {
      assert ProcessOk(code, s.db, s.lock, s.lock.value, s.procs[s.lock.value]);
    }
  }
}
