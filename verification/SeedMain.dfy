/** One seed run as the program performs it, shown to be a run of the protocol. */
module SeedMain {
  import opened Wrappers
  import opened Sequences
  import opened SeedFiles
  import opened SeedRunner

  /** How the database answers the statements that apply one seed. */
  datatype Answer =
    | Succeeds
    | FailsAt(stage: Stage)
    | CommitFails(committed: bool)    // an error from COMMIT, whatever became of it

  // ------------------------------------------------------------ reachability

  ghost predicate Reaches(code: Code, s: System, t: System) {
    exists events :: Run(code, s, events) == Some(t)
  }

  lemma ReachesItself(code: Code, s: System)
    ensures Reaches(code, s, s)
  {
    assert Run(code, s, []) == Some(s);
  }

  lemma ReachStep(code: Code, s: System, t: System, e: Event)
    requires Reaches(code, s, t) && Step(code, t, e).Some?
    ensures Reaches(code, s, Step(code, t, e).value)
  {
    var events :| Run(code, s, events) == Some(t);
    assert (events + [e])[..|events|] == events;
    assert Run(code, s, events + [e]) == Step(code, t, e);
  }

  /** The system in which process 0 runs alone, holding the lock. */
  ghost function Solo(db: Database, manifest: seq<string>, phase: Phase, pending: Option<(nat, string)>,
      wrote: bool): System {
    System(db, Some(0), map[0 := Process(manifest, phase, true, pending, wrote)])
  }

  lemma ReachSolo(code: Code, s: System, db: Database, manifest: seq<string>, phase: Phase, wrote: bool,
      e: Event)
    requires Reaches(code, s, Solo(db, manifest, phase, None, wrote))
    requires e.p == 0 && !e.Start? && !e.Fail? && !e.EndSession? && !e.Acquire? && !e.Resolve?
    requires Advance(code, db, e, Process(manifest, phase, true, None, wrote)).Some?
    ensures var next := Advance(code, db, e, Process(manifest, phase, true, None, wrote)).value;
            Reaches(code, s, Solo(db, manifest, next.phase, next.pending, wrote))
  {
    var t := Solo(db, manifest, phase, None, wrote);
    var next := Advance(code, db, e, t.procs[0]).value;
    assert t.procs[0 := next] == map[0 := next];
    ReachStep(code, s, t, e);
  }

  lemma ReachFail(code: Code, s: System, db: Database, manifest: seq<string>, phase: Phase,
      pending: Option<(nat, string)>, wrote: bool)
    requires Reaches(code, s, Solo(db, manifest, phase, pending, wrote)) && Alive(phase)
    ensures Reaches(code, s, Solo(db, manifest, Stopped(FailedOrCrashed), pending, wrote))
  {
    var t := Solo(db, manifest, phase, pending, wrote);
    var next := t.procs[0].(phase := Stopped(FailedOrCrashed));
    assert t.procs[0 := next] == map[0 := next];
    ReachStep(code, s, t, Fail(0));
  }

  lemma ReachResolve(code: Code, s: System, db: Database, manifest: seq<string>, phase: Phase, i: nat,
      contents: string, wrote: bool, committed: bool)
    requires Reaches(code, s, Solo(db, manifest, phase, Some((i, contents)), wrote)) && i < |manifest|
    ensures var next := Resolved(Process(manifest, phase, true, Some((i, contents)), wrote), committed);
            Reaches(code, s, Solo(if committed then Committed(code, db, manifest[i], i, contents) else db,
                                  manifest, next.phase, None, wrote || committed))
  {
    var t := Solo(db, manifest, phase, Some((i, contents)), wrote);
    var next := Resolved(t.procs[0], committed);
    assert t.procs[0 := next] == map[0 := next];
    ReachStep(code, s, t, Resolve(0, committed));
  }

  // --------------------------------------------------- the statements of main

  ghost predicate Commits(answer: Answer) {
    answer.Succeeds? || (answer.CommitFails? && answer.committed)
  }

  ghost function AfterApply(code: Code, db: Database, manifest: seq<string>, i: nat, contents: string,
      answer: Answer): Database
    requires i < |manifest|
  {
    if Commits(answer) then Committed(code, db, manifest[i], i, contents) else db
  }

  /** Applying one seed is a run of protocol steps, whatever the database answers. */
  lemma ApplyIsARun(code: Code, s: System, db: Database, manifest: seq<string>, i: nat, contents: string,
      wrote: bool, answer: Answer)
    requires i < |manifest| && Insertable(db.history, manifest[i], i + 1)
    requires Reaches(code, s, Solo(db, manifest, Applying(Beginning, i, contents), None, wrote))
    ensures Reaches(code, s, Solo(AfterApply(code, db, manifest, i, contents, answer), manifest,
                                  if answer.Succeeds? then AtSeed(i + 1) else Stopped(FailedOrCrashed),
                                  None, wrote || Commits(answer)))
  {
    if answer.FailsAt? && answer.stage.Beginning? {
      ReachFail(code, s, db, manifest, Applying(Beginning, i, contents), None, wrote);
    } else {
      ReachSolo(code, s, db, manifest, Applying(Beginning, i, contents), wrote, Begin(0));
      if answer.FailsAt? && answer.stage.Executing? {
        ReachFail(code, s, db, manifest, Applying(Executing, i, contents), None, wrote);
      } else {
        ReachSolo(code, s, db, manifest, Applying(Executing, i, contents), wrote, Execute(0));
        RecordIsARun(code, s, db, manifest, i, contents, wrote, answer);
      }
    }
  }

  lemma RecordIsARun(code: Code, s: System, db: Database, manifest: seq<string>, i: nat,
      contents: string, wrote: bool, answer: Answer)
    requires i < |manifest| && Insertable(db.history, manifest[i], i + 1)
    requires Reaches(code, s, Solo(db, manifest, Applying(Recording, i, contents), None, wrote))
    ensures Reaches(code, s, Solo(AfterApply(code, db, manifest, i, contents, answer), manifest,
                                  if answer.Succeeds? then AtSeed(i + 1) else Stopped(FailedOrCrashed),
                                  None, wrote || Commits(answer)))
  {
    if answer.FailsAt? {
      ReachFail(code, s, db, manifest, Applying(Recording, i, contents), None, wrote);
    } else {
      ReachSolo(code, s, db, manifest, Applying(Recording, i, contents), wrote, Insert(0));
      ReachSolo(code, s, db, manifest, Applying(Recorded, i, contents), wrote, SendCommit(0));
      if answer.Succeeds? {
        ReachResolve(code, s, db, manifest, Applying(Committing, i, contents), i, contents, wrote, true);
      } else {
        ReachFail(code, s, db, manifest, Applying(Committing, i, contents), Some((i, contents)), wrote);
        ReachResolve(code, s, db, manifest, Stopped(FailedOrCrashed), i, contents, wrote, answer.committed);
      }
    }
  }

  lemma NextRowInsertable(code: Code, db: Database, manifest: seq<string>)
    requires HistoryIsApplied(code, db) && Follows(db, manifest) && Distinct(manifest)
    requires |db.applied| < |manifest|
    ensures Insertable(db.history, manifest[|db.applied|], |db.applied| + 1)
  {
  }

  /** What holds whenever the loop, started on the given database, is at a phase. */
  ghost predicate ProgressAt(code: Code, begin: Database, db: Database, manifest: seq<string>,
      phase: Phase, wrote: bool) {
    && Reaches(code, System(begin, None, map[]), Solo(db, manifest, phase, None, wrote))
    && HistoryIsApplied(code, db)
    && Appends(begin, db)
    && (!wrote ==> db == begin)
  }

  lemma AppendsTransitive(a: Database, b: Database, c: Database)
    requires Appends(a, b) && Appends(b, c)
    ensures Appends(a, c)
  {
  }

  lemma ApplyProgresses(code: Code, begin: Database, db: Database, manifest: seq<string>,
      contents: string, wrote: bool, answer: Answer)
    requires ProgressAt(code, begin, db, manifest, Applying(Beginning, |db.applied|, contents), wrote)
    requires Follows(db, manifest) && Distinct(manifest)
    requires |db.applied| < |manifest| && code.unwraps(contents)
    ensures var i := |db.applied|;
            var after := AfterApply(code, db, manifest, i, contents, answer);
            && Insertable(db.history, manifest[i], i + 1)
            && ProgressAt(code, begin, after, manifest,
                          if answer.Succeeds? then AtSeed(i + 1) else Stopped(FailedOrCrashed),
                          wrote || Commits(answer))
            && Follows(after, manifest)
  {
    var i := |db.applied|;
    NextRowInsertable(code, db, manifest);
    ApplyIsARun(code, System(begin, None, map[]), db, manifest, i, contents, wrote, answer);
    CommitKeepsHistory(code, db, manifest, contents);
    AppendsTransitive(begin, db, AfterApply(code, db, manifest, i, contents, answer));
  }

  // ---------------------------------------------------- what a run must do

  /** The code's own test of the wrapper. */
  ghost predicate Faithful(code: Code) {
    forall contents {:trigger Unwrap(contents)} :: code.unwraps(contents) <==> Unwrap(contents).Success?
  }

  /** The files that can be read, whether each history query works, and how the
      database answers for each seed. */
  datatype Inputs = Inputs(files: map<string, string>, checks: seq<bool>, answers: seq<Answer>)

  ghost predicate Fit(manifest: seq<string>, inputs: Inputs) {
    |inputs.checks| == |inputs.answers| == |manifest|
  }

  /** Why the run cannot get past seed k, if it cannot: an old seed needs a file with
      the hash of the one applied, a new one a file that unwraps and a transaction
      that succeeds. */
  ghost function Obstacle(code: Code, before: seq<AppliedSeed>, manifest: seq<string>, inputs: Inputs,
      k: nat): Option<Reason>
    requires Fit(manifest, inputs) && k < |manifest|
  {
    if !inputs.checks[k] || manifest[k] !in inputs.files then Some(FailedOrCrashed)
    else
      var contents := inputs.files[manifest[k]];
      if k < |before| then
        if code.hash(contents) == code.hash(before[k].contents) then None else Some(HistoryMismatch)
      else if !code.unwraps(contents) then Some(InvalidSeed)
      else if inputs.answers[k].Succeeds? then None else Some(FailedOrCrashed)
  }

  /** None of the first k seeds has an obstacle. */
  ghost predicate Cleared(code: Code, before: seq<AppliedSeed>, manifest: seq<string>, inputs: Inputs,
      k: nat)
    requires Fit(manifest, inputs) && k <= |manifest|
  {
    k == 0 || (Cleared(code, before, manifest, inputs, k - 1) && Obstacle(code, before, manifest, inputs, k - 1).None?)
  }

  lemma {:induction false} ClearedExactly(code: Code, before: seq<AppliedSeed>, manifest: seq<string>,
      inputs: Inputs, k: nat)
    requires Fit(manifest, inputs) && k <= |manifest|
    ensures Cleared(code, before, manifest, inputs, k) <==>
            forall j | 0 <= j < k :: Obstacle(code, before, manifest, inputs, j).None?
  {
    if k > 0 {
      ClearedExactly(code, before, manifest, inputs, k - 1);
    }
  }

  /** The run has got past the first k seeds, which had no obstacle, and ends there:
      because there is none left, or for the obstacle of the next. */
  ghost predicate Outcome(code: Code, before: seq<AppliedSeed>, manifest: seq<string>, inputs: Inputs,
      k: nat, result: Phase)
    requires Fit(manifest, inputs)
  {
    && k <= |manifest| && Cleared(code, before, manifest, inputs, k)
    && if k == |manifest| then result == Done
       else
         var obstacle := Obstacle(code, before, manifest, inputs, k);
         obstacle.Some? && result == Stopped(obstacle.value)
  }

  /** Of the first k seeds, the old ones are counted as skipped, the others as applied. */
  predicate Counted(before: seq<AppliedSeed>, k: nat, count: nat, skipped: nat) {
    count + skipped == k && skipped == if k <= |before| then k else |before|
  }

  ghost function SeedAt(manifest: seq<string>, inputs: Inputs, k: nat): AppliedSeed
    requires k < |manifest|
  {
    AppliedSeed(manifest[k], if manifest[k] in inputs.files then inputs.files[manifest[k]] else "")
  }

  ghost function WithSeed(code: Code, db: Database, manifest: seq<string>, inputs: Inputs, k: nat): Database
    requires k < |manifest|
  {
    Committed(code, db, manifest[k], k, SeedAt(manifest, inputs, k).contents)
  }

  /** The database once the first k seeds are past: the new ones among them are in. */
  ghost function AfterSeeds(code: Code, begin: Database, manifest: seq<string>, inputs: Inputs,
      k: nat): Database
    requires k <= |manifest|
  {
    if k <= |begin.applied| then begin
    else WithSeed(code, AfterSeeds(code, begin, manifest, inputs, k - 1), manifest, inputs, k - 1)
  }

  /** Seed k fails only in that the acknowledgement of its COMMIT is lost. */
  ghost predicate CommitLost(code: Code, before: seq<AppliedSeed>, manifest: seq<string>, inputs: Inputs, k: nat)
    requires Fit(manifest, inputs) && k < |manifest|
  {
    && k >= |before| && inputs.checks[k] && manifest[k] in inputs.files
    && code.unwraps(inputs.files[manifest[k]]) && inputs.answers[k] == CommitFails(true)
  }

  /** The database when the run ends, k seeds being past. */
  ghost function AtEnd(code: Code, begin: Database, manifest: seq<string>, inputs: Inputs, k: nat): Database
    requires Fit(manifest, inputs) && k <= |manifest|
  {
    var db := AfterSeeds(code, begin, manifest, inputs, k);
    if k < |manifest| && CommitLost(code, begin.applied, manifest, inputs, k)
    then WithSeed(code, db, manifest, inputs, k)
    else db
  }

  // --------------------------------------------- what it does is a protocol run

  /** A database that the manifest's runs may start from. */
  ghost predicate Startable(code: Code, begin: Database, manifest: seq<string>) {
    ValidManifest(manifest) && HistoryIsApplied(code, begin) && Follows(begin, manifest)
  }

  lemma {:induction false} AfterSeedsIsSound(code: Code, begin: Database, manifest: seq<string>,
      inputs: Inputs, k: nat)
    requires Startable(code, begin, manifest) && Fit(manifest, inputs)
    requires k <= |manifest| && Cleared(code, begin.applied, manifest, inputs, k)
    ensures var db := AfterSeeds(code, begin, manifest, inputs, k);
            && HistoryIsApplied(code, db) && Follows(db, manifest)
            && |db.applied| == (if k <= |begin.applied| then |begin.applied| else k)
            && (k <= |begin.applied| ==> db == begin)
            && ProgressAt(code, begin, db, manifest, AtSeed(k), |begin.applied| < k)
  {
    if k == 0 {
      StartIsARun(code, begin, manifest);
      ValidatedFollows(code, begin, manifest);
    } else {
      AfterSeedsIsSound(code, begin, manifest, inputs, k - 1);
      PastIsARun(code, begin, manifest, inputs, k - 1);
    }
  }

  /** Skipping an old seed is a run. */
  lemma SkipIsARun(code: Code, begin: Database, manifest: seq<string>, contents: string, k: nat)
    requires Startable(code, begin, manifest) && k < |begin.applied|
    requires ProgressAt(code, begin, begin, manifest, AtSeed(k), false)
    requires code.hash(contents) == code.hash(begin.applied[k].contents)
    ensures ProgressAt(code, begin, begin, manifest, AtSeed(k + 1), false)
  {
    CheckFinds(code, begin, manifest, k, contents);
    ReachSolo(code, System(begin, None, map[]), begin, manifest, AtSeed(k), false, Check(0, contents));
  }

  /** Reading a new seed is one, up to its transaction. */
  lemma ReadIsARun(code: Code, begin: Database, db: Database, manifest: seq<string>, contents: string,
      wrote: bool)
    requires ValidManifest(manifest) && Follows(db, manifest) && |db.applied| < |manifest|
    requires ProgressAt(code, begin, db, manifest, AtSeed(|db.applied|), wrote) && code.unwraps(contents)
    ensures ProgressAt(code, begin, db, manifest, Applying(Beginning, |db.applied|, contents), wrote)
  {
    var k := |db.applied|;
    CheckFinds(code, db, manifest, k, contents);
    ReachSolo(code, System(begin, None, map[]), db, manifest, AtSeed(k), wrote, Check(0, contents));
  }

  /** Getting past one seed is a run. */
  lemma PastIsARun(code: Code, begin: Database, manifest: seq<string>, inputs: Inputs, k: nat)
    requires Startable(code, begin, manifest) && Fit(manifest, inputs) && k < |manifest|
    requires var db := AfterSeeds(code, begin, manifest, inputs, k);
             && Follows(db, manifest) && |db.applied| == (if k <= |begin.applied| then |begin.applied| else k)
             && (k <= |begin.applied| ==> db == begin)
             && ProgressAt(code, begin, db, manifest, AtSeed(k), |begin.applied| < k)
    requires Obstacle(code, begin.applied, manifest, inputs, k).None?
    ensures var db := AfterSeeds(code, begin, manifest, inputs, k + 1);
            && Follows(db, manifest)
            && ProgressAt(code, begin, db, manifest, AtSeed(k + 1), |begin.applied| < k + 1)
  {
    var db := AfterSeeds(code, begin, manifest, inputs, k);
    var contents := inputs.files[manifest[k]];
    if k < |begin.applied| {
      SkipIsARun(code, begin, manifest, contents, k);
    } else {
      ReadIsARun(code, begin, db, manifest, contents, |begin.applied| < k);
      ApplyProgresses(code, begin, db, manifest, contents, |begin.applied| < k, Succeeds);
    }
  }

  /** So is failing to apply a seed, whether or not it is committed after all. */
  lemma FailedApplyIsARun(code: Code, begin: Database, db: Database, manifest: seq<string>, inputs: Inputs,
      wrote: bool)
    requires Startable(code, begin, manifest) && Fit(manifest, inputs) && Follows(db, manifest)
    requires |begin.applied| <= |db.applied| < |manifest| && wrote == (|begin.applied| < |db.applied|)
    requires ProgressAt(code, begin, db, manifest, AtSeed(|db.applied|), wrote)
    requires manifest[|db.applied|] in inputs.files && code.unwraps(inputs.files[manifest[|db.applied|]])
    requires !inputs.answers[|db.applied|].Succeeds?
    ensures var k := |db.applied|;
            var after := if inputs.answers[k] == CommitFails(true) then WithSeed(code, db, manifest, inputs, k) else db;
            ProgressAt(code, begin, after, manifest, Stopped(FailedOrCrashed), |begin.applied| < |after.applied|)
  {
    var k := |db.applied|;
    var contents := inputs.files[manifest[k]];
    ReadIsARun(code, begin, db, manifest, contents, wrote);
    ApplyProgresses(code, begin, db, manifest, contents, wrote, inputs.answers[k]);
  }

  /** And stopping at a seed that is not to be applied. */
  lemma RefusalIsARun(code: Code, begin: Database, db: Database, manifest: seq<string>, inputs: Inputs, k: nat,
      wrote: bool)
    requires Startable(code, begin, manifest) && Fit(manifest, inputs) && Follows(db, manifest) && k < |manifest|
    requires ProgressAt(code, begin, db, manifest, AtSeed(k), wrote)
    requires if k < |begin.applied| then db == begin else k == |db.applied|
    requires var obstacle := Obstacle(code, begin.applied, manifest, inputs, k);
             obstacle.Some? && (k >= |begin.applied| && manifest[k] in inputs.files && inputs.checks[k]
                                ==> !code.unwraps(inputs.files[manifest[k]]))
    ensures ProgressAt(code, begin, db, manifest,
                       Stopped(Obstacle(code, begin.applied, manifest, inputs, k).value), wrote)
  {
    var start := System(begin, None, map[]);
    if !inputs.checks[k] || manifest[k] !in inputs.files {
      ReachFail(code, start, db, manifest, AtSeed(k), None, wrote);
    } else {
      var contents := inputs.files[manifest[k]];
      CheckFinds(code, db, manifest, k, contents);
      ReachSolo(code, start, db, manifest, AtSeed(k), wrote, Check(0, contents));
    }
  }

  /** So being stopped by a seed is a run. */
  lemma StopIsARun(code: Code, begin: Database, manifest: seq<string>, inputs: Inputs, k: nat)
    requires Startable(code, begin, manifest) && Fit(manifest, inputs)
    requires k < |manifest| && Cleared(code, begin.applied, manifest, inputs, k)
    requires Obstacle(code, begin.applied, manifest, inputs, k).Some?
    ensures var db := AtEnd(code, begin, manifest, inputs, k);
            var reason := Obstacle(code, begin.applied, manifest, inputs, k).value;
            && ProgressAt(code, begin, db, manifest, Stopped(reason), |begin.applied| < |db.applied|)
            && (reason.HistoryMismatch? ==> db == begin)
  {
    AfterSeedsIsSound(code, begin, manifest, inputs, k);
    var db := AfterSeeds(code, begin, manifest, inputs, k);
    if k >= |begin.applied| && inputs.checks[k] && manifest[k] in inputs.files
       && code.unwraps(inputs.files[manifest[k]])
    {
      FailedApplyIsARun(code, begin, db, manifest, inputs, |begin.applied| < k);
    } else {
      RefusalIsARun(code, begin, db, manifest, inputs, k, |begin.applied| < k);
    }
  }

  /** And so is the whole run, which finishes exactly with the whole manifest in the
      history, and changes nothing if it ends in a mismatch. */
  lemma OutcomeIsARun(code: Code, begin: Database, manifest: seq<string>, inputs: Inputs, k: nat,
      result: Phase)
    requires Startable(code, begin, manifest) && Fit(manifest, inputs)
    requires Outcome(code, begin.applied, manifest, inputs, k, result)
    ensures var db := AtEnd(code, begin, manifest, inputs, k);
            && ProgressAt(code, begin, db, manifest, result, |begin.applied| < |db.applied|)
            && (result.Done? ==> Names(db.applied) == manifest)
            && (result == Stopped(HistoryMismatch) ==> db == begin)
  {
    AfterSeedsIsSound(code, begin, manifest, inputs, k);
    if result.Done? {
      var db := AfterSeeds(code, begin, manifest, inputs, k);
      ReachSolo(code, System(begin, None, map[]), db, manifest, AtSeed(k), |begin.applied| < k, Finish(0));
    } else {
      StopIsARun(code, begin, manifest, inputs, k);
    }
  }

  /** Every seed that the run got past and that was new is in as the file it read. */
  lemma {:induction false} NewSeedsAreTheFiles(code: Code, begin: Database, manifest: seq<string>, inputs: Inputs,
      k: nat, j: nat)
    requires Startable(code, begin, manifest) && Fit(manifest, inputs)
    requires k <= |manifest| && Cleared(code, begin.applied, manifest, inputs, k) && |begin.applied| <= j < k
    ensures |AfterSeeds(code, begin, manifest, inputs, k).applied| == k && manifest[j] in inputs.files
    ensures AfterSeeds(code, begin, manifest, inputs, k).applied[j]
            == AppliedSeed(manifest[j], inputs.files[manifest[j]])
  {
    AfterSeedsIsSound(code, begin, manifest, inputs, k);
    AfterSeedsIsSound(code, begin, manifest, inputs, k - 1);
    if j < k - 1 {
      NewSeedsAreTheFiles(code, begin, manifest, inputs, k - 1, j);
    }
  }

  /** A run finishes exactly if no seed has an obstacle. */
  lemma FinishesExactly(code: Code, before: seq<AppliedSeed>, manifest: seq<string>, inputs: Inputs,
      k: nat, result: Phase)
    requires Fit(manifest, inputs) && Outcome(code, before, manifest, inputs, k, result)
    ensures result.Done? <==> forall j | 0 <= j < |manifest| :: Obstacle(code, before, manifest, inputs, j).None?
  {
    ClearedExactly(code, before, manifest, inputs, k);
    if k < |manifest| {
      assert Obstacle(code, before, manifest, inputs, k).Some?;
    }
  }

  /** A run over a complete history, unchanged files and working queries has no
      obstacle and commits nothing, whatever the answers to what it never sends. */
  lemma RerunHasNoObstacle(code: Code, db: Database, manifest: seq<string>, inputs: Inputs)
    requires Fit(manifest, inputs) && Unchanged(code, db, manifest, inputs.files)
    requires forall k | 0 <= k < |inputs.checks| :: inputs.checks[k]
    ensures forall k | 0 <= k < |manifest| :: Obstacle(code, db.applied, manifest, inputs, k).None?
    ensures AtEnd(code, db, manifest, inputs, |manifest|) == db
  {
  }

  /** What the check finds in the loop: the seeds there were at the start, by their
      checksums, and no later one. */
  lemma LoopFinds(code: Code, begin: Database, manifest: seq<string>, inputs: Inputs, k: nat, contents: string)
    requires Startable(code, begin, manifest) && Fit(manifest, inputs) && k < |manifest|
    requires Cleared(code, begin.applied, manifest, inputs, k)
    ensures CheckHistory(AfterSeeds(code, begin, manifest, inputs, k).history, manifest[k],
                         Record(code.hash(contents), k + 1))
            == if k >= |begin.applied| then NotApplied
               else if code.hash(contents) == code.hash(begin.applied[k].contents) then AlreadyApplied
               else ChecksumChanged
  {
    AfterSeedsIsSound(code, begin, manifest, inputs, k);
    CheckFinds(code, AfterSeeds(code, begin, manifest, inputs, k), manifest, k, contents);
  }

  /** Rows are exactly what SELECT seed_name, position ... ORDER BY position returns. */
  ghost predicate QueryResult(rows: seq<(string, int)>, history: map<string, Record>) {
    && (forall i, j | 0 <= i < j < |rows| :: rows[i].1 <= rows[j].1)
    && (forall k | 0 <= k < |rows| :: rows[k].0 in history && rows[k].1 == history[rows[k].0].position)
    && (forall name | name in history :: (name, history[name].position) in rows)
  }

  method ValidateHistory(rows: seq<(string, int)>, manifest: seq<string>, ghost history: map<string, Record>)
    returns (ok: bool)
    requires QueryResult(rows, history)
    ensures ok == HistoryMatches(history, manifest)
  {
    for k := 0 to |rows|
      invariant forall j | 0 <= j < k :: RowMatches(manifest, rows[j].0, rows[j].1)
    {
      var (name, position) := rows[k];
      if position < 1 || position > |manifest| || manifest[position - 1] != name {
        assert !RowMatches(manifest, name, history[name].position);
        return false;
      }
    }
    ok := true;
  }

  /** The database session of the process that holds the lock. */
  class Session {
    const code: Code
    var history: map<string, Record>
    var applied: seq<AppliedSeed>

    function View(): Database
      reads this
    {
      Database(history, applied)
    }

    constructor (hash: string -> string, db: Database)
      ensures code.hash == hash && Faithful(code) && View() == db
    {
      code := Code(hash, contents => Unwrap(contents).Success?);
      history := db.history;
      applied := db.applied;
    }

    /** One transaction runs the seed body and inserts its history row: both take
        effect, or neither; after a failed COMMIT the caller does not know which. */
    method ApplySeed(name: string, i: nat, contents: string, answer: Answer) returns (ok: bool)
      modifies this
      ensures ok == (answer.Succeeds? && Insertable(old(history), name, i + 1))
      ensures View() ==
              if Commits(answer) && Insertable(old(history), name, i + 1)
              then Committed(code, old(View()), name, i, contents) else old(View())
    {
      if answer.FailsAt? {
        return false;
      }
      var body := applied + [AppliedSeed(name, contents)];
      if name in history || i + 1 in (set other | other in history :: history[other].position) {
        return false;
      }
      var row := history[name := Record(code.hash(contents), i + 1)];
      if answer.CommitFails? && !answer.committed {
        return false;
      }
      history, applied := row, body;
      ok := answer.Succeeds?;
    }

    /** A new seed is applied: the loop goes on exactly if the database says so, and
        the body and its row are in exactly if the database committed them. */
    method ApplyNew(manifest: seq<string>, index: nat, contents: string, answer: Answer,
                    ghost inputs: Inputs, ghost begin: Database) returns (ok: bool)
      requires Startable(code, begin, manifest) && Fit(manifest, inputs) && |begin.applied| <= index < |manifest|
      requires Cleared(code, begin.applied, manifest, inputs, index)
      requires View() == AfterSeeds(code, begin, manifest, inputs, index)
      requires contents == SeedAt(manifest, inputs, index).contents
      modifies this
      ensures ok == answer.Succeeds?
      ensures View() == if Commits(answer) then AfterSeeds(code, begin, manifest, inputs, index + 1) else old(View())
    {
      AfterSeedsIsSound(code, begin, manifest, inputs, index);
      NextRowInsertable(code, View(), manifest);
      ok := ApplySeed(manifest[index], index, contents, answer);
    }

    /** One iteration of the loop: read, check, and skip or apply seed index. It gets
        past the seed exactly if there is no obstacle, and otherwise stops for it. */
    method SeedOne(manifest: seq<string>, index: nat, inputs: Inputs, ghost begin: Database)
      returns (next: Phase, applies: bool)
      requires Faithful(code) && Startable(code, begin, manifest) && Fit(manifest, inputs) && index < |manifest|
      requires Cleared(code, begin.applied, manifest, inputs, index)
      requires View() == AfterSeeds(code, begin, manifest, inputs, index)
      modifies this
      ensures match Obstacle(code, begin.applied, manifest, inputs, index)
              case None =>
                && next == AtSeed(index + 1) && applies == (index >= |begin.applied|)
                && View() == AfterSeeds(code, begin, manifest, inputs, index + 1)
              case Some(reason) =>
                && next == Stopped(reason) && View() == AtEnd(code, begin, manifest, inputs, index)
    {
      applies := false;
      var name := manifest[index];
      if name !in inputs.files || !inputs.checks[index] {
        // the file cannot be read, or the history cannot be queried
        return Stopped(FailedOrCrashed), false;
      }
      var contents := inputs.files[name];
      var check := CheckHistory(history, name, Record(code.hash(contents), index + 1));
      LoopFinds(code, begin, manifest, inputs, index, contents);
      if check.ChecksumChanged? || check.PositionChanged? {
        return Stopped(HistoryMismatch), false;
      }
      if check.AlreadyApplied? {
        return AtSeed(index + 1), false;
      }
      var unwrapped := UnwrapTransaction(contents);
      if unwrapped.Failure? {
        return Stopped(InvalidSeed), false;
      }
      applies := ApplyNew(manifest, index, contents, inputs.answers[index], inputs, begin);
      next := if applies then AtSeed(index + 1) else Stopped(FailedOrCrashed);
    }

    /** The loop gets past seed after seed, up to the first that has an obstacle, for
        which it stops. */
    method Loop(manifest: seq<string>, inputs: Inputs, ghost begin: Database)
      returns (result: Phase, count: nat, skipped: nat, ghost past: nat)
      requires Faithful(code) && Startable(code, begin, manifest) && Fit(manifest, inputs) && View() == begin
      modifies this
      ensures Outcome(code, begin.applied, manifest, inputs, past, result)
      ensures View() == AtEnd(code, begin, manifest, inputs, past)
      ensures Counted(begin.applied, past, count, skipped)
    {
      count, skipped, past := 0, 0, 0;
      for index := 0 to |manifest|
        invariant past == index && Counted(begin.applied, past, count, skipped)
        invariant Cleared(code, begin.applied, manifest, inputs, past)
        invariant View() == AfterSeeds(code, begin, manifest, inputs, past)
      {
        var applies;
        result, applies := SeedOne(manifest, index, inputs, begin);
        if result.Stopped? {
          return;
        }
        if applies {
          count := count + 1;
        } else {
          skipped := skipped + 1;
        }
        past := past + 1;
      }
      result := Done;
    }

    /** A run of the program, whatever files it can read and whatever the database
        answers: a run of the protocol whose outcome the inputs decide. Without a
        history that follows the manifest nothing is done; otherwise the loop decides,
        and what is in the database is the seeds it has got past, and the one whose
        COMMIT was lost. */
    method Seed(manifest: seq<string>, queried: Option<seq<(string, int)>>, inputs: Inputs)
      returns (result: Phase, count: nat, skipped: nat, ghost past: nat)
      requires Faithful(code) && ValidManifest(manifest) && Fit(manifest, inputs)
      requires HistoryIsApplied(code, View()) && (queried.Some? ==> QueryResult(queried.value, history))
      modifies this
      ensures queried.None? ==> result == Stopped(FailedOrCrashed) && View() == old(View())
      ensures queried.Some? && !old(Follows(View(), manifest)) ==>
              result == Stopped(HistoryMismatch) && View() == old(View())
      ensures queried.Some? && old(Follows(View(), manifest)) ==>
              && Outcome(code, old(applied), manifest, inputs, past, result)
              && View() == AtEnd(code, old(View()), manifest, inputs, past)
              && Counted(old(applied), past, count, skipped)
      ensures ProgressAt(code, old(View()), View(), manifest, result, |old(applied)| < |applied|)
      ensures result.Done? ==> Names(applied) == manifest
      ensures result == Stopped(HistoryMismatch) ==> View() == old(View())
    {
      count, skipped, past := 0, 0, 0;
      if queried.None? {
        StartCanFail(code, View(), manifest);
        return Stopped(FailedOrCrashed), 0, 0, 0;
      }
      var ok := ValidateHistory(queried.value, manifest, history);
      ValidatedFollows(code, View(), manifest);
      if !ok {
        StartIsARun(code, View(), manifest);
        return Stopped(HistoryMismatch), 0, 0, 0;
      }
      ghost var begin := View();
      result, count, skipped, past := Loop(manifest, inputs, begin);
      OutcomeIsARun(code, begin, manifest, inputs, past, result);
    }
  }

  /** The manifest is the whole history and every file still has its checksum. */
  ghost predicate Unchanged(code: Code, db: Database, manifest: seq<string>, files: map<string, string>) {
    && Names(db.applied) == manifest
    && forall k: nat | k < |manifest| ::
         manifest[k] in files && code.hash(files[manifest[k]]) == code.hash(db.applied[k].contents)
  }

  /** What a check can find: an old seed with its position, or a new one. */
  lemma CheckFinds(code: Code, db: Database, manifest: seq<string>, i: nat, contents: string)
    requires HistoryIsApplied(code, db) && Follows(db, manifest) && ValidManifest(manifest)
    requires i < |manifest|
    ensures var check := CheckHistory(db.history, manifest[i], Record(code.hash(contents), i + 1));
            if i < |db.applied|
            then check == if code.hash(contents) == code.hash(db.applied[i].contents) then AlreadyApplied
                          else ChecksumChanged
            else check == NotApplied
  {
    if i < |db.applied| {
      AlreadyInHistory(code, db, manifest, i);
      assert CommitRecorded(code, db, i);
      assert Names(db.applied)[i] == manifest[i];
    } else {
      NotYetInHistory(code, db, manifest, i);
    }
  }

  lemma LockIsARun(code: Code, db: Database, manifest: seq<string>)
    requires ValidManifest(manifest)
    ensures Reaches(code, System(db, None, map[]), Solo(db, manifest, Locked, None, false))
  {
    var start := System(db, None, map[]);
    ReachesItself(code, start);
    ReachStep(code, start, start, Start(0, manifest));
    var t := Step(code, start, Start(0, manifest)).value;
    var locked := t.procs[0].(phase := Locked);
    assert t.procs[0 := locked] == map[0 := locked];
    ReachStep(code, start, t, Acquire(0));
  }

  /** Starting, taking the lock and validating are protocol steps. */
  lemma StartIsARun(code: Code, db: Database, manifest: seq<string>)
    requires ValidManifest(manifest)
    ensures Reaches(code, System(db, None, map[]),
                    Solo(db, manifest,
                         if HistoryMatches(db.history, manifest) then AtSeed(0) else Stopped(HistoryMismatch),
                         None, false))
  {
    LockIsARun(code, db, manifest);
    ReachSolo(code, System(db, None, map[]), db, manifest, Locked, false, Validate(0));
  }

  /** So is stopping because the history cannot be queried. */
  lemma StartCanFail(code: Code, db: Database, manifest: seq<string>)
    requires ValidManifest(manifest)
    ensures Reaches(code, System(db, None, map[]), Solo(db, manifest, Stopped(FailedOrCrashed), None, false))
  {
    LockIsARun(code, db, manifest);
    ReachFail(code, System(db, None, map[]), db, manifest, Locked, None, false);
  }
}
