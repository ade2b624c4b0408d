/** The seed runner's text formats: the manifest and the transaction wrapper. */
module SeedFiles {
  import opened Wrappers
  import opened Sequences
  import opened Text

  // ---------------------------------------------------------------- wrapper

  datatype UnwrapError = MustStartWithBegin | MustEndWithCommit

  /** A line that is neither blank nor a comment. */
  predicate Significant(line: string) {
    var trimmed := TrimSpace(line);
    trimmed != "" && !HasPrefix(trimmed, "--")
  }

  predicate Reads(line: string, keyword: string) {
    EqualFold(TrimSpace(line), keyword)
  }

  /** The index of the first significant line, or -1. */
  function FirstSignificant(lines: seq<string>): (first: int)
    ensures -1 <= first < |lines|
  {
    if lines == [] then -1
    else if Significant(lines[0]) then 0
    else
      var rest := FirstSignificant(lines[1..]);
      if rest == -1 then -1 else rest + 1
  }

  /** The index of the last significant line, or -1. */
  function LastSignificant(lines: seq<string>): (last: int)
    ensures -1 <= last < |lines|
  {
    if lines == [] then -1
    else if Significant(lines[|lines| - 1]) then |lines| - 1
    else LastSignificant(lines[..|lines| - 1])
  }

  /** Nothing before index first is significant, and that line is, if there is one. */
  ghost predicate IsFirst(lines: seq<string>, first: int) {
    && -1 <= first < |lines|
    && (first == -1 ==> forall k | 0 <= k < |lines| :: !Significant(lines[k]))
    && (first != -1 ==> Significant(lines[first]) && forall k | 0 <= k < first :: !Significant(lines[k]))
  }

  ghost predicate IsLast(lines: seq<string>, last: int) {
    && -1 <= last < |lines|
    && (last == -1 ==> forall k | 0 <= k < |lines| :: !Significant(lines[k]))
    && (last != -1 ==> Significant(lines[last]) && forall k | last < k < |lines| :: !Significant(lines[k]))
  }

  lemma {:induction false} FirstIsFirst(lines: seq<string>)
    ensures IsFirst(lines, FirstSignificant(lines))
  {
    if lines != [] && !Significant(lines[0]) {
      FirstIsFirst(lines[1..]);
      assert forall k | 0 < k < |lines| :: lines[k] == lines[1..][k - 1];
    }
  }

  lemma {:induction false} LastIsLast(lines: seq<string>)
    ensures IsLast(lines, LastSignificant(lines))
  {
    if lines != [] && !Significant(lines[|lines| - 1]) {
      LastIsLast(lines[..|lines| - 1]);
      assert forall k | 0 <= k < |lines| - 1 :: lines[k] == lines[..|lines| - 1][k];
    }
  }

  /** The lines left of a file whose outermost significant lines are these two. */
  function Unwrapped(lines: seq<string>, first: int, last: int): Result<seq<string>, UnwrapError>
    requires -1 <= first < |lines| && -1 <= last < |lines| && (first != -1 ==> last != -1)
  {
    if first == -1 || !Reads(lines[first], "BEGIN;") then Failure(MustStartWithBegin)
    else if last == first || !Reads(lines[last], "COMMIT;") then Failure(MustEndWithCommit)
    else Success(lines[first := ""][last := ""])
  }

  /** What unwrapping a seed file yields. */
  function Unwrap(contents: string): Result<string, UnwrapError> {
    var lines := Split(contents, '\n');
    BothOrNeither(lines);
    Rejoined(Unwrapped(lines, FirstSignificant(lines), LastSignificant(lines)))
  }

  function Rejoined(kept: Result<seq<string>, UnwrapError>): Result<string, UnwrapError> {
    match kept
    case Failure(error) => Failure(error)
    case Success(lines) => Success(Join(lines, '\n'))
  }

  lemma BothOrNeither(lines: seq<string>)
    ensures FirstSignificant(lines) == -1 <==> LastSignificant(lines) == -1
    ensures FirstSignificant(lines) <= LastSignificant(lines)
  {
    FirstIsFirst(lines);
    LastIsLast(lines);
  }

  /** One pass over the lines finds both ends of the significant part. */
  method SignificantEnds(lines: array<string>) returns (first: int, last: int)
    ensures IsFirst(lines[..], first) && IsLast(lines[..], last)
    ensures first == FirstSignificant(lines[..]) && last == LastSignificant(lines[..])
  {
    first, last := -1, -1;
    for index := 0 to lines.Length
      invariant -1 <= first <= last < index
      invariant first == -1 ==> last == -1 && forall k | 0 <= k < index :: !Significant(lines[k])
      invariant first != -1 ==> Significant(lines[first]) && forall k | 0 <= k < first :: !Significant(lines[k])
      invariant last != -1 ==> Significant(lines[last]) && forall k | last < k < index :: !Significant(lines[k])
    {
      var trimmed := TrimSpace(lines[index]);
      if trimmed == "" || HasPrefix(trimmed, "--") {
        assert !Significant(lines[index]);
        continue;
      }
      if first == -1 {
        first := index;
      }
      last := index;
    }
    EndsAreUnique(lines[..], first, last);
  }

  lemma EndsAreUnique(lines: seq<string>, first: int, last: int)
    requires IsFirst(lines, first) && IsLast(lines, last)
    ensures first == FirstSignificant(lines) && last == LastSignificant(lines)
  {
    var f, l := FirstSignificant(lines), LastSignificant(lines);
    FirstIsFirst(lines);
    LastIsLast(lines);
    assert first != -1 && f != -1 ==> !(f < first) && !(first < f);
    assert last != -1 && l != -1 ==> !(l < last) && !(last < l);
  }

  /** Both wrapper lines are found, compared and then blanked in place. */
  method UnwrapTransaction(contents: string) returns (r: Result<string, UnwrapError>)
    ensures r == Unwrap(contents)
  {
    var parts := Split(contents, '\n');
    var lines := new string[|parts|](i requires 0 <= i < |parts| => parts[i]);
    assert lines[..] == parts;
    var first, last := SignificantEnds(lines);
    if first == -1 || !Reads(lines[first], "BEGIN;") {
      return Failure(MustStartWithBegin);
    }
    if last == first || !Reads(lines[last], "COMMIT;") {
      return Failure(MustEndWithCommit);
    }
    lines[first] := "";
    lines[last] := "";
    assert lines[..] == parts[first := ""][last := ""];
    r := Success(Join(lines[..], '\n'));
  }

  /** Lines first and last are the outermost significant lines and the wrapper. */
  ghost predicate WrappedBy(lines: seq<string>, first: int, last: int) {
    && 0 <= first < last < |lines|
    && Reads(lines[first], "BEGIN;") && Reads(lines[last], "COMMIT;")
    && forall k | 0 <= k < |lines| && Significant(lines[k]) :: first <= k <= last
  }

  lemma ReadsSignificant(line: string, keyword: string)
    requires keyword == "BEGIN;" || keyword == "COMMIT;"
    requires Reads(line, keyword)
    ensures Significant(line)
  {
    var trimmed := TrimSpace(line);
    assert trimmed != "" && ToUpper(trimmed[0]) == ToUpper(keyword[0]) != '-';
    assert trimmed[0] != '-' == "--"[0];
  }

  lemma UnwrappedIsWrapped(contents: string)
    requires Unwrap(contents).Success?
    ensures var lines := Split(contents, '\n');
            WrappedBy(lines, FirstSignificant(lines), LastSignificant(lines))
  {
    var lines := Split(contents, '\n');
    var first, last := FirstSignificant(lines), LastSignificant(lines);
    FirstIsFirst(lines);
    LastIsLast(lines);
    assert Reads(lines[first], "BEGIN;") && Reads(lines[last], "COMMIT;");
    forall k | 0 <= k < |lines| && Significant(lines[k]) ensures first <= k <= last {
    }
  }

  /** Unwrapping succeeds exactly on wrapped files. */
  lemma UnwrapsExactlyWrapped(contents: string)
    ensures Unwrap(contents).Success? <==> exists f, l :: WrappedBy(Split(contents, '\n'), f, l)
  {
    var lines := Split(contents, '\n');
    if Unwrap(contents).Success? {
      UnwrappedIsWrapped(contents);
    } else {
      forall f, l ensures !WrappedBy(lines, f, l) {
        if WrappedBy(lines, f, l) {
          WrapperIsOutermost(lines, f, l);
        }
      }
    }
  }

  /** Unwrapping keeps the number of lines, and changes no line but the two wrapper lines,
      which become empty. */
  lemma UnwrapExactly(contents: string, first: int, last: int)
    ensures WrappedBy(Split(contents, '\n'), first, last) ==>
            && Unwrap(contents).Success?
            && Split(Unwrap(contents).value, '\n') == Split(contents, '\n')[first := ""][last := ""]
  {
    var lines := Split(contents, '\n');
    UnwrapsExactlyWrapped(contents);
    if WrappedBy(lines, first, last) {
      WrapperIsOutermost(lines, first, last);
      SplitJoin(lines[first := ""][last := ""], '\n');
    }
  }

  lemma WrapperIsOutermost(lines: seq<string>, first: int, last: int)
    requires WrappedBy(lines, first, last)
    ensures first == FirstSignificant(lines) && last == LastSignificant(lines)
  {
    ReadsSignificant(lines[first], "BEGIN;");
    ReadsSignificant(lines[last], "COMMIT;");
    EndsAreUnique(lines, first, last);
  }

  lemma WrapperLines()
    ensures Reads("BEGIN;", "BEGIN;") && Reads("COMMIT;", "COMMIT;")
    ensures '\n' !in "BEGIN;" && '\n' !in "COMMIT;"
  {
  }

  lemma SplitWrapped(begin: string, body: string, commit: string)
    requires '\n' !in begin && '\n' !in commit
    ensures Split(begin + ['\n'] + body + ['\n'] + commit, '\n') == [begin] + Split(body, '\n') + [commit]
  {
    SplitConcat(begin + ['\n'] + body, commit, '\n');
    SplitConcat(begin, body, '\n');
    SplitPlain(begin, '\n');
    SplitPlain(commit, '\n');
  }

  /** Wrapping any body and unwrapping it returns the body between blank lines. */
  lemma WrapThenUnwrap(body: string)
    ensures Unwrap("BEGIN;" + ['\n'] + body + ['\n'] + "COMMIT;") == Success("\n" + body + "\n")
  {
    var begin, commit := "BEGIN;", "COMMIT;";
    WrapperLines();
    SplitWrapped(begin, body, commit);
    UnwrapBetween(begin + ['\n'] + body + ['\n'] + commit, begin, Split(body, '\n'), commit);
    JoinSplit(body, '\n');
    JoinBetween(Split(body, '\n'));
    assert ['\n'] == "\n";
  }

  lemma UnwrapBetween(contents: string, begin: string, inner: seq<string>, commit: string)
    requires Split(contents, '\n') == [begin] + inner + [commit]
    requires Reads(begin, "BEGIN;") && Reads(commit, "COMMIT;")
    ensures Unwrap(contents) == Success(Join([""] + inner + [""], '\n'))
  {
    var lines := [begin] + inner + [commit];
    ReadsSignificant(begin, "BEGIN;");
    ReadsSignificant(commit, "COMMIT;");
    EndsAreUnique(lines, 0, |lines| - 1);
    assert lines[0 := ""][|lines| - 1 := ""] == [""] + inner + [""];
  }

  lemma JoinBetween(inner: seq<string>)
    requires inner != []
    ensures Join([""] + inner + [""], '\n') == ['\n'] + Join(inner, '\n') + ['\n']
  {
    JoinLast([""] + inner, "", '\n');
    assert ([""] + inner)[1..] == inner;
  }

  /** A line is insignificant exactly if it is blank or "--" follows its indent. */
  lemma InsignificantExactly(line: string)
    ensures !Significant(line) <==>
            AllSpace(line) || exists indent, text :: AllSpace(indent) && line == indent + "--" + text
  {
    TrimmedAway(line);
    TrimmedBeginsExactly(line, "--");
  }

  /** Where line i is when another one has been put in at index k. */
  function Shifted(i: int, k: nat): int {
    if i < k then i else i + 1
  }

  lemma InsertedAt(lines: seq<string>, k: nat, line: string, i: int)
    requires k <= |lines| && 0 <= i <= |lines|
    ensures Inserted(lines, k, line)[i] == if i < k then lines[i] else if i == k then line else lines[i - 1]
  {
  }

  lemma InsertedFirst(lines: seq<string>, k: nat, line: string, first: int)
    requires k <= |lines| && !Significant(line) && IsFirst(lines, first)
    ensures IsFirst(Inserted(lines, k, line), Shifted(first, k))
  {
    forall i | 0 <= i <= |lines|
      ensures Significant(Inserted(lines, k, line)[i]) ==> first != -1 && Shifted(first, k) <= i {
      InsertedAt(lines, k, line, i);
    }
    if first != -1 {
      InsertedAt(lines, k, line, Shifted(first, k));
    }
  }

  lemma InsertedLast(lines: seq<string>, k: nat, line: string, last: int)
    requires k <= |lines| && !Significant(line) && IsLast(lines, last)
    ensures IsLast(Inserted(lines, k, line), Shifted(last, k))
  {
    forall i | 0 <= i <= |lines|
      ensures Significant(Inserted(lines, k, line)[i]) ==> i <= Shifted(last, k) && last != -1 {
      InsertedAt(lines, k, line, i);
    }
    if last != -1 {
      InsertedAt(lines, k, line, Shifted(last, k));
    }
  }

  lemma InsertedShifts(lines: seq<string>, k: nat, line: string)
    requires k <= |lines| && !Significant(line)
    ensures FirstSignificant(Inserted(lines, k, line)) == Shifted(FirstSignificant(lines), k)
    ensures LastSignificant(Inserted(lines, k, line)) == Shifted(LastSignificant(lines), k)
  {
    FirstIsFirst(lines);
    LastIsLast(lines);
    InsertedFirst(lines, k, line, FirstSignificant(lines));
    InsertedLast(lines, k, line, LastSignificant(lines));
    EndsAreUnique(Inserted(lines, k, line), Shifted(FirstSignificant(lines), k), Shifted(LastSignificant(lines), k));
  }

  lemma InsertedUnwraps(lines: seq<string>, k: nat, line: string, first: int, last: int)
    requires k <= |lines| && -1 <= first <= last < |lines| && (first == -1 <==> last == -1)
    ensures Unwrapped(Inserted(lines, k, line), Shifted(first, k), Shifted(last, k))
            == match Unwrapped(lines, first, last)
               case Failure(error) => Failure(error)
               case Success(kept) => Success(Inserted(kept, k, line))
  {
    if first != -1 {
      InsertedAt(lines, k, line, Shifted(first, k));
      InsertedAt(lines, k, line, Shifted(last, k));
      InsertedBlank(lines, k, line, first);
      InsertedBlank(lines[first := ""], k, line, last);
    }
  }

  lemma InsertedBlank(lines: seq<string>, k: nat, line: string, i: nat)
    requires k <= |lines| && i < |lines|
    ensures Inserted(lines, k, line)[Shifted(i, k) := ""] == Inserted(lines[i := ""], k, line)
  {
  }

  /** Putting a blank or comment line into a seed file changes nothing about how it is
      judged, and what is unwrapped only by that line. */
  lemma InsignificantLineIsKept(contents: string, k: nat, line: string)
    requires k <= |Split(contents, '\n')| && '\n' !in line && !Significant(line)
    ensures var longer := Unwrap(Join(Inserted(Split(contents, '\n'), k, line), '\n'));
            match Unwrap(contents)
            case Failure(error) => longer == Failure(error)
            case Success(v) =>
              k <= |Split(v, '\n')| && longer == Success(Join(Inserted(Split(v, '\n'), k, line), '\n'))
  {
    var lines := Split(contents, '\n');
    var first, last := FirstSignificant(lines), LastSignificant(lines);
    BothOrNeither(lines);
    InsertedShifts(lines, k, line);
    InsertedUnwraps(lines, k, line, first, last);
    SplitInserted(lines, k, line);
    UnwrappedRejoins(lines, first, last);
  }

  lemma SplitInserted(lines: seq<string>, k: nat, line: string)
    requires k <= |lines| && Without(lines, '\n') && '\n' !in line
    ensures Split(Join(Inserted(lines, k, line), '\n'), '\n') == Inserted(lines, k, line)
  {
    SplitJoin(Inserted(lines, k, line), '\n');
  }

  /** The lines left, joined, split into these lines again. */
  lemma UnwrappedRejoins(lines: seq<string>, first: int, last: int)
    requires -1 <= first <= last < |lines| && (first == -1 <==> last == -1) && Without(lines, '\n')
    ensures match Unwrapped(lines, first, last)
            case Failure(_) => true
            case Success(kept) => |kept| == |lines| && Split(Join(kept, '\n'), '\n') == kept
  {
    if first != -1 {
      SplitJoin(lines[first := ""][last := ""], '\n');
    }
  }

  /** Line f is a BEGIN line with nothing significant before it. */
  ghost predicate Opens(lines: seq<string>, f: int) {
    && 0 <= f < |lines|
    && Reads(lines[f], "BEGIN;")
    && forall k | 0 <= k < f :: !Significant(lines[k])
  }

  lemma OnlyFirstOpens(lines: seq<string>, f: int)
    ensures Opens(lines, f) <==> f == FirstSignificant(lines) != -1 && Reads(lines[f], "BEGIN;")
  {
    FirstIsFirst(lines);
    if 0 <= f < |lines| && Reads(lines[f], "BEGIN;") {
      ReadsSignificant(lines[f], "BEGIN;");
    }
  }

  lemma OpeningError(contents: string)
    ensures var lines := Split(contents, '\n');
            var first := FirstSignificant(lines);
            Unwrap(contents) == Failure(MustStartWithBegin) <==> first == -1 || !Reads(lines[first], "BEGIN;")
  {
  }

  /** The opening is at fault exactly if no line opens the file. */
  lemma OpeningErrorExactly(contents: string)
    ensures Unwrap(contents) == Failure(MustStartWithBegin) <==> forall f :: !Opens(Split(contents, '\n'), f)
  {
    var lines := Split(contents, '\n');
    OpeningError(contents);
    OnlyFirstOpens(lines, FirstSignificant(lines));
    forall f | Opens(lines, f) ensures f == FirstSignificant(lines) {
      OnlyFirstOpens(lines, f);
    }
  }

  /** The wrapper may be written in upper and lower case. */
  lemma ReadsExactly(line: string)
    ensures Reads(line, "BEGIN;") <==> Mixes(TrimSpace(line), "BEGIN;", "begin;")
    ensures Reads(line, "COMMIT;") <==> Mixes(TrimSpace(line), "COMMIT;", "commit;")
  {
  }

  ghost predicate Mixes(s: string, upper: string, lower: string)
    requires |upper| == |lower|
  {
    |s| == |upper| && forall k | 0 <= k < |s| :: s[k] == upper[k] || s[k] == lower[k]
  }

  // --------------------------------------------------------------- manifest

  /** bufio.Scanner gives up on a line that fills its buffer. */
  const MAX_SCAN_TOKEN := 65536

  datatype ManifestError = NotAPlainSqlName(name: string) | DuplicateEntry(name: string) | LineTooLong | EmptyManifest

  function WithoutTrailingSlashes(path: string): string {
    if path != "" && path[|path| - 1] == '/' then WithoutTrailingSlashes(path[..|path| - 1]) else path
  }

  function AfterLastSlash(path: string): string {
    if '/' in path then AfterLastSlash(path[1..]) else path
  }

  /** filepath.Base. */
  function Base(path: string): string {
    if path == "" then "."
    else
      var last := AfterLastSlash(WithoutTrailingSlashes(path));
      if last == "" then "/" else last
  }

  /** filepath.Ext: the suffix from the last dot of the last element. */
  function Ext(path: string): string {
    ExtFrom(path, |path|)
  }

  function ExtFrom(path: string, end: nat): string
    requires end <= |path|
  {
    if end == 0 || path[end - 1] == '/' then ""
    else if path[end - 1] == '.' then path[end - 1..]
    else ExtFrom(path, end - 1)
  }

  /** A name with no directory that ends in ".sql". */
  predicate PlainSqlName(name: string) {
    '/' !in name && HasSuffix(name, ".sql")
  }

  /** The code's test of a manifest entry. */
  predicate EntryAccepted(name: string) {
    Base(name) == name && Ext(name) == ".sql"
  }

  lemma AfterLastSlashPlain(path: string)
    ensures '/' !in AfterLastSlash(path)
  {
  }

  /** The test accepts exactly the plain SQL file names. */
  lemma EntryAcceptedExactly(name: string)
    ensures EntryAccepted(name) <==> PlainSqlName(name)
  {
    AfterLastSlashPlain(WithoutTrailingSlashes(name));
    var n := |name|;
    if '/' in name {
      assert Base(name) == name ==> name == "/";
      assert Ext("/") == "";
    } else if HasSuffix(name, ".sql") {
      assert name[n - 4..] == ".sql";
      assert name[n - 4] == '.' && name[n - 3] == 's' && name[n - 2] == 'q' && name[n - 1] == 'l';
      assert ExtFrom(name, n) == ExtFrom(name, n - 1) == ExtFrom(name, n - 2) == ExtFrom(name, n - 3) == ".sql";
    } else {
      ExtIsSuffix(name, n);
    }
  }

  lemma {:induction false} ExtIsSuffix(path: string, end: nat)
    requires end <= |path|
    ensures HasSuffix(path, ExtFrom(path, end))
  {
    if end > 0 && path[end - 1] != '/' && path[end - 1] != '.' {
      ExtIsSuffix(path, end - 1);
    }
  }

  predicate IsEntry(line: string) {
    var name := TrimSpace(line);
    name != "" && !HasPrefix(name, "#")
  }

  /** The trimmed lines that are neither blank nor comments, in order. */
  function Entries(lines: seq<string>): seq<string> {
    if lines == [] then []
    else
      var rest := Entries(lines[..|lines| - 1]);
      var line := lines[|lines| - 1];
      if IsEntry(line) then rest + [TrimSpace(line)] else rest
  }

  /** A line is no entry exactly if it is blank or "#" follows its indent. */
  lemma NoEntryExactly(line: string)
    ensures !IsEntry(line) <==>
            AllSpace(line) || exists indent, text :: AllSpace(indent) && line == indent + "#" + text
  {
    TrimmedAway(line);
    TrimmedBeginsExactly(line, "#");
  }

  lemma EntriesLast(init: seq<string>, last: string)
    ensures Entries(init + [last]) == if IsEntry(last) then Entries(init) + [TrimSpace(last)] else Entries(init)
  {
    assert (init + [last])[..|init|] == init;
  }

  lemma {:induction false} EntriesSkip(lines: seq<string>, k: nat, line: string)
    requires k <= |lines| && !IsEntry(line)
    ensures Entries(Inserted(lines, k, line)) == Entries(lines)
  {
    if k == |lines| {
      assert Inserted(lines, k, line) == lines + [line];
      EntriesLast(lines, line);
    } else {
      var init, last := lines[..|lines| - 1], lines[|lines| - 1];
      assert lines == init + [last] && Inserted(lines, k, line) == Inserted(init, k, line) + [last];
      EntriesSkip(init, k, line);
      EntriesLast(init, last);
      EntriesLast(Inserted(init, k, line), last);
    }
  }

  /** Putting a blank or comment line into a manifest does not change its entries. */
  lemma NoEntryIsSkipped(contents: string, k: nat, line: string)
    requires k <= |Split(contents, '\n')| && '\n' !in line && !IsEntry(line)
    ensures var longer := Join(Inserted(Split(contents, '\n'), k, line), '\n');
            Entries(Split(longer, '\n')) == Entries(Split(contents, '\n'))
  {
    SplitJoin(Inserted(Split(contents, '\n'), k, line), '\n');
    EntriesSkip(Split(contents, '\n'), k, line);
  }

  predicate ScannableLines(lines: seq<string>) {
    forall k | 0 <= k < |lines| :: |lines[k]| < MAX_SCAN_TOKEN
  }

  /** A manifest the runner may work from. */
  predicate ValidManifest(names: seq<string>) {
    && names != []
    && Distinct(names)
    && forall k | 0 <= k < |names| :: PlainSqlName(names[k])
  }

  lemma {:induction false} EntriesExtend(lines: seq<string>, n: nat)
    requires n <= |lines|
    ensures Entries(lines[..n]) <= Entries(lines)
  {
    if n < |lines| {
      EntriesExtend(lines[..|lines| - 1], n);
      assert lines[..|lines| - 1][..n] == lines[..n];
    } else {
      assert lines[..n] == lines;
    }
  }

  ghost predicate ValidPrefix(names: seq<string>) {
    && Distinct(names)
    && forall k | 0 <= k < |names| :: PlainSqlName(names[k])
  }

  ghost predicate RealFault(entries: seq<string>, lines: seq<string>, error: ManifestError) {
    match error
    case NotAPlainSqlName(n) => n in entries && !EntryAccepted(n)
    case DuplicateEntry(n) => multiset(entries)[n] >= 2
    case LineTooLong => !ScannableLines(lines)
    case EmptyManifest => entries == []
  }

  /** A real fault rules out a valid manifest. */
  lemma FaultsRefuse(lines: seq<string>, error: ManifestError)
    requires RealFault(Entries(lines), lines, error)
    ensures !(ScannableLines(lines) && ValidManifest(Entries(lines)))
  {
    var entries := Entries(lines);
    match error
    case NotAPlainSqlName(n) => EntryAcceptedExactly(n);
    case DuplicateEntry(n) =>
      if Distinct(entries) {
        DistinctOnce(entries, n);
      }
    case LineTooLong =>
    case EmptyManifest =>
  }

  ghost predicate Collects(seen: set<string>, names: seq<string>) {
    forall name :: name in seen <==> name in names
  }

  lemma Append(seen: set<string>, names: seq<string>, name: string)
    requires Collects(seen, names) && ValidPrefix(names)
    requires name !in names && PlainSqlName(name)
    ensures Collects(seen + {name}, names + [name]) && ValidPrefix(names + [name])
  {
  }

  lemma RepeatedEntry(names: seq<string>, name: string, entries: seq<string>)
    requires names <= entries && name in names
    requires |names| < |entries| && entries[|names|] == name
    ensures multiset(entries)[name] >= 2
  {
    var k :| 0 <= k < |names| && names[k] == name;
    TwoOccurrences(entries, k, |names|);
  }

  /** Reading line n appends its entry, if it holds one. */
  lemma EntriesStep(lines: seq<string>, n: nat)
    requires n < |lines|
    ensures var before, after := Entries(lines[..n]), Entries(lines[..n + 1]);
            && after == (if IsEntry(lines[n]) then before + [TrimSpace(lines[n])] else before)
            && before <= after <= Entries(lines)
            && (IsEntry(lines[n]) ==> Entries(lines)[|before|] == TrimSpace(lines[n]))
  {
    assert lines[..n + 1][..n] == lines[..n];
    EntriesExtend(lines, n + 1);
    assert IsEntry(lines[n]) ==> Entries(lines[..n + 1])[|Entries(lines[..n])|] == TrimSpace(lines[n]);
  }

  /** The scanner has read the lines before index. */
  ghost predicate Reading(lines: seq<string>, index: nat, names: seq<string>, seen: set<string>) {
    && index <= |lines|
    && names == Entries(lines[..index])
    && ScannableLines(lines[..index])
    && Collects(seen, names)
    && ValidPrefix(names)
  }

  lemma ScannableStep(lines: seq<string>, index: nat)
    requires index < |lines| && ScannableLines(lines[..index]) && |lines[index]| < MAX_SCAN_TOKEN
    ensures ScannableLines(lines[..index + 1])
  {
  }

  lemma SkipLine(lines: seq<string>, index: nat, names: seq<string>, seen: set<string>)
    requires Reading(lines, index, names, seen) && index < |lines|
    requires |lines[index]| < MAX_SCAN_TOKEN && !IsEntry(lines[index])
    ensures Reading(lines, index + 1, names, seen)
  {
    EntriesStep(lines, index);
    ScannableStep(lines, index);
  }

  lemma TakeLine(lines: seq<string>, index: nat, names: seq<string>, seen: set<string>, name: string)
    requires Reading(lines, index, names, seen) && index < |lines|
    requires |lines[index]| < MAX_SCAN_TOKEN && IsEntry(lines[index]) && name == TrimSpace(lines[index])
    requires PlainSqlName(name) && name !in seen
    ensures Reading(lines, index + 1, names + [name], seen + {name})
  {
    EntriesStep(lines, index);
    ScannableStep(lines, index);
    Append(seen, names, name);
  }

  lemma RefuseLine(lines: seq<string>, index: nat, names: seq<string>, seen: set<string>, name: string)
    requires Reading(lines, index, names, seen) && index < |lines|
    requires IsEntry(lines[index]) && name == TrimSpace(lines[index])
    ensures if EntryAccepted(name) then PlainSqlName(name) else RealFault(Entries(lines), lines, NotAPlainSqlName(name))
    ensures name in seen ==> RealFault(Entries(lines), lines, DuplicateEntry(name))
  {
    EntriesStep(lines, index);
    EntryAcceptedExactly(name);
    assert Entries(lines)[|names|] == name;
    if name in seen {
      RepeatedEntry(names, name, Entries(lines));
    }
  }

  /** A manifest is read exactly when every line fits the scanner and its entries
      are a valid manifest; an error names a real fault. */
  method ReadManifest(contents: string) returns (r: Result<seq<string>, ManifestError>)
    ensures var lines := Split(contents, '\n');
            match r
            case Success(names) => ScannableLines(lines) && ValidManifest(names) && names == Entries(lines)
            case Failure(error) => RealFault(Entries(lines), lines, error)
  {
    var lines := Split(contents, '\n');
    var names: seq<string> := [];
    var seen: set<string> := {};
    for index := 0 to |lines|
      invariant Reading(lines, index, names, seen)
    {
      if |lines[index]| >= MAX_SCAN_TOKEN {
        return Failure(LineTooLong);
      }
      var name := TrimSpace(lines[index]);
      if name == "" || HasPrefix(name, "#") {
        SkipLine(lines, index, names, seen);
        continue;
      }
      RefuseLine(lines, index, names, seen, name);
      if Base(name) != name || Ext(name) != ".sql" {
        return Failure(NotAPlainSqlName(name));
      }
      if name in seen {
        return Failure(DuplicateEntry(name));
      }
      TakeLine(lines, index, names, seen, name);
      seen := seen + {name};
      names := names + [name];
    }
    assert lines[..|lines|] == lines;
    if |names| == 0 {
      return Failure(EmptyManifest);
    }
    r := Success(names);
  }
}
