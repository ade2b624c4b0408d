/** Resolving a path inside the seed directory: Go's path/filepath on Unix. */
module SeedPaths {
  import opened Wrappers
  import opened Text

  // ---------------------------------------------------------- path/filepath

  predicate IsAbs(path: string) {
    HasPrefix(path, "/")
  }

  /** One component of an absolute path processed against those kept so far. */
  function CleanStep(kept: seq<string>, part: string): seq<string> {
    if part == "" || part == "." then kept
    else if part != ".." then kept + [part]
    else if kept == [] then kept
    else kept[..|kept| - 1]
  }

  function CleanParts(kept: seq<string>, parts: seq<string>): seq<string>
    decreases |parts|
  {
    if parts == [] then kept else CleanParts(CleanStep(kept, parts[0]), parts[1..])
  }

  /** The components of filepath.Clean of an absolute path. */
  function CleanedParts(path: string): seq<string> {
    CleanParts([], Split(path, '/'))
  }

  function Rooted(parts: seq<string>): string {
    "/" + Join(parts, '/')
  }

  /** filepath.Clean; the code has absolute paths alone to clean. */
  function Clean(path: string): string
    requires IsAbs(path)
  {
    Rooted(CleanedParts(path))
  }

  /** filepath.Join of an absolute directory and a path. */
  function JoinPath(dir: string, path: string): string
    requires IsAbs(dir)
  {
    Clean(dir + "/" + path)
  }

  function CommonPrefix(a: seq<string>, b: seq<string>): (n: nat)
    ensures n <= |a| && n <= |b| && a[..n] == b[..n]
    ensures n < |a| && n < |b| ==> a[n] != b[n]
  {
    if a == [] || b == [] || a[0] != b[0] then 0
    else
      var n := CommonPrefix(a[1..], b[1..]);
      assert a[..n + 1] == [a[0]] + a[1..][..n] && b[..n + 1] == [b[0]] + b[1..][..n];
      n + 1
  }

  function Ups(n: nat): seq<string> {
    seq(n, i => "..")
  }

  /** filepath.Rel between two absolute paths. */
  function Rel(base: string, target: string): string
    requires IsAbs(base) && IsAbs(target)
  {
    var from, to := CleanedParts(base), CleanedParts(target);
    var n := CommonPrefix(from, to);
    if from == to then "." else Join(Ups(|from| - n) + to[n..], '/')
  }

  // --------------------------------------------------------------- the code

  datatype PathError = BlankOrNul | EscapesSeedDirectory

  predicate CleanPart(part: string) {
    && part != "" && part != "." && part != ".."
    && '/' !in part && '\0' !in part
  }

  /** The components of a clean absolute directory. */
  predicate CleanDirectory(root: seq<string>) {
    forall k | 0 <= k < |root| :: CleanPart(root[k])
  }

  function ContainedRelativePath(rootDir: string, path: string): Result<string, PathError>
    requires IsAbs(rootDir)
  {
    if TrimSpace(path) == "" || '\0' in path then Failure(BlankOrNul)
    else
      var candidate := if IsAbs(path) then path else JoinPath(rootDir, path);
      JoinIsAbs(rootDir, path);
      var absolutePath := Clean(candidate);
      var relativePath := Rel(rootDir, absolutePath);
      if relativePath == "." || relativePath == ".." || HasPrefix(relativePath, "../") || IsAbs(relativePath)
      then Failure(EscapesSeedDirectory)
      else Success(relativePath)
  }

  lemma JoinIsAbs(rootDir: string, path: string)
    requires IsAbs(rootDir)
    ensures IsAbs(JoinPath(rootDir, path))
  {
  }

  // ----------------------------------------------------- what cleaning means

  lemma {:induction false} CleanConcat(kept: seq<string>, a: seq<string>, b: seq<string>)
    ensures CleanParts(kept, a + b) == CleanParts(CleanParts(kept, a), b)
    decreases |a|
  {
    if a == [] {
      assert a + b == b;
    } else {
      CleanConcat(CleanStep(kept, a[0]), a[1..], b);
      assert (a + b)[1..] == a[1..] + b;
    }
  }

  lemma {:induction false} CleanKeepsClean(kept: seq<string>, parts: seq<string>)
    requires CleanDirectory(parts)
    ensures CleanParts(kept, parts) == kept + parts
    decreases |parts|
  {
    if parts != [] {
      assert CleanPart(parts[0]);
      CleanKeepsClean(kept + [parts[0]], parts[1..]);
      assert kept + [parts[0]] + parts[1..] == kept + parts;
    }
  }

  ghost predicate PathParts(parts: seq<string>) {
    forall k | 0 <= k < |parts| :: '/' !in parts[k] && '\0' !in parts[k]
  }

  /** Cleaning an absolute path leaves only clean components. */
  lemma {:induction false} CleanIsClean(kept: seq<string>, parts: seq<string>)
    requires CleanDirectory(kept) && PathParts(parts)
    ensures CleanDirectory(CleanParts(kept, parts))
    decreases |parts|
  {
    if parts != [] {
      CleanIsClean(CleanStep(kept, parts[0]), parts[1..]);
    }
  }

  lemma SplitRooted(parts: seq<string>)
    requires CleanDirectory(parts)
    ensures Split(Rooted(parts), '/') == [""] + (if parts == [] then [""] else parts)
  {
    assert Rooted(parts) == "" + ['/'] + Join(parts, '/');
    SplitConcat("", Join(parts, '/'), '/');
    if parts != [] {
      SplitJoin(parts, '/');
    }
  }

  /** A clean absolute path has the components it was built from. */
  lemma CleanedRooted(parts: seq<string>)
    requires CleanDirectory(parts)
    ensures IsAbs(Rooted(parts)) && CleanedParts(Rooted(parts)) == parts
  {
    SplitRooted(parts);
    CleanConcat([], [""], if parts == [] then [""] else parts);
    if parts != [] {
      CleanKeepsClean([], parts);
    }
  }

  lemma {:induction false} SplitFree(s: string, sep: char, c: char)
    requires c !in s
    ensures forall k | 0 <= k < |Split(s, sep)| :: c !in Split(s, sep)[k]
  {
    if s != "" {
      assert s == [s[0]] + s[1..];
      SplitFree(s[1..], sep, c);
    }
  }

  /** The components of the absolute form the code compares with the root. */
  function Resolved(root: seq<string>, path: string): seq<string> {
    CleanParts(if IsAbs(path) then [] else root, Split(path, '/'))
  }

  /** Joining to the root resolves the path against the root's components. */
  lemma JoinResolves(root: seq<string>, path: string)
    requires CleanDirectory(root)
    ensures IsAbs(Rooted(root) + "/" + path)
    ensures CleanedParts(Rooted(root) + "/" + path) == CleanParts(root, Split(path, '/'))
  {
    var whole := Rooted(root) + "/" + path;
    assert whole == Rooted(root) + ['/'] + path;
    SplitConcat(Rooted(root), path, '/');
    CleanConcat([], Split(Rooted(root), '/'), Split(path, '/'));
    CleanedRooted(root);
  }

  lemma ResolvedIsClean(root: seq<string>, path: string)
    requires CleanDirectory(root) && '\0' !in path
    ensures CleanDirectory(Resolved(root, path))
  {
    SplitFree(path, '/', '\0');
    CleanIsClean(if IsAbs(path) then [] else root, Split(path, '/'));
  }

  /** The code's relative path is Rel between the two component lists. */
  lemma CodeResolves(root: seq<string>, path: string)
    requires CleanDirectory(root) && '\0' !in path
    ensures var candidate := if IsAbs(path) then path else JoinPath(Rooted(root), path);
            var to := Resolved(root, path);
            var n := CommonPrefix(root, to);
            && IsAbs(candidate)
            && Rel(Rooted(root), Clean(candidate)) ==
               (if root == to then "." else Join(Ups(|root| - n) + to[n..], '/'))
  {
    CandidateCleans(root, path);
    ResolvedIsClean(root, path);
    CleanedRooted(root);
    CleanedRooted(Resolved(root, path));
  }

  /** The candidate cleans to the resolved components below "/". */
  lemma CandidateCleans(root: seq<string>, path: string)
    requires CleanDirectory(root) && '\0' !in path
    ensures var candidate := if IsAbs(path) then path else JoinPath(Rooted(root), path);
            IsAbs(candidate) && Clean(candidate) == Rooted(Resolved(root, path))
  {
    var to := Resolved(root, path);
    if !IsAbs(path) {
      JoinResolves(root, path);
      assert JoinPath(Rooted(root), path) == Rooted(to);
      ResolvedIsClean(root, path);
      CleanedRooted(to);
    }
  }

  /** A joined path climbs, by the code's string test, exactly when its first
      component is ".."; a first component such as "..x" does not count. */
  lemma ClimbsExactly(parts: seq<string>)
    requires parts != [] && forall k | 0 <= k < |parts| :: parts[k] == ".." || CleanPart(parts[k])
    ensures var text := Join(parts, '/');
            && (text == ".." || HasPrefix(text, "../") <==> parts[0] == "..")
            && text != "." && !IsAbs(text)
  {
    var text := Join(parts, '/');
    BeginsWithFirst(parts);
    if parts[0] != ".." {
      assert CleanPart(parts[0]);
      ClimbingText(text, parts[0]);
    } else {
      assert text == ".." || text[..3] == "../";
      assert text[0] == '.' && |text| >= 2;
    }
  }

  /** A joined path is its first component, alone or followed by the separator. */
  lemma BeginsWithFirst(parts: seq<string>)
    requires parts != []
    ensures var text, first := Join(parts, '/'), parts[0];
            first <= text && (text == first || (|first| < |text| && text[|first|] == '/'))
            && (|parts| == 1 <==> text == first)
  {
  }

  /** A text that begins with a clean component does not climb. */
  lemma ClimbingText(text: string, first: string)
    requires CleanPart(first) && first <= text && (text == first || (|first| < |text| && text[|first|] == '/'))
    ensures text != ".." && !HasPrefix(text, "../") && text != "." && !IsAbs(text)
  {
    assert first[0] == text[0] != '/';
    if |first| == 1 {
      assert first == [first[0]] && first[0] != '.';
    } else if |first| == 2 {
      assert first == [first[0], first[1]] && text[1] == first[1];
      assert first[0] != '.' || first[1] != '.';
    } else {
      assert text[2] == first[2] != '/';
    }
  }

  /** A non-blank, NUL-free path is accepted exactly when the root is a proper
      prefix of its cleaned absolute form, and the result is what follows the root. */
  lemma AcceptedExactly(root: seq<string>, path: string)
    requires CleanDirectory(root)
    ensures var r, to := ContainedRelativePath(Rooted(root), path), Resolved(root, path);
            && (r.Success? <==> TrimSpace(path) != "" && '\0' !in path && root < to)
            && (r.Success? ==> r.value == Join(to[|root|..], '/'))
            && (r == Failure(BlankOrNul) <==> TrimSpace(path) == "" || '\0' in path)
  {
    if TrimSpace(path) != "" && '\0' !in path {
      CodeResolves(root, path);
      ResolvedIsClean(root, path);
      ClimbsUnlessInside(root, Resolved(root, path));
    }
  }

  /** The relative text climbs, or is ".", unless the root is a proper prefix. */
  lemma ClimbsUnlessInside(root: seq<string>, to: seq<string>)
    requires CleanDirectory(root) && CleanDirectory(to)
    ensures var n := CommonPrefix(root, to);
            var text := if root == to then "." else Join(Ups(|root| - n) + to[n..], '/');
            && (text == "." || text == ".." || HasPrefix(text, "../") || IsAbs(text) <==> !(root < to))
            && (root < to ==> text == Join(to[|root|..], '/'))
  {
    if root != to {
      var n := CommonPrefix(root, to);
      var parts := Ups(|root| - n) + to[n..];
      if n == |root| {
        assert root == to[..n] && parts == to[n..];
        assert |to| != n;
        assert CleanPart(parts[0]);
      } else {
        assert parts[0] == "..";
      }
      ClimbsExactly(parts);
    }
  }

  // ------------------------------------------------------ what ".." cancels

  /** All but the last n components, or none. */
  function Drop(parts: seq<string>, n: nat): seq<string> {
    if n < |parts| then parts[..|parts| - n] else []
  }

  /** Read from the end: a name survives unless one of the ".." behind it cancels it,
      each ".." one name. */
  function Survivors(parts: seq<string>, cancelled: nat): seq<string> {
    if parts == [] then []
    else
      var init, last := parts[..|parts| - 1], parts[|parts| - 1];
      if last == "" || last == "." then Survivors(init, cancelled)
      else if last == ".." then Survivors(init, cancelled + 1)
      else if cancelled > 0 then Survivors(init, cancelled - 1)
      else Survivors(init, 0) + [last]
  }

  lemma CleanLast(kept: seq<string>, init: seq<string>, last: string)
    ensures CleanParts(kept, init + [last]) == CleanStep(CleanParts(kept, init), last)
  {
    CleanConcat(kept, init, [last]);
  }

  lemma {:induction false} CleanLeavesSurvivors(parts: seq<string>, cancelled: nat)
    ensures Drop(CleanParts([], parts), cancelled) == Survivors(parts, cancelled)
  {
    if parts != [] {
      var init, last := parts[..|parts| - 1], parts[|parts| - 1];
      assert parts == init + [last];
      CleanLast([], init, last);
      CleanLeavesSurvivors(init, if last == ".." then cancelled + 1 else if cancelled > 0 then cancelled - 1 else 0);
      CleanLeavesSurvivors(init, cancelled);
    }
  }

  /** A path resolves to the names of the root and its own that no ".." cancels. */
  lemma ResolvesToSurvivors(root: seq<string>, path: string)
    requires CleanDirectory(root)
    ensures Resolved(root, path) == Survivors((if IsAbs(path) then [] else root) + Split(path, '/'), 0)
  {
    var base, parts := if IsAbs(path) then [] else root, Split(path, '/');
    CleanKeepsClean([], base);
    CleanConcat([], base, parts);
    CleanLeavesSurvivors(base + parts, 0);
    assert [] + base == base && Drop(CleanParts(base, parts), 0) == CleanParts(base, parts);
  }

  /** A name followed by ".." makes no difference. */
  lemma NameAndDotsCancel(root: seq<string>, name: string, rest: string)
    requires CleanDirectory(root) && CleanPart(name) && TrimSpace(rest) != "" && !IsAbs(rest)
    ensures ContainedRelativePath(Rooted(root), name + "/../" + rest) == ContainedRelativePath(Rooted(root), rest)
  {
    var path := name + "/../" + rest;
    SplitAround(name, rest);
    CleanConcat(root, [name, ".."], Split(rest, '/'));
    CleanLast(root, [name], "..");
    CleanKeepsClean(root, [name]);
    assert [name] + [".."] == [name, ".."];
    assert path[0] == name[0] != '/';
    assert !IsSpace(path[|name|]);
    TrimmedAway(path);
    assert '\0' in path <==> '\0' in rest;
    AcceptedExactly(root, path);
    AcceptedExactly(root, rest);
  }

  lemma SplitAround(name: string, rest: string)
    requires CleanPart(name)
    ensures Split(name + "/../" + rest, '/') == [name, ".."] + Split(rest, '/')
  {
    var inner := ".." + ['/'] + rest;
    assert name + "/../" + rest == name + ['/'] + inner;
    SplitConcat(name, inner, '/');
    SplitConcat("..", rest, '/');
    SplitPlain(name, '/');
    SplitPlain("..", '/');
  }

  lemma {:induction false} CleanUps(root: seq<string>, n: nat)
    ensures CleanParts(root, Ups(n)) == Drop(root, n)
  {
    if n > 0 {
      assert Ups(n) == Ups(n - 1) + [".."];
      CleanUps(root, n - 1);
      CleanLast(root, Ups(n - 1), "..");
    }
  }

  /** Climbing n levels and then naming components arrives below the root cut by n
      components, or below "/" where it has fewer. */
  lemma ClimbResolves(root: seq<string>, n: nat, names: seq<string>)
    requires CleanDirectory(root) && CleanDirectory(names) && n > 0
    ensures Resolved(root, Join(Ups(n) + names, '/')) == Drop(root, n) + names
  {
    var parts := Ups(n) + names;
    assert parts[0] == "..";
    ClimbsExactly(parts);
    SplitJoin(parts, '/');
    CleanConcat(root, Ups(n), names);
    CleanUps(root, n);
    CleanKeepsClean(Drop(root, n), names);
  }

  /** Such a path is accepted exactly if it enters the root again through the very
      components it climbed out of. */
  lemma ClimbAcceptedExactly(root: seq<string>, n: nat, names: seq<string>)
    requires CleanDirectory(root) && CleanDirectory(names) && n > 0
    ensures var r := ContainedRelativePath(Rooted(root), Join(Ups(n) + names, '/'));
            var out := root[|Drop(root, n)|..];
            && (r.Success? <==> out < names)
            && (r.Success? ==> r.value == Join(names[|out|..], '/'))
            && (r.Failure? ==> r.error == EscapesSeedDirectory)
  {
    var kept := Drop(root, n);
    ClimbResolves(root, n, names);
    ClimbIsNoBlank(n, names);
    assert root == kept + root[|kept|..];
    SharingAccepted(kept, root[|kept|..], names, Join(Ups(n) + names, '/'));
  }

  lemma SharingAccepted(kept: seq<string>, out: seq<string>, names: seq<string>, path: string)
    requires CleanDirectory(kept + out) && Resolved(kept + out, path) == kept + names
    requires TrimSpace(path) != "" && '\0' !in path
    ensures var r := ContainedRelativePath(Rooted(kept + out), path);
            && (r.Success? <==> out < names)
            && (r.Success? ==> r.value == Join(names[|out|..], '/'))
            && (r.Failure? ==> r.error == EscapesSeedDirectory)
  {
    AcceptedExactly(kept + out, path);
    PrefixesAgree(kept, out, names);
  }

  lemma PrefixesAgree(kept: seq<string>, out: seq<string>, names: seq<string>)
    ensures kept + out < kept + names <==> out < names
    ensures out < names ==> (kept + names)[|kept + out|..] == names[|out|..]
  {
    if kept + out <= kept + names {
      assert out == (kept + out)[|kept|..] == (kept + names)[..|kept + out|][|kept|..] == names[..|out|];
    }
  }

  lemma ClimbIsNoBlank(n: nat, names: seq<string>)
    requires CleanDirectory(names) && n > 0
    ensures var path := Join(Ups(n) + names, '/');
            TrimSpace(path) != "" && '\0' !in path
  {
    var parts := Ups(n) + names;
    BeginsWithFirst(parts);
    assert parts[0][0] == '.' && !IsSpace('.');
    TrimmedAway(Join(parts, '/'));
    JoinNulFree(parts);
  }

  // --------------------------------------------------- resolving the result

  /** An accepted result joined to the root resolves to itself. */
  lemma JoinedResultIsStable(root: seq<string>, path: string)
    requires CleanDirectory(root)
    requires ContainedRelativePath(Rooted(root), path).Success?
    ensures var r := ContainedRelativePath(Rooted(root), path);
            ContainedRelativePath(Rooted(root), JoinPath(Rooted(root), r.value)) == r
  {
    var r, to := ContainedRelativePath(Rooted(root), path), Resolved(root, path);
    AcceptedExactly(root, path);
    ResolvedIsClean(root, path);
    ResultResolves(root, to);
    JoinResolves(root, r.value);
    var joined := JoinPath(Rooted(root), r.value);
    assert joined == Rooted(to);
    CleanedRooted(to);
    assert !IsSpace(joined[0]);
    TrimmedAway(joined);
    RootedNulFree(to);
    AcceptedExactly(root, joined);
  }

  lemma ResultResolves(root: seq<string>, to: seq<string>)
    requires CleanDirectory(root) && CleanDirectory(to) && root < to
    ensures var text := Join(to[|root|..], '/');
            && !IsAbs(text) && '\0' !in text
            && Resolved(root, text) == to
  {
    var rest := to[|root|..];
    ClimbsExactly(rest);
    SplitJoin(rest, '/');
    CleanKeepsClean(root, rest);
    assert root + rest == to;
    JoinNulFree(rest);
  }

  lemma {:induction false} JoinNulFree(parts: seq<string>)
    requires Without(parts, '\0')
    ensures '\0' !in Join(parts, '/')
  {
    if |parts| > 1 {
      JoinNulFree(parts[1..]);
    }
  }

  lemma RootedNulFree(parts: seq<string>)
    requires CleanDirectory(parts)
    ensures '\0' !in Rooted(parts)
  {
    JoinNulFree(parts);
  }

  /** An accepted result on its own resolves to itself exactly when it is not blank. */
  lemma LoneResultIsStableExactly(root: seq<string>, path: string)
    requires CleanDirectory(root)
    requires ContainedRelativePath(Rooted(root), path).Success?
    ensures var r := ContainedRelativePath(Rooted(root), path);
            ContainedRelativePath(Rooted(root), r.value) == r <==> TrimSpace(r.value) != ""
  {
    var r, to := ContainedRelativePath(Rooted(root), path), Resolved(root, path);
    AcceptedExactly(root, path);
    ResolvedIsClean(root, path);
    ResultResolves(root, to);
    AcceptedExactly(root, r.value);
  }

  /** A file named by one space is accepted, and its own result is then refused. */
  lemma BlankResultIsRefused(root: seq<string>)
    requires CleanDirectory(root)
    ensures ContainedRelativePath(Rooted(root), "./ /.") == Success(" ")
    ensures ContainedRelativePath(Rooted(root), " ") == Failure(BlankOrNul)
  {
    var path := "./ /.";
    TrimmedAway(path);
    assert !IsSpace(path[0]);
    BlankNameResolves(root, path);
    AcceptedExactly(root, path);
    assert (root + [" "])[|root|..] == [" "];
    assert Join([" "], '/') == " ";
    TrimmedAway(" ");
  }

  lemma BlankNameResolves(root: seq<string>, path: string)
    requires path == "./ /."
    ensures Resolved(root, path) == root + [" "]
  {
    var parts := [".", " ", "."];
    assert Join([" ", "."], '/') == " /." && parts[1..] == [" ", "."];
    assert Join(parts, '/') == "." + ['/'] + " /." == path;
    SplitJoin(parts, '/');
    var kept := root + [" "];
    assert path[..1] == "." && !IsAbs(path);
    assert [" ", "."][1..] == ["."];
    calc {
      Resolved(root, path);
      CleanParts(root, parts);
      CleanParts(root, [" ", "."]);
      CleanParts(kept, ["."]);
      CleanParts(kept, []);
      kept;
    }
  }
}
