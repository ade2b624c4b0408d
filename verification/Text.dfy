/** The parts of Go's strings package that the modelled code depends on. */
module Text {

  /** Exactly the code points of Go's unicode.IsSpace. */
  predicate IsSpace(c: char) {
    || '\t' <= c <= '\r'
    || c == ' ' || c == '\U{85}' || c == '\U{A0}' || c == '\U{1680}'
    || '\U{2000}' <= c <= '\U{200A}'
    || c == '\U{2028}' || c == '\U{2029}' || c == '\U{202F}' || c == '\U{205F}' || c == '\U{3000}'
  }

  predicate AllSpace(s: string) {
    forall k | 0 <= k < |s| :: IsSpace(s[k])
  }

  function TrimLeft(s: string): string {
    if s != "" && IsSpace(s[0]) then TrimLeft(s[1..]) else s
  }

  function TrimRight(s: string): string {
    if s != "" && IsSpace(s[|s| - 1]) then TrimRight(s[..|s| - 1]) else s
  }

  function TrimSpace(s: string): string {
    TrimRight(TrimLeft(s))
  }

  /** Trimming yields nothing exactly on blank text. */
  lemma {:induction false} TrimmedAway(s: string)
    ensures TrimSpace(s) == "" <==> AllSpace(s)
  {
    TrimLeftAway(s);
    var t := TrimLeft(s);
    if t != "" {
      TrimRightKeepsHead(t);
    }
  }

  lemma {:induction false} TrimLeftAway(s: string)
    ensures TrimLeft(s) == "" <==> AllSpace(s)
    ensures TrimLeft(s) != "" ==> !IsSpace(TrimLeft(s)[0])
  {
    if s != "" && IsSpace(s[0]) {
      TrimLeftAway(s[1..]);
      assert s == [s[0]] + s[1..];
    }
  }

  lemma {:induction false} TrimRightKeepsHead(s: string)
    requires s != "" && !IsSpace(s[0])
    ensures TrimRight(s) != "" && TrimRight(s)[0] == s[0]
    ensures !IsSpace(TrimRight(s)[|TrimRight(s)| - 1])
  {
    if IsSpace(s[|s| - 1]) {
      TrimRightKeepsHead(s[..|s| - 1]);
    }
  }

  lemma {:induction false} TrimLeftSplits(s: string) returns (indent: string)
    ensures AllSpace(indent) && s == indent + TrimLeft(s)
  {
    indent := "";
    if s != "" && IsSpace(s[0]) {
      var rest := TrimLeftSplits(s[1..]);
      indent := [s[0]] + rest;
      assert s == [s[0]] + s[1..];
    }
  }

  lemma {:induction false} TrimLeftIndented(indent: string, s: string)
    requires AllSpace(indent) && s != "" && !IsSpace(s[0])
    ensures TrimLeft(indent + s) == s
  {
    if indent == "" {
      assert indent + s == s;
    } else {
      TrimLeftIndented(indent[1..], s);
      assert (indent + s)[1..] == indent[1..] + s;
    }
  }

  lemma {:induction false} TrimRightKeeps(s: string, prefix: string)
    requires prefix <= s && prefix != "" && !IsSpace(prefix[|prefix| - 1])
    ensures prefix <= TrimRight(s)
  {
    if IsSpace(s[|s| - 1]) {
      assert |prefix| < |s|;
      TrimRightKeeps(s[..|s| - 1], prefix);
    }
  }

  lemma {:induction false} TrimRightIsPrefix(s: string)
    ensures TrimRight(s) <= s
  {
    if s != "" && IsSpace(s[|s| - 1]) {
      TrimRightIsPrefix(s[..|s| - 1]);
    }
  }

  /** A trimmed text begins with a mark exactly when the text has it behind an indent. */
  lemma TrimmedBeginsExactly(s: string, mark: string)
    requires mark != "" && !IsSpace(mark[0]) && !IsSpace(mark[|mark| - 1])
    ensures HasPrefix(TrimSpace(s), mark) <==> exists indent, rest :: AllSpace(indent) && s == indent + mark + rest
  {
    if HasPrefix(TrimSpace(s), mark) {
      var indent := TrimLeftSplits(s);
      var t := TrimLeft(s);
      TrimRightIsPrefix(t);
      assert t == mark + t[|mark|..];
      assert s == indent + mark + t[|mark|..];
    }
    forall indent, rest | AllSpace(indent) && s == indent + mark + rest ensures HasPrefix(TrimSpace(s), mark) {
      assert s == indent + (mark + rest);
      TrimLeftIndented(indent, mark + rest);
      TrimRightKeeps(mark + rest, mark);
    }
  }

  predicate HasPrefix(s: string, prefix: string) {
    prefix <= s
  }

  predicate HasSuffix(s: string, suffix: string) {
    |suffix| <= |s| && s[|s| - |suffix|..] == suffix
  }

  function ToUpper(c: char): char {
    if 'a' <= c <= 'z' then c - 32 as char else c
  }

  /** strings.EqualFold against ASCII text without 'K' or 'S', the only letters
      that also fold to something outside ASCII. */
  predicate EqualFold(s: string, t: string) {
    |s| == |t| && forall k | 0 <= k < |s| :: ToUpper(s[k]) == ToUpper(t[k])
  }

  /** strconv.Itoa. */
  function Itoa(n: nat): string {
    if n < 10 then [('0' as int + n) as char] else Itoa(n / 10) + [('0' as int + n % 10) as char]
  }

  function Join(parts: seq<string>, sep: char): string {
    if |parts| == 0 then ""
    else if |parts| == 1 then parts[0]
    else parts[0] + [sep] + Join(parts[1..], sep)
  }

  predicate Without(parts: seq<string>, sep: char) {
    forall k | 0 <= k < |parts| :: sep !in parts[k]
  }

  function Split(s: string, sep: char): (parts: seq<string>)
    ensures parts != []
    ensures Without(parts, sep)
  {
    if s == "" then [""]
    else
      var rest := Split(s[1..], sep);
      if s[0] == sep then [""] + rest
      else [[s[0]] + rest[0]] + rest[1..]
  }

  /** Joining what was split gives the text back. */
  lemma {:induction false} JoinSplit(s: string, sep: char)
    ensures Join(Split(s, sep), sep) == s
  {
    if s != "" {
      JoinSplit(s[1..], sep);
      var rest := Split(s[1..], sep);
      if s[0] == sep {
        assert Split(s, sep)[1..] == rest;
      } else {
        var parts := Split(s, sep);
        assert parts == [[s[0]] + rest[0]] + rest[1..];
        assert parts[1..] == rest[1..];
        if |rest| > 1 {
          assert Join(rest, sep) == rest[0] + [sep] + Join(rest[1..], sep);
        }
      }
    }
  }

  lemma {:induction false} SplitPlain(a: string, sep: char)
    requires sep !in a
    ensures Split(a, sep) == [a]
  {
    if a != "" {
      SplitPlain(a[1..], sep);
      assert a == [a[0]] + a[1..];
    }
  }

  /** Splitting at one separator splits the two sides separately. */
  lemma {:induction false} SplitConcat(a: string, b: string, sep: char)
    ensures Split(a + [sep] + b, sep) == Split(a, sep) + Split(b, sep)
  {
    if a == "" {
      assert (a + [sep] + b)[1..] == b;
    } else {
      var c, tail := a[0], a[1..] + [sep] + b;
      SplitConcat(a[1..], b, sep);
      assert a + [sep] + b == [c] + tail;
      assert a == [c] + a[1..];
      SplitCons(c, a[1..], sep);
      SplitExtends(c, tail, Split(a[1..], sep), Split(b, sep), sep);
    }
  }

  lemma SplitExtends(c: char, s: string, left: seq<string>, right: seq<string>, sep: char)
    requires left != [] && Split(s, sep) == left + right
    ensures Split([c] + s, sep) == (if c == sep then [""] + left else [[c] + left[0]] + left[1..]) + right
  {
  }

  lemma SplitCons(c: char, s: string, sep: char)
    ensures Split([c] + s, sep) ==
            var rest := Split(s, sep);
            if c == sep then [""] + rest else [[c] + rest[0]] + rest[1..]
  {
  }

  /** Splitting what was joined gives the parts back. */
  lemma {:induction false} SplitJoin(parts: seq<string>, sep: char)
    requires parts != [] && Without(parts, sep)
    ensures Split(Join(parts, sep), sep) == parts
  {
    if |parts| == 1 {
      SplitPlain(parts[0], sep);
      assert parts == [parts[0]];
    } else {
      SplitJoin(parts[1..], sep);
      SplitPlain(parts[0], sep);
      SplitConcat(parts[0], Join(parts[1..], sep), sep);
      assert parts == [parts[0]] + parts[1..];
    }
  }

  lemma {:induction false} JoinLast(parts: seq<string>, a: string, sep: char)
    requires parts != []
    ensures Join(parts + [a], sep) == Join(parts, sep) + [sep] + a
  {
    if |parts| == 1 {
      assert (parts + [a])[1..] == [a];
    } else {
      JoinLast(parts[1..], a, sep);
      assert (parts + [a])[1..] == parts[1..] + [a];
    }
  }

  /** The parts with another one put in at index k. */
  function Inserted(parts: seq<string>, k: nat, part: string): seq<string>
    requires k <= |parts|
  {
    parts[..k] + [part] + parts[k..]
  }
}
