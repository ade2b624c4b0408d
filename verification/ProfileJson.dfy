/** The organisation profile's JSON checker, from the token stream on. */
module ProfileJson {
  import opened Wrappers

  const MAX_DEPTH := 16

  /** What one call of json.Decoder.Token can meet; Malformed is a syntax error. */
  datatype Token =
    | OpenObject | CloseObject | OpenArray | CloseArray
    | Str(text: string) | Number(literal: string) | Bool(value: bool) | Null
    | Malformed

  datatype Json =
    | JNull | JBool(value: bool) | JNumber(literal: string) | JString(text: string)
    | JArray(items: Items)
    | JObject(members: Members)

  datatype Items = NoItems | Item(head: Json, rest: Items)

  datatype Members = NoMembers | Member(key: string, value: Json, rest: Members)

  // ------------------------------------------------------ tree specification

  function Tokens(v: Json): seq<Token> {
    match v
    case JNull => [Null]
    case JBool(b) => [Bool(b)]
    case JNumber(n) => [Number(n)]
    case JString(s) => [Str(s)]
    case JArray(items) => [OpenArray] + ItemTokens(items) + [CloseArray]
    case JObject(members) => [OpenObject] + MemberTokens(members) + [CloseObject]
  }

  function ItemTokens(items: Items): seq<Token> {
    match items
    case NoItems => []
    case Item(v, rest) => Tokens(v) + ItemTokens(rest)
  }

  function MemberTokens(members: Members): seq<Token> {
    match members
    case NoMembers => []
    case Member(key, v, rest) => [Str(key)] + Tokens(v) + MemberTokens(rest)
  }

  function Max(a: nat, b: nat): nat {
    if a < b then b else a
  }

  /** The depth of the deepest value below v; v itself is at depth 0. */
  function Height(v: Json): nat {
    match v
    case JArray(items) => ItemsHeight(items)
    case JObject(members) => MembersHeight(members)
    case _ => 0
  }

  function ItemsHeight(items: Items): nat {
    match items
    case NoItems => 0
    case Item(v, rest) => Max(1 + Height(v), ItemsHeight(rest))
  }

  function MembersHeight(members: Members): nat {
    match members
    case NoMembers => 0
    case Member(_, v, rest) => Max(1 + Height(v), MembersHeight(rest))
  }

  function Keys(members: Members): set<string> {
    match members
    case NoMembers => {}
    case Member(key, _, rest) => {key} + Keys(rest)
  }

  /** In every object inside v the member names are pairwise distinct. */
  predicate UniqueKeys(v: Json) {
    match v
    case JArray(items) => ItemsUnique(items)
    case JObject(members) => MembersUnique(members)
    case _ => true
  }

  predicate ItemsUnique(items: Items) {
    match items
    case NoItems => true
    case Item(v, rest) => UniqueKeys(v) && ItemsUnique(rest)
  }

  predicate MembersUnique(members: Members) {
    match members
    case NoMembers => true
    case Member(key, v, rest) => key !in Keys(rest) && UniqueKeys(v) && MembersUnique(rest)
  }

  predicate NoNullMember(members: Members) {
    match members
    case NoMembers => true
    case Member(_, v, rest) => v != JNull && NoNullMember(rest)
  }

  /** The profiles the checker is meant to accept. */
  predicate AcceptableProfile(members: Members) {
    MembersUnique(members) && MembersHeight(members) <= MAX_DEPTH && NoNullMember(members)
  }

  // --------------------------------------------------- what the code consumes

  type Parsed<T> = Option<(T, seq<Token>)>

  /** json.Decoder.More: there is a next token and it closes nothing. */
  predicate More(ts: seq<Token>) {
    ts != [] && ts[0] != CloseObject && ts[0] != CloseArray
  }

  /** The value one call of inspectProfileJSONValue consumes, if it succeeds. */
  function ParseValue(ts: seq<Token>, depth: nat, rejectNull: bool): (r: Parsed<Json>)
    ensures r.Some? ==> |r.value.1| < |ts|
    decreases |ts|, 1
  {
    if depth > MAX_DEPTH || ts == [] then None
    else
      match ts[0]
      case Null => if rejectNull then None else Some((JNull, ts[1..]))
      case Bool(b) => Some((JBool(b), ts[1..]))
      case Number(n) => Some((JNumber(n), ts[1..]))
      case Str(s) => Some((JString(s), ts[1..]))
      case OpenObject =>
        (match ParseMembers(ts[1..], depth, false, {})
         case Some((members, rest)) => Some((JObject(members), rest))
         case None => None)
      case OpenArray =>
        (match ParseItems(ts[1..], depth)
         case Some((items, rest)) => Some((JArray(items), rest))
         case None => None)
      case _ => None
  }

  /** The array items up to and including the closing bracket. */
  function ParseItems(ts: seq<Token>, depth: nat): (r: Parsed<Items>)
    ensures r.Some? ==> |r.value.1| < |ts|
    decreases |ts|, 2
  {
    if !More(ts) then
      if ts != [] && ts[0] == CloseArray then Some((NoItems, ts[1..])) else None
    else
      match ParseValue(ts, depth + 1, false)
      case None => None
      case Some((v, afterValue)) =>
        match ParseItems(afterValue, depth)
        case None => None
        case Some((items, rest)) => Some((Item(v, items), rest))
  }

  /** The object members up to and including the closing brace. */
  function ParseMembers(ts: seq<Token>, depth: nat, top: bool, seen: set<string>): (r: Parsed<Members>)
    ensures r.Some? ==> |r.value.1| < |ts|
    decreases |ts|, 2
  {
    if depth > MAX_DEPTH then None
    else if !More(ts) then
      if ts != [] && ts[0] == CloseObject then Some((NoMembers, ts[1..])) else None
    else if !ts[0].Str? || ts[0].text in seen then None
    else
      match ParseValue(ts[1..], depth + 1, top)
      case None => None
      case Some((v, afterValue)) =>
        match ParseMembers(afterValue, depth, top, seen + {ts[0].text})
        case None => None
        case Some((members, rest)) => Some((Member(ts[0].text, v, members), rest))
  }

  // ------------------------------------------------- how serialisations begin

  lemma StartsAValue(v: Json, rest: seq<Token>)
    ensures More(Tokens(v) + rest)
  {
  }

  lemma Bracketed(open: Token, inner: seq<Token>, close: Token, x: seq<Token>)
    ensures var ts := [open] + inner + [close] + x;
            ts[0] == open && ts[1..] == inner + [close] + x
  {
  }

  /** How the serialisation of a value begins, and what follows its first token. */
  lemma FirstToken(v: Json, x: seq<Token>)
    ensures var ts := Tokens(v) + x;
            match v
            case JNull => ts[0] == Null && ts[1..] == x
            case JBool(b) => ts[0] == Bool(b) && ts[1..] == x
            case JNumber(n) => ts[0] == Number(n) && ts[1..] == x
            case JString(t) => ts[0] == Str(t) && ts[1..] == x
            case JArray(items) => ts[0] == OpenArray && ts[1..] == ItemTokens(items) + [CloseArray] + x
            case JObject(members) => ts[0] == OpenObject && ts[1..] == MemberTokens(members) + [CloseObject] + x
  {
    match v
    case JArray(items) => Bracketed(OpenArray, ItemTokens(items), CloseArray, x);
    case JObject(members) => Bracketed(OpenObject, MemberTokens(members), CloseObject, x);
    case _ =>
  }

  lemma ItemsStart(items: Items, rest: seq<Token>)
    ensures var ts := ItemTokens(items) + [CloseArray] + rest;
            if items.Item?
            then More(ts) && ts == Tokens(items.head) + (ItemTokens(items.rest) + [CloseArray] + rest)
            else ts[0] == CloseArray && !More(ts) && ts[1..] == rest
  {
    if items.Item? {
      var tail := ItemTokens(items.rest) + [CloseArray] + rest;
      assert ItemTokens(items) + [CloseArray] + rest == Tokens(items.head) + tail;
      StartsAValue(items.head, tail);
    }
  }

  lemma MembersStart(members: Members, rest: seq<Token>)
    ensures var ts := MemberTokens(members) + [CloseObject] + rest;
            if members.Member?
            then ts[0] == Str(members.key)
                 && ts[1..] == Tokens(members.value) + (MemberTokens(members.rest) + [CloseObject] + rest)
            else ts[0] == CloseObject && ts[1..] == rest
  {
  }

  lemma SameHeadAndTail(a: seq<Token>, b: seq<Token>)
    requires a != [] && b != [] && a[0] == b[0] && a[1..] == b[1..]
    ensures a == b
  {
    assert a == [a[0]] + a[1..] && b == [b[0]] + b[1..];
  }

  // ---------------------------------------------------------------- soundness

  /** What is consumed is the serialisation of an acceptable value. */
  lemma {:induction false} ValueSound(ts: seq<Token>, depth: nat, rejectNull: bool)
    requires ParseValue(ts, depth, rejectNull).Some?
    ensures var (v, rest) := ParseValue(ts, depth, rejectNull).value;
            && ts == Tokens(v) + rest
            && depth + Height(v) <= MAX_DEPTH && UniqueKeys(v)
            && (rejectNull ==> v != JNull)
    decreases |ts|, 1
  {
    if ts[0] == OpenObject {
      MembersSound(ts[1..], depth, false, {});
    } else if ts[0] == OpenArray {
      ItemsSound(ts[1..], depth);
    }
    var (v, rest) := ParseValue(ts, depth, rejectNull).value;
    FirstToken(v, rest);
    SameHeadAndTail(ts, Tokens(v) + rest);
  }

  lemma {:induction false} ItemsSound(ts: seq<Token>, depth: nat)
    requires depth <= MAX_DEPTH && ParseItems(ts, depth).Some?
    ensures var (items, rest) := ParseItems(ts, depth).value;
            && ts == ItemTokens(items) + [CloseArray] + rest
            && depth + ItemsHeight(items) <= MAX_DEPTH && ItemsUnique(items)
    decreases |ts|, 2
  {
    var (items, rest) := ParseItems(ts, depth).value;
    ItemsStart(items, rest);
    if More(ts) {
      ValueSound(ts, depth + 1, false);
      ItemsSound(ParseValue(ts, depth + 1, false).value.1, depth);
    } else {
      SameHeadAndTail(ts, ItemTokens(items) + [CloseArray] + rest);
    }
  }

  lemma {:induction false} MembersSound(ts: seq<Token>, depth: nat, top: bool, seen: set<string>)
    requires ParseMembers(ts, depth, top, seen).Some?
    ensures var (members, rest) := ParseMembers(ts, depth, top, seen).value;
            && ts == MemberTokens(members) + [CloseObject] + rest
            && depth + MembersHeight(members) <= MAX_DEPTH && MembersUnique(members)
            && Keys(members) !! seen
            && (top ==> NoNullMember(members))
    decreases |ts|, 2
  {
    var (members, rest) := ParseMembers(ts, depth, top, seen).value;
    MembersStart(members, rest);
    if More(ts) {
      ValueSound(ts[1..], depth + 1, top);
      MembersSound(ParseValue(ts[1..], depth + 1, top).value.1, depth, top, seen + {ts[0].text});
    }
    SameHeadAndTail(ts, MemberTokens(members) + [CloseObject] + rest);
  }

  // ------------------------------------------------------------- completeness

  /** The serialisation of an acceptable value is consumed, exactly. */
  lemma {:induction false} ValueComplete(v: Json, rest: seq<Token>, depth: nat, rejectNull: bool)
    requires depth + Height(v) <= MAX_DEPTH && UniqueKeys(v) && (rejectNull ==> v != JNull)
    ensures ParseValue(Tokens(v) + rest, depth, rejectNull) == Some((v, rest))
    decreases v
  {
    var ts := Tokens(v) + rest;
    match v
    case JObject(members) =>
      assert ts[1..] == MemberTokens(members) + [CloseObject] + rest;
      MembersComplete(members, rest, depth, false, {});
    case JArray(items) =>
      assert ts[1..] == ItemTokens(items) + [CloseArray] + rest;
      ItemsComplete(items, rest, depth);
    case _ =>
      assert ts[1..] == rest;
  }

  lemma {:induction false} ItemsComplete(items: Items, rest: seq<Token>, depth: nat)
    requires depth + ItemsHeight(items) <= MAX_DEPTH && ItemsUnique(items)
    ensures ParseItems(ItemTokens(items) + [CloseArray] + rest, depth) == Some((items, rest))
    decreases items
  {
    ItemsStart(items, rest);
    match items
    case NoItems =>
    case Item(v, more) =>
      var tail := ItemTokens(more) + [CloseArray] + rest;
      ValueComplete(v, tail, depth + 1, false);
      ItemsComplete(more, rest, depth);
  }

  lemma {:induction false} MembersComplete(members: Members, rest: seq<Token>, depth: nat, top: bool, seen: set<string>)
    requires depth + MembersHeight(members) <= MAX_DEPTH && MembersUnique(members)
    requires Keys(members) !! seen && (top ==> NoNullMember(members))
    ensures ParseMembers(MemberTokens(members) + [CloseObject] + rest, depth, top, seen) == Some((members, rest))
    decreases members
  {
    MembersStart(members, rest);
    match members
    case NoMembers =>
    case Member(key, v, more) =>
      var tail := MemberTokens(more) + [CloseObject] + rest;
      ValueComplete(v, tail, depth + 1, top);
      MembersComplete(more, rest, depth, top, seen + {key});
  }

  // ------------------------------------------------------------ unambiguity

  /** No serialisation is the beginning of another: the tree of a stream is unique. */
  lemma {:induction false} TokensUnambiguous(a: Json, b: Json, x: seq<Token>, y: seq<Token>)
    requires Tokens(a) + x == Tokens(b) + y
    ensures a == b && x == y
    decreases a
  {
    FirstToken(a, x);
    FirstToken(b, y);
    match a
    case JObject(members) => MembersUnambiguous(members, b.members, x, y);
    case JArray(items) => ItemsUnambiguous(items, b.items, x, y);
    case _ =>
  }

  lemma {:induction false} ItemsUnambiguous(a: Items, b: Items, x: seq<Token>, y: seq<Token>)
    requires ItemTokens(a) + [CloseArray] + x == ItemTokens(b) + [CloseArray] + y
    ensures a == b && x == y
    decreases a
  {
    ItemsStart(a, x);
    ItemsStart(b, y);
    if a.Item? {
      var tailA := ItemTokens(a.rest) + [CloseArray] + x;
      var tailB := ItemTokens(b.rest) + [CloseArray] + y;
      TokensUnambiguous(a.head, b.head, tailA, tailB);
      ItemsUnambiguous(a.rest, b.rest, x, y);
    }
  }

  lemma {:induction false} MembersUnambiguous(a: Members, b: Members, x: seq<Token>, y: seq<Token>)
    requires MemberTokens(a) + [CloseObject] + x == MemberTokens(b) + [CloseObject] + y
    ensures a == b && x == y
    decreases a
  {
    var ts := MemberTokens(a) + [CloseObject] + x;
    MembersStart(a, x);
    MembersStart(b, y);
    if a.Member? {
      var tailA := MemberTokens(a.rest) + [CloseObject] + x;
      var tailB := MemberTokens(b.rest) + [CloseObject] + y;
      assert ts[1..] == Tokens(b.value) + tailB;
      TokensUnambiguous(a.value, b.value, tailA, tailB);
      MembersUnambiguous(a.rest, b.rest, x, y);
    }
  }

  // ----------------------------------------------------------------- the code

  datatype Read = Read(token: Token) | EndOfInput | SyntaxError

  class Decoder {
    const tokens: seq<Token>
    var position: nat

    ghost predicate Valid()
      reads this
    {
      position <= |tokens|
    }

    /** The tokens not yet consumed. */
    ghost function Remaining(): seq<Token>
      requires Valid()
      reads this
    {
      tokens[position..]
    }

    constructor (tokens: seq<Token>)
      ensures Valid() && Remaining() == tokens
    {
      this.tokens := tokens;
      position := 0;
    }

    predicate HasMore()
      requires Valid()
      reads this
      ensures HasMore() == More(Remaining())
    {
      position < |tokens| && tokens[position] != CloseObject && tokens[position] != CloseArray
    }

    method NextToken() returns (r: Read)
      requires Valid()
      modifies this
      ensures Valid()
      ensures match r
              case Read(t) => t != Malformed && old(Remaining()) == [t] + Remaining()
              case EndOfInput => old(Remaining()) == [] && position == old(position)
              case SyntaxError =>
                old(Remaining()) != [] && old(Remaining())[0] == Malformed && position == old(position)
    {
      if position == |tokens| {
        return EndOfInput;
      }
      if tokens[position] == Malformed {
        return SyntaxError;
      }
      r := Read(tokens[position]);
      position := position + 1;
    }

    /** inspectProfileJSONObject, the opening brace already consumed. */
    method InspectObject(depth: nat, top: bool) returns (ok: bool)
      requires Valid()
      modifies this
      ensures Valid() && position >= old(position)
      ensures ok == ParseMembers(old(Remaining()), depth, top, {}).Some?
      ensures ok ==> Remaining() == ParseMembers(old(Remaining()), depth, top, {}).value.1
      decreases |tokens| - position, 2
    {
      if depth > MAX_DEPTH {
        return false;
      }
      var seen: set<string> := {};
      ghost var start := Remaining();
      while HasMore()
        invariant Valid() && position >= old(position)
        invariant ParseMembers(start, depth, top, {}).Some? == ParseMembers(Remaining(), depth, top, seen).Some?
        invariant ParseMembers(start, depth, top, {}).Some? ==>
                  ParseMembers(start, depth, top, {}).value.1 == ParseMembers(Remaining(), depth, top, seen).value.1
        decreases |tokens| - position
      {
        var token := NextToken();
        if !token.Read? || !token.token.Str? || token.token.text in seen {
          return false;
        }
        seen := seen + {token.token.text};
        ghost var afterKey := Remaining();
        var inner := InspectValue(depth + 1, top);
        if !inner {
          return false;
        }
      }
      var end := NextToken();
      ok := end == Read(CloseObject);
    }

    /** inspectProfileJSONValue. */
    method InspectValue(depth: nat, rejectNull: bool) returns (ok: bool)
      requires Valid()
      modifies this
      ensures Valid() && position >= old(position)
      ensures ok == ParseValue(old(Remaining()), depth, rejectNull).Some?
      ensures ok ==> Remaining() == ParseValue(old(Remaining()), depth, rejectNull).value.1
      decreases |tokens| - position, 1
    {
      if depth > MAX_DEPTH {
        return false;
      }
      ghost var ts := Remaining();
      var token := NextToken();
      if !token.Read? || (rejectNull && token.token == Null) {
        return false;
      }
      assert ts[1..] == Remaining();
      match token.token
      case OpenObject =>
        ok := InspectObject(depth, false);
      case OpenArray =>
        ok := InspectItems(depth);
      case CloseObject => return false;
      case CloseArray => return false;
      case _ => return true;
    }

    /** The array case of inspectProfileJSONValue: its items and closing bracket. */
    method InspectItems(depth: nat) returns (ok: bool)
      requires Valid()
      modifies this
      ensures Valid() && position >= old(position)
      ensures ok == ParseItems(old(Remaining()), depth).Some?
      ensures ok ==> Remaining() == ParseItems(old(Remaining()), depth).value.1
      decreases |tokens| - position, 2
    {
      ghost var start := Remaining();
      while HasMore()
        invariant Valid() && position >= old(position)
        invariant ParseItems(start, depth).Some? == ParseItems(Remaining(), depth).Some?
        invariant ParseItems(start, depth).Some? ==>
                  ParseItems(start, depth).value.1 == ParseItems(Remaining(), depth).value.1
        decreases |tokens| - position
      {
        var inner := InspectValue(depth + 1, false);
        if !inner {
          return false;
        }
      }
      var end := NextToken();
      ok := end == Read(CloseArray);
    }
  }

  /** The profile a whole body is parsed as. */
  function ParseProfile(tokens: seq<Token>): Option<Members> {
    if tokens == [] || tokens[0] != OpenObject then None
    else
      match ParseMembers(tokens[1..], 0, true, {})
      case Some((members, rest)) => if rest == [] then Some(members) else None
      case None => None
  }

  lemma ProfileSound(tokens: seq<Token>)
    requires ParseProfile(tokens).Some?
    ensures var members := ParseProfile(tokens).value;
            AcceptableProfile(members) && tokens == Tokens(JObject(members))
  {
    var (members, rest) := ParseMembers(tokens[1..], 0, true, {}).value;
    MembersSound(tokens[1..], 0, true, {});
    assert rest == [] && tokens[1..] == MemberTokens(members) + [CloseObject];
    assert tokens == [OpenObject] + tokens[1..];
  }

  lemma ProfileComplete(members: Members)
    requires AcceptableProfile(members)
    ensures ParseProfile(Tokens(JObject(members))) == Some(members)
  {
    var tokens := Tokens(JObject(members));
    MembersComplete(members, [], 0, true, {});
    FirstToken(JObject(members), []);
    assert tokens + [] == tokens;
  }

  /** The check of a whole body succeeds exactly on the token serialisations of
      acceptable profile objects, with nothing after them. */
  method CheckProfile(tokens: seq<Token>) returns (ok: bool)
    ensures ok <==> exists members :: AcceptableProfile(members) && tokens == Tokens(JObject(members))
  {
    AcceptedExactly(tokens);
    var checker := new Decoder(tokens);
    var first := checker.NextToken();
    if first != Read(OpenObject) {
      return false;
    }
    assert tokens[1..] == checker.Remaining();
    var inner := checker.InspectObject(0, true);
    if !inner {
      return false;
    }
    var end := checker.NextToken();
    ok := end == EndOfInput;
  }

  /** Parsing accepts exactly the serialisations of acceptable profiles. */
  lemma AcceptedExactly(tokens: seq<Token>)
    ensures ParseProfile(tokens).Some? <==>
            exists members :: AcceptableProfile(members) && tokens == Tokens(JObject(members))
  {
    if ParseProfile(tokens).Some? {
      ProfileSound(tokens);
    }
    if exists members :: AcceptableProfile(members) && tokens == Tokens(JObject(members)) {
      var members :| AcceptableProfile(members) && tokens == Tokens(JObject(members));
      ProfileComplete(members);
    }
  }
}
