/** Read receipts of one recipient among many. */
module NotificationInbox {
  import opened Wrappers

  datatype Notification = Notification(
    recipient: string, org: string, inApp: bool, delivered: bool, readAt: Option<int>)

  type Table = map<string, Notification>

  /** The rows the endpoints select for a recipient. */
  predicate Listed(n: Notification, user: string, org: string) {
    n.recipient == user && n.org == org && n.inApp && n.delivered
  }

  predicate IsUnread(n: Notification, user: string, org: string) {
    Listed(n, user, org) && n.readAt.None?
  }

  function ListedIds(t: Table, user: string, org: string): set<string> {
    set id | id in t && Listed(t[id], user, org)
  }

  function UnreadIds(t: Table, user: string, org: string): set<string> {
    set id | id in t && IsUnread(t[id], user, org)
  }

  function ReadIds(t: Table, user: string, org: string): set<string> {
    set id | id in t && Listed(t[id], user, org) && t[id].readAt.Some?
  }

  datatype Event =
    | Insert(id: string, row: Notification)
    | Deliver(id: string)
    | Bounce(org: string, id: string)
    | Read(user: string, org: string, id: string, now: int)
    | ReadAll(user: string, org: string, now: int)

  /** An event and, for the read endpoints, the number of rows it affected. */
  function Apply(t: Table, e: Event): (Table, nat) {
    match e
    case Insert(id, row) => if id in t then (t, 0) else (t[id := row], 0)
    case Deliver(id) => if id in t then (t[id := t[id].(delivered := true)], 0) else (t, 0)
    case Bounce(org, id) =>
      if id in t && t[id].org == org then (t[id := t[id].(delivered := false)], 1) else (t, 0)
    case Read(user, org, id, now) =>
      if id in t && Listed(t[id], user, org)
      then (t[id := t[id].(readAt := Some(t[id].readAt.GetOr(now)))], 1)
      else (t, 0)
    case ReadAll(user, org, now) =>
      (map id | id in t :: if IsUnread(t[id], user, org) then t[id].(readAt := Some(now)) else t[id],
       |UnreadIds(t, user, org)|)
  }

  function ApplyAll(t: Table, events: seq<Event>): Table
    decreases |events|
  {
    if events == [] then t else ApplyAll(Apply(t, events[0]).0, events[1..])
  }

  /** Once set, a read time is never changed, by anything. */
  lemma {:induction false} ReadTimeIsFinal(t: Table, events: seq<Event>, id: string)
    requires id in t && t[id].readAt.Some?
    ensures id in ApplyAll(t, events) && ApplyAll(t, events)[id].readAt == t[id].readAt
    decreases |events|
  {
    if events != [] {
      ReadTimeIsFinal(Apply(t, events[0]).0, events[1..], id);
    }
  }

  /** The unread count is what was delivered less what was read. */
  lemma UnreadIsDeliveredLessRead(t: Table, user: string, org: string)
    ensures |UnreadIds(t, user, org)| == |ListedIds(t, user, org)| - |ReadIds(t, user, org)|
  {
    assert ListedIds(t, user, org) == UnreadIds(t, user, org) + ReadIds(t, user, org);
    assert UnreadIds(t, user, org) !! ReadIds(t, user, org);
  }

  /** Reading everything reports the number of rows whose read time it sets, which
      is the whole unread count, and leaves none unread and everything listed. */
  lemma ReadAllReportsWhatItClears(t: Table, user: string, org: string, now: int)
    ensures var (after, count) := Apply(t, ReadAll(user, org, now));
            && count == |set id | id in t && after[id].readAt != t[id].readAt|
            && count == |UnreadIds(t, user, org)| - |UnreadIds(after, user, org)|
            && UnreadIds(after, user, org) == {}
            && ListedIds(after, user, org) == ListedIds(t, user, org)
  {
    var after := Apply(t, ReadAll(user, org, now)).0;
    assert (set id | id in t && after[id].readAt != t[id].readAt) == UnreadIds(t, user, org);
  }

  // ----------------------------------------------------------------- balance

  /** Whether an event puts an unread notification into the recipient's inbox. */
  function Arrived(t: Table, e: Event, user: string, org: string): nat {
    match e
    case Insert(id, row) => if id !in t && IsUnread(row, user, org) then 1 else 0
    case Deliver(id) =>
      if id in t && !t[id].delivered && IsUnread(t[id].(delivered := true), user, org) then 1 else 0
    case _ => 0
  }

  /** Whether an event takes an unread notification out of it other than by a read. */
  function Departed(t: Table, e: Event, user: string, org: string): nat {
    if e.Bounce? && e.org == org && e.id in t && IsUnread(t[e.id], user, org) then 1 else 0
  }

  /** What the recipient's own reads clear: a read-all what it reports, a read of
      one notification that one, the first time it is reported found. */
  function Cleared(t: Table, e: Event, user: string, org: string): nat {
    if !ReadsOf(e, user, org) then 0
    else if e.ReadAll? then Apply(t, e).1
    else if e.id in t && t[e.id].readAt.None? then Apply(t, e).1
    else 0
  }

  function AllArrived(t: Table, events: seq<Event>, user: string, org: string): nat
    decreases |events|
  {
    if events == [] then 0
    else Arrived(t, events[0], user, org) + AllArrived(Apply(t, events[0]).0, events[1..], user, org)
  }

  function AllDeparted(t: Table, events: seq<Event>, user: string, org: string): nat
    decreases |events|
  {
    if events == [] then 0
    else Departed(t, events[0], user, org) + AllDeparted(Apply(t, events[0]).0, events[1..], user, org)
  }

  function AllCleared(t: Table, events: seq<Event>, user: string, org: string): nat
    decreases |events|
  {
    if events == [] then 0
    else Cleared(t, events[0], user, org) + AllCleared(Apply(t, events[0]).0, events[1..], user, org)
  }

  lemma ArrivalBalances(t: Table, e: Event, user: string, org: string)
    requires e.Insert? || e.Deliver?
    ensures |UnreadIds(Apply(t, e).0, user, org)| == |UnreadIds(t, user, org)| + Arrived(t, e, user, org)
  {
    var before, now := UnreadIds(t, user, org), UnreadIds(Apply(t, e).0, user, org);
    if Arrived(t, e, user, org) == 1 {
      assert e.id !in before && now == before + {e.id};
    } else {
      assert now == before;
    }
  }

  lemma BounceBalances(t: Table, e: Event, user: string, org: string)
    requires e.Bounce?
    ensures |UnreadIds(Apply(t, e).0, user, org)| == |UnreadIds(t, user, org)| - Departed(t, e, user, org)
  {
    var before, now := UnreadIds(t, user, org), UnreadIds(Apply(t, e).0, user, org);
    if Departed(t, e, user, org) == 1 {
      assert now == before - {e.id};
    } else {
      assert now == before;
    }
  }

  lemma ReadBalances(t: Table, user: string, org: string, id: string, now: int)
    ensures var e := Read(user, org, id, now);
            |UnreadIds(Apply(t, e).0, user, org)| == |UnreadIds(t, user, org)| - Cleared(t, e, user, org)
  {
    var before := UnreadIds(t, user, org);
    ReadTakesOne(t, user, org, id, now, now);
    if id !in before {
      assert before - {id} == before;
    }
  }

  lemma StepBalances(t: Table, e: Event, user: string, org: string)
    ensures |UnreadIds(Apply(t, e).0, user, org)| + Departed(t, e, user, org) + Cleared(t, e, user, org)
            == |UnreadIds(t, user, org)| + Arrived(t, e, user, org)
  {
    if e.Insert? || e.Deliver? {
      ArrivalBalances(t, e, user, org);
    } else if e.Bounce? {
      BounceBalances(t, e, user, org);
    } else if !ReadsOf(e, user, org) {
      ReadLeavesOthers(t, e, user, org);
    } else if e.Read? {
      ReadBalances(t, user, org, e.id, e.now);
    } else {
      ReadAllReportsWhatItClears(t, user, org, e.now);
    }
  }

  /** What a recipient's unread count must be after some events on a table. */
  function Balance(t: Table, events: seq<Event>, user: string, org: string): int {
    |UnreadIds(t, user, org)| + AllArrived(t, events, user, org)
      - AllDeparted(t, events, user, org) - AllCleared(t, events, user, org)
  }

  /** Over any interleaving of insertions, deliveries, bounces, reads and read-alls
      of any users: unread now is unread at the start, plus what arrived, less what
      bounced unread and what the recipient's own reads and read-alls reported. */
  lemma {:induction false} UnreadBalances(t: Table, events: seq<Event>, user: string, org: string)
    ensures |UnreadIds(ApplyAll(t, events), user, org)| == Balance(t, events, user, org)
    decreases |events|
  {
    if events != [] {
      StepBalances(t, events[0], user, org);
      UnreadBalances(Apply(t, events[0]).0, events[1..], user, org);
    }
  }

  /** So a read-all after any events on an empty table reports what has arrived and
      is neither bounced nor cleared yet, and another one at once reports nothing. */
  lemma ReadAllReportsTheBalance(events: seq<Event>, user: string, org: string, now: int, later: int)
    ensures var t := ApplyAll(map[], events);
            var (after, count) := Apply(t, ReadAll(user, org, now));
            && count == AllArrived(map[], events, user, org) - AllDeparted(map[], events, user, org)
                        - AllCleared(map[], events, user, org)
            && Apply(after, ReadAll(user, org, later)).1 == 0
  {
    UnreadBalances(map[], events, user, org);
    ReadAllReportsWhatItClears(ApplyAll(map[], events), user, org, now);
    assert UnreadIds(map[], user, org) == {};
  }

  /** Reading one notification takes exactly that one off the unread set; repeating
      it succeeds and changes nothing. */
  lemma ReadTakesOne(t: Table, user: string, org: string, id: string, now: int, later: int)
    ensures var (after, rows) := Apply(t, Read(user, org, id, now));
            && rows == (if id in ListedIds(t, user, org) then 1 else 0)
            && UnreadIds(after, user, org) == UnreadIds(t, user, org) - {id}
            && Apply(after, Read(user, org, id, later)) == (after, rows)
  {
    var (after, rows) := Apply(t, Read(user, org, id, now));
    if rows == 1 {
      assert after[id := after[id]] == after;
    }
  }

  predicate ReadsOf(e: Event, user: string, org: string) {
    (e.Read? || e.ReadAll?) && e.user == user && e.org == org
  }

  ghost predicate OnlyReads(events: seq<Event>) {
    forall k | 0 <= k < |events| :: events[k].Read? || events[k].ReadAll?
  }

  lemma ReadLeavesOthers(t: Table, e: Event, user: string, org: string)
    requires (e.Read? || e.ReadAll?) && !ReadsOf(e, user, org)
    ensures UnreadIds(Apply(t, e).0, user, org) == UnreadIds(t, user, org)
  {
  }

  /** However others interleave their reads, a recipient's unread set is decided by
      the recipient's own reads alone. */
  lemma {:induction false} OthersReadsDoNotCount(t: Table, events: seq<Event>, user: string, org: string)
    requires OnlyReads(events) && forall k | 0 <= k < |events| :: !ReadsOf(events[k], user, org)
    ensures UnreadIds(ApplyAll(t, events), user, org) == UnreadIds(t, user, org)
    decreases |events|
  {
    if events != [] {
      ReadLeavesOthers(t, events[0], user, org);
      OthersReadsDoNotCount(Apply(t, events[0]).0, events[1..], user, org);
    }
  }

  lemma {:induction false} ApplyAllSnoc(t: Table, events: seq<Event>, e: Event)
    ensures ApplyAll(t, events + [e]) == Apply(ApplyAll(t, events), e).0
    decreases |events|
  {
    if events == [] {
      assert ([] + [e])[1..] == [];
    } else {
      assert (events + [e])[1..] == events[1..] + [e];
      ApplyAllSnoc(Apply(t, events[0]).0, events[1..], e);
    }
  }

  // --------------------------------------------------------------- read times

  /** The event is a read of this row by its own recipient, and the row is a delivered
      notification of the in-app channel. */
  predicate ReadsRow(e: Event, id: string, n: Notification) {
    && (e.ReadAll? || (e.Read? && e.id == id))
    && n.recipient == e.user && n.org == e.org && n.inApp && n.delivered
  }

  lemma StepSetsReadTime(t: Table, e: Event, id: string)
    requires id in t
    ensures var after := Apply(t, e).0;
            && id in after && after[id].inApp == t[id].inApp
            && after[id].readAt == if t[id].readAt.None? && ReadsRow(e, id, t[id]) then Some(e.now) else t[id].readAt
  {
  }

  /** Event k of a run is such a read of the row as it is by then. */
  ghost predicate ReadsAt(t: Table, events: seq<Event>, k: int, id: string) {
    && 0 <= k < |events|
    && var before := ApplyAll(t, events[..k]);
       id in before && ReadsRow(events[k], id, before[id])
  }

  ghost predicate FirstReadAt(t: Table, events: seq<Event>, k: int, id: string) {
    ReadsAt(t, events, k, id) && forall j :: ReadsAt(t, events, j, id) ==> k <= j
  }

  lemma PrefixReads(t: Table, events: seq<Event>, n: nat, k: int, id: string)
    requires k < n <= |events|
    ensures ReadsAt(t, events[..n], k, id) <==> ReadsAt(t, events, k, id)
  {
    if k >= 0 {
      assert events[..n][..k] == events[..k];
    }
  }

  /** After any events an unread row has the time of the first of them that was its own
      recipient's read of it while delivered in-app, and none if there was no such read. */
  lemma {:induction false} FirstReadSetsTheTime(t: Table, events: seq<Event>, id: string)
    requires id in t && t[id].readAt.None?
    ensures var after := ApplyAll(t, events);
            id in after &&
            match after[id].readAt
            case None => forall k :: !ReadsAt(t, events, k, id)
            case Some(time) =>
              exists k :: FirstReadAt(t, events, k, id) && events[k].now == time
    decreases |events|
  {
    if events != [] {
      var n := |events| - 1;
      var init := events[..n];
      assert events == init + [events[n]];
      ApplyAllSnoc(t, init, events[n]);
      FirstReadSetsTheTime(t, init, id);
      StepSetsReadTime(ApplyAll(t, init), events[n], id);
      forall k | k < n ensures ReadsAt(t, init, k, id) <==> ReadsAt(t, events, k, id) {
        PrefixReads(t, events, n, k, id);
      }
    }
  }

  /** A notification of another channel is never listed for anyone, nor counted, nor read. */
  lemma {:induction false} OtherChannelsAreNeverRead(t: Table, events: seq<Event>, id: string)
    requires id in t && !t[id].inApp
    ensures var after := ApplyAll(t, events);
            && id in after && after[id].readAt == t[id].readAt
            && forall user, org :: id !in ListedIds(after, user, org) && id !in UnreadIds(after, user, org)
    decreases |events|
  {
    if events != [] {
      StepSetsReadTime(t, events[0], id);
      OtherChannelsAreNeverRead(Apply(t, events[0]).0, events[1..], id);
    }
  }

  /** The table, and the events that made it what it is. */
  class Inbox {
    var rows: Table
    ghost var start: Table
    ghost var events: seq<Event>

    ghost predicate Valid()
      reads this
    {
      rows == ApplyAll(start, events)
    }

    constructor (rows: Table)
      ensures Valid() && this.rows == rows == start && events == []
    {
      this.rows := rows;
      start := rows;
      events := [];
    }

    /** What insertions, deliveries and bounces elsewhere do to the table. */
    method Observe(e: Event)
      requires Valid()
      modifies this
      ensures Valid() && start == old(start) && events == old(events) + [e]
    {
      ApplyAllSnoc(start, events, e);
      rows := Apply(rows, e).0;
      events := events + [e];
    }

    /** PUT /notifications/{id}/read: found exactly when the recipient lists it, and
        then it is off the unread ones, with its first read time; nothing else, and
        no other recipient's list, changes. */
    method MarkAsRead(user: string, org: string, id: string, now: int) returns (found: bool)
      requires Valid()
      modifies this
      ensures Valid() && start == old(start) && events == old(events) + [Read(user, org, id, now)]
      ensures (rows, if found then 1 else 0) == Apply(old(rows), Read(user, org, id, now))
      ensures found <==> id in old(ListedIds(rows, user, org))
      ensures ListedIds(rows, user, org) == old(ListedIds(rows, user, org))
      ensures UnreadIds(rows, user, org) == old(UnreadIds(rows, user, org)) - {id}
      ensures found && id !in old(UnreadIds(rows, user, org)) ==> rows == old(rows)
      ensures rows - {id} == old(rows) - {id}
    {
      ApplyAllSnoc(start, events, Read(user, org, id, now));
      found := id in rows && Listed(rows[id], user, org);
      if found {
        var row := rows[id];
        rows := rows[id := row.(readAt := if row.readAt.Some? then row.readAt else Some(now))];
      }
      events := events + [Read(user, org, id, now)];
    }

    /** PUT /notifications/read-all: every unread row, and how many they were. */
    method MarkAllAsRead(user: string, org: string, now: int) returns (count: nat)
      requires Valid()
      modifies this
      ensures Valid() && start == old(start) && events == old(events) + [ReadAll(user, org, now)]
      ensures (rows, count) == Apply(old(rows), ReadAll(user, org, now))
    {
      ghost var before := rows;
      var todo := UnreadIds(rows, user, org);
      ghost var unread := todo;
      count := 0;
      while todo != {}
        invariant todo <= unread == UnreadIds(before, user, org) && count == |unread| - |todo|
        invariant rows.Keys == before.Keys
        invariant forall id | id in before ::
          rows[id] == if id in unread && id !in todo then before[id].(readAt := Some(now)) else before[id]
        invariant start == old(start) && events == old(events)
        decreases todo
      {
        var id :| id in todo;
        rows := rows[id := rows[id].(readAt := Some(now))];
        todo := todo - {id};
        count := count + 1;
      }
      assert rows == Apply(before, ReadAll(user, org, now)).0;
      ApplyAllSnoc(start, events, ReadAll(user, org, now));
      events := events + [ReadAll(user, org, now)];
    }

    /** GET /notifications/unread-count: what the events leave, which is also what is
        listed less what is read. */
    method GetUnreadCount(user: string, org: string) returns (count: nat)
      requires Valid()
      ensures count == Balance(start, events, user, org)
      ensures count == |ListedIds(rows, user, org)| - |ReadIds(rows, user, org)|
    {
      UnreadBalances(start, events, user, org);
      UnreadIsDeliveredLessRead(rows, user, org);
      count := |UnreadIds(rows, user, org)|;
    }
  }
}
