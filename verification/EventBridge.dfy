/** Bridging domain events into the idempotent outbox, and what the consumer of the
    queue makes of them. */
module EventBridge {
  import opened Wrappers
  import opened Text

  /** service.Event; a zero timestamp is None. */
  datatype Event = Event(
    id: string, kind: string, org: string, entityType: string, entityId: string,
    timestamp: Option<int>, data: string)

  datatype Envelope = Envelope(
    id: string, kind: string, tenant: string, correlation: string, causation: string,
    createdAt: int, metadata: map<string, string>, payload: Event)

  /** An event as received, with the identifier and time NewEnvelope draws for it,
      and whether the outbox statement fails outright. */
  datatype Item = Item(event: Event, drawn: string, now: int, fails: bool)

  /** What the libraries decide: JSON encoding, UUID syntax, valid UTF-8, and the one
      spelling in which the database prints a UUID. */
  datatype Library = Library(
    encodes: Event -> bool, isUUID: string -> bool, validText: string -> bool, canonical: string -> string)

  datatype Row = Row(queue: string, envelope: Envelope)

  type Outbox = map<string, Row>

  const NOTIFICATION := "notification.event"

  // --------------------------------------------------------- the envelope

  function NewEnvelope(item: Item): Envelope {
    Envelope(item.drawn, NOTIFICATION, item.event.org, item.drawn, "", item.now, map[], item.event)
  }

  /** The envelope the bridge offers for an event. */
  function EnvelopeOf(item: Item): Envelope {
    var base := NewEnvelope(item);
    var event := item.event;
    var identified :=
      if event.id == "" then base
      else base.(id := event.id, correlation := event.id, createdAt := event.timestamp.GetOr(base.createdAt));
    identified.(causation := event.entityId,
                metadata := map["entity_type" := event.entityType, "entity_id" := event.entityId])
  }

  predicate BoundedText(lib: Library, s: string, limit: nat) {
    |s| <= limit && lib.validText(s)
  }

  /** Envelope.Validate, for envelopes of the bridge's constant type and version. */
  predicate ValidEnvelope(lib: Library, e: Envelope) {
    && lib.isUUID(e.id)
    && (e.tenant != "" ==> lib.isUUID(e.tenant))
    && TrimSpace(e.correlation) != "" && BoundedText(lib, e.correlation, 255)
    && BoundedText(lib, e.causation, 255)
    && |e.metadata| <= 64
    && (forall key | key in e.metadata ::
          TrimSpace(key) != "" && BoundedText(lib, key, 64) && BoundedText(lib, e.metadata[key], 1024))
  }

  /** The envelope that reaches the outbox, if the event encodes and validates. */
  function Offered(lib: Library, item: Item): Option<Envelope> {
    if !lib.encodes(item.event) || !ValidEnvelope(lib, EnvelopeOf(item)) then None
    else Some(EnvelopeOf(item))
  }

  /** In terms of the event: it is offered exactly if it encodes, its identifier and its
      organisation, if it has one, are UUIDs, and its texts are short and valid. */
  lemma OfferedExactly(lib: Library, item: Item)
    requires lib.validText("entity_type") && lib.validText("entity_id")
    ensures var event := item.event;
            var id := if event.id == "" then item.drawn else event.id;
            Offered(lib, item).Some? <==>
            && lib.encodes(event) && lib.isUUID(id) && (event.org != "" ==> lib.isUUID(event.org))
            && !AllSpace(id) && BoundedText(lib, id, 255)
            && BoundedText(lib, event.entityId, 255) && BoundedText(lib, event.entityType, 1024)
  {
    var e := EnvelopeOf(item);
    TrimmedAway(e.id);
    KeyedText("entity_type");
    KeyedText("entity_id");
    assert e.metadata.Keys == {"entity_type", "entity_id"};
  }

  lemma KeyedText(key: string)
    requires key == "entity_type" || key == "entity_id"
    ensures TrimSpace(key) != "" && |key| <= 64
  {
    assert key[0] == 'e';
    TrimmedAway(key);
  }

  // ------------------------------------------------------------ the outbox

  datatype Answer = Queued | OutboxConflict | EnqueueError

  /** The table's check that the identifiers inside the envelope read as those of the
      row's columns do. */
  predicate Storable(lib: Library, e: Envelope) {
    lib.canonical(e.id) == e.id && (e.tenant != "" ==> lib.canonical(e.tenant) == e.tenant)
  }

  /** INSERT ... ON CONFLICT DO NOTHING, then a comparison with the existing row. */
  function Enqueued(lib: Library, outbox: Outbox, queue: string, e: Envelope, fails: bool): (Outbox, Answer) {
    if fails || !Storable(lib, e) then (outbox, EnqueueError)
    else if e.id !in outbox then (outbox[e.id := Row(queue, e)], Queued)
    else if outbox[e.id] == Row(queue, e) then (outbox, Queued)
    else (outbox, OutboxConflict)
  }

  /** Offering the same envelope again, with anything else offered in between,
      changes nothing, and is answered as the first time. */
  lemma EnqueueIsIdempotent(lib: Library, outbox: Outbox, queue: string, e: Envelope, other: Envelope)
    ensures var (after, answer) := Enqueued(lib, outbox, queue, e, false);
            var later := Enqueued(lib, after, queue, other, false).0;
            Enqueued(lib, later, queue, e, false) == (later, answer)
  {
  }

  // ------------------------------------------------------------ the bridge

  /** One event: the outbox after it, and whether the bridge stops with an error. */
  function BridgeOne(lib: Library, outbox: Outbox, queue: string, item: Item): (Outbox, bool) {
    match Offered(lib, item)
    case None => (outbox, false)
    case Some(e) =>
      var (after, answer) := Enqueued(lib, outbox, queue, e, item.fails);
      (after, answer.EnqueueError? || (answer.OutboxConflict? && item.event.id == ""))
  }

  /** The outbox after events none of which stops the bridge. */
  function BridgeAll(lib: Library, outbox: Outbox, queue: string, items: seq<Item>): Outbox {
    if items == [] then outbox
    else BridgeOne(lib, BridgeAll(lib, outbox, queue, items[..|items| - 1]), queue, items[|items| - 1]).0
  }

  predicate NeverStops(lib: Library, outbox: Outbox, queue: string, items: seq<Item>) {
    items == [] ||
    (var init := items[..|items| - 1];
     && NeverStops(lib, outbox, queue, init)
     && !BridgeOne(lib, BridgeAll(lib, outbox, queue, init), queue, items[|items| - 1]).1)
  }

  class PostgresOutbox {
    var rows: Outbox

    /** Queued says that the outbox now holds exactly this envelope under its
        identifier, a conflict that it holds another; no row is ever overwritten,
        and none is added for any other identifier. */
    method Enqueue(lib: Library, queue: string, e: Envelope, fails: bool) returns (answer: Answer)
      modifies this
      ensures (rows, answer) == Enqueued(lib, old(rows), queue, e, fails)
      ensures answer.EnqueueError? <==> fails || !Storable(lib, e)
      ensures !answer.EnqueueError? ==> e.id in rows && (answer.Queued? <==> rows[e.id] == Row(queue, e))
      ensures rows.Keys <= old(rows.Keys) + {e.id}
      ensures forall id | id in old(rows) :: id in rows && rows[id] == old(rows)[id]
    {
      if fails || !Storable(lib, e) {
        return EnqueueError;
      }
      if e.id !in rows {
        rows := rows[e.id := Row(queue, e)];
        return Queued;
      }
      answer := if rows[e.id] == Row(queue, e) then Queued else OutboxConflict;
    }
  }

  /** The assignments that make an event's envelope. It carries the event and its
      organisation, is its own correlation, names the entity, and has the event's
      identifier and time where the event has an identifier: only then can a repeat be
      recognised. */
  method MakeEnvelope(item: Item) returns (envelope: Envelope)
    ensures envelope == EnvelopeOf(item) && envelope.kind == NOTIFICATION
    ensures envelope.payload == item.event && envelope.tenant == item.event.org && envelope.correlation == envelope.id
    ensures envelope.id == if item.event.id == "" then item.drawn else item.event.id
    ensures envelope.createdAt
            == if item.event.id == "" || item.event.timestamp.None? then item.now else item.event.timestamp.value
    ensures envelope.causation == item.event.entityId
    ensures envelope.metadata == map["entity_id" := item.event.entityId, "entity_type" := item.event.entityType]
    ensures forall other: Item | other.event == item.event && item.event.id != "" && item.event.timestamp.Some? ::
              EnvelopeOf(other) == envelope
  {
    envelope := NewEnvelope(item);
    if item.event.id != "" {
      envelope := envelope.(id := item.event.id, correlation := item.event.id);
      if item.event.timestamp.Some? {
        envelope := envelope.(createdAt := item.event.timestamp.value);
      }
    }
    envelope := envelope.(causation := item.event.entityId);
    envelope := envelope.(metadata := map["entity_type" := item.event.entityType, "entity_id" := item.event.entityId]);
  }

  /** The loop: count events were taken in without stopping; the bridge stopped on
      the next one, or the stream ended or was cancelled. */
  method BridgeEvents(lib: Library, outbox: PostgresOutbox, queue: string, items: seq<Item>)
    returns (count: nat, ok: bool)
    modifies outbox
    ensures count <= |items| && NeverStops(lib, old(outbox.rows), queue, items[..count])
    ensures outbox.rows == BridgeAll(lib, old(outbox.rows), queue, items[..count])
    ensures ok <==> count == |items|
    ensures !ok ==> BridgeOne(lib, outbox.rows, queue, items[count]).1
  {
    count := 0;
    while count < |items|
      invariant count <= |items| && NeverStops(lib, old(outbox.rows), queue, items[..count])
      invariant outbox.rows == BridgeAll(lib, old(outbox.rows), queue, items[..count])
    {
      var item := items[count];
      BridgeExtend(lib, old(outbox.rows), queue, items, count);
      if !lib.encodes(item.event) {
        count := count + 1;
        continue;
      }
      var envelope := MakeEnvelope(item);
      if !ValidEnvelope(lib, envelope) {
        count := count + 1;
        continue;
      }
      assert Offered(lib, item) == Some(envelope);
      var answer := outbox.Enqueue(lib, queue, envelope, item.fails);
      if !answer.Queued? && !(answer.OutboxConflict? && item.event.id != "") {
        return count, false;
      }
      count := count + 1;
    }
    ok := true;
  }

  lemma BridgeExtend(lib: Library, outbox: Outbox, queue: string, items: seq<Item>, n: nat)
    requires n < |items| && NeverStops(lib, outbox, queue, items[..n])
    ensures var before := BridgeAll(lib, outbox, queue, items[..n]);
            && BridgeAll(lib, outbox, queue, items[..n + 1]) == BridgeOne(lib, before, queue, items[n]).0
            && (NeverStops(lib, outbox, queue, items[..n + 1]) <==> !BridgeOne(lib, before, queue, items[n]).1)
  {
    assert items[..n + 1][..n] == items[..n];
  }

  // --------------------------------------------------------- first snapshot

  /** The first envelope offered for an identifier. */
  function FirstOffer(lib: Library, items: seq<Item>, id: string): Option<Envelope> {
    if items == [] then None
    else
      var earlier := FirstOffer(lib, items[..|items| - 1], id);
      var offer := Offered(lib, items[|items| - 1]);
      if earlier.Some? then earlier else if offer.Some? && offer.value.id == id then offer else None
  }

  /** The outbox maps every identifier to what it held before, or else to the first
      valid snapshot offered for it. */
  lemma {:induction false} FirstSnapshotWins(lib: Library, outbox: Outbox, queue: string, items: seq<Item>, id: string)
    requires NeverStops(lib, outbox, queue, items)
    ensures var after := BridgeAll(lib, outbox, queue, items);
            if id in outbox then id in after && after[id] == outbox[id]
            else match FirstOffer(lib, items, id)
                 case None => id !in after
                 case Some(e) => id in after && after[id] == Row(queue, e)
  {
    if items != [] {
      var init := items[..|items| - 1];
      FirstSnapshotWins(lib, outbox, queue, init, id);
      OneOffer(lib, BridgeAll(lib, outbox, queue, init), queue, items[|items| - 1], id);
    }
  }

  /** An event that does not stop the bridge adds its envelope, unless its
      identifier is already taken. */
  lemma OneOffer(lib: Library, outbox: Outbox, queue: string, item: Item, id: string)
    requires !BridgeOne(lib, outbox, queue, item).1
    ensures var after, offer := BridgeOne(lib, outbox, queue, item).0, Offered(lib, item);
            if id in outbox then id in after && after[id] == outbox[id]
            else if offer.Some? && offer.value.id == id then id in after && after[id] == Row(queue, offer.value)
            else id !in after
  {
  }

  /** A conflict on an event that carries an ID never stops the bridge: it stops
      exactly when an envelope is offered and the outbox fails, or the envelope has
      an identifier or organisation that is not in canonical spelling, or there is a
      clash of a drawn identifier. */
  lemma StopsOnlyOnFailure(lib: Library, outbox: Outbox, queue: string, item: Item)
    ensures BridgeOne(lib, outbox, queue, item).1 <==>
            && Offered(lib, item).Some?
            && (item.fails || !Storable(lib, EnvelopeOf(item))
                || (item.event.id == "" && item.drawn in outbox && outbox[item.drawn] != Row(queue, EnvelopeOf(item))))
  {
  }

  /** In terms of the event: one that carries an ID stops a working outbox exactly
      when it is offered and its ID or its organisation is spelt otherwise. */
  lemma SpellingStopsExactly(lib: Library, outbox: Outbox, queue: string, item: Item)
    requires item.event.id != "" && !item.fails
    ensures BridgeOne(lib, outbox, queue, item).1 <==>
            && Offered(lib, item).Some?
            && (lib.canonical(item.event.id) != item.event.id
                || (item.event.org != "" && lib.canonical(item.event.org) != item.event.org))
  {
  }

  // ------------------------------------------------------------------ replay

  /** Repeats of events with an ID that the first pass took in, in any order and
      number, with whatever identifiers and times are drawn for them this time. */
  ghost predicate Repeats(first: seq<Item>, again: seq<Item>) {
    forall k | 0 <= k < |again| ::
      again[k].event.id != "" && !again[k].fails && exists j | 0 <= j < |first| :: first[j].event == again[k].event
  }

  /** Whether an event with an ID is offered, and could be stored, does not depend on
      what is drawn. */
  lemma OfferIsDeterministic(lib: Library, a: Item, b: Item)
    requires a.event == b.event && a.event.id != ""
    ensures Offered(lib, a).Some? <==> Offered(lib, b).Some?
    ensures Offered(lib, a).Some? ==>
            && Offered(lib, a).value.id == Offered(lib, b).value.id == a.event.id
            && (Storable(lib, Offered(lib, a).value) <==> Storable(lib, Offered(lib, b).value))
  {
    assert EnvelopeOf(a) == EnvelopeOf(b).(createdAt := EnvelopeOf(a).createdAt);
  }

  lemma {:induction false} OfferedIsFirstOffered(lib: Library, items: seq<Item>, j: nat)
    requires j < |items| && Offered(lib, items[j]).Some?
    ensures FirstOffer(lib, items, Offered(lib, items[j]).value.id).Some?
  {
    if j < |items| - 1 {
      OfferedIsFirstOffered(lib, items[..|items| - 1], j);
    }
  }

  lemma LastDoesNotStop(lib: Library, outbox: Outbox, queue: string, items: seq<Item>)
    requires items != [] && NeverStops(lib, outbox, queue, items)
    ensures NeverStops(lib, outbox, queue, items[..|items| - 1])
    ensures Offered(lib, items[|items| - 1]).Some? ==> Storable(lib, Offered(lib, items[|items| - 1]).value)
  {
  }

  /** Whatever the bridge took in and offered, the outbox could store. */
  lemma {:induction false} TakenIsStorable(lib: Library, outbox: Outbox, queue: string, items: seq<Item>, j: nat)
    requires NeverStops(lib, outbox, queue, items) && j < |items| && Offered(lib, items[j]).Some?
    ensures Storable(lib, Offered(lib, items[j]).value)
    decreases |items|
  {
    LastDoesNotStop(lib, outbox, queue, items);
    if j < |items| - 1 {
      var init := items[..|items| - 1];
      assert init[j] == items[j];
      TakenIsStorable(lib, outbox, queue, init, j);
    }
  }

  /** An envelope whose identifier has a row is queued again if the row is its own,
      and otherwise leaves the bridge running if the event carries an ID. */
  lemma KnownChangesNothing(lib: Library, outbox: Outbox, queue: string, item: Item)
    requires !item.fails && item.event.id != ""
    requires Offered(lib, item).Some? ==> Storable(lib, Offered(lib, item).value) && item.event.id in outbox
    ensures BridgeOne(lib, outbox, queue, item) == (outbox, false)
  {
  }

  /** Replaying any events with IDs changes nothing and never stops the bridge. */
  lemma {:induction false} ReplayChangesNothing(lib: Library, outbox: Outbox, queue: string, first: seq<Item>,
      again: seq<Item>)
    requires NeverStops(lib, outbox, queue, first) && Repeats(first, again)
    ensures var after := BridgeAll(lib, outbox, queue, first);
            BridgeAll(lib, after, queue, again) == after && NeverStops(lib, after, queue, again)
    decreases |again|
  {
    var after := BridgeAll(lib, outbox, queue, first);
    if again != [] {
      var n := |again| - 1;
      ReplayChangesNothing(lib, outbox, queue, first, again[..n]);
      ReplayOne(lib, outbox, queue, first, again[n]);
    }
  }

  lemma ReplayOne(lib: Library, outbox: Outbox, queue: string, first: seq<Item>, item: Item)
    requires NeverStops(lib, outbox, queue, first) && Repeats(first, [item])
    ensures var after := BridgeAll(lib, outbox, queue, first);
            BridgeOne(lib, after, queue, item) == (after, false)
  {
    assert [item][0] == item;
    var j :| 0 <= j < |first| && first[j].event == item.event;
    OfferIsDeterministic(lib, first[j], item);
    if Offered(lib, item).Some? {
      OfferedIsFirstOffered(lib, first, j);
      TakenIsStorable(lib, outbox, queue, first, j);
      FirstSnapshotWins(lib, outbox, queue, first, item.event.id);
    }
    KnownChangesNothing(lib, BridgeAll(lib, outbox, queue, first), queue, item);
  }

  // ---------------------------------------------------------------- consumer

  datatype Refusal = WrongTenant | NoType | WrongId

  /** The notification.event handler up to ProcessEvent: the event it processes. */
  function Consume(e: Envelope): Result<Event, Refusal> {
    var event := e.payload;
    if e.tenant == "" || event.org != e.tenant then Failure(WrongTenant)
    else if TrimSpace(event.kind) == "" then Failure(NoType)
    else if event.id != "" && event.id != e.id then Failure(WrongId)
    else Success(event.(id := e.id))
  }

  /** Any envelope is accepted exactly if it has a tenant, that of its event, its event has
      a type that is not blank, and the event has the envelope's ID or none; the event
      processed is the payload under the envelope's ID. A refusal names the tenant before
      the type and the type before the ID. */
  lemma ConsumedExactly(e: Envelope)
    ensures var r, event := Consume(e), e.payload;
            var ours, typed, same := event.org == e.tenant != "", !AllSpace(event.kind), event.id in {"", e.id};
            && (r.Success? <==> ours && typed && same)
            && (r.Success? ==> r.value.id == e.id && r.value.(id := event.id) == event)
            && (r == Failure(WrongTenant) <==> !ours)
            && (r == Failure(NoType) <==> ours && !typed)
            && (r == Failure(WrongId) <==> ours && typed && !same)
  {
    TrimmedAway(e.payload.kind);
  }

  /** The consumer accepts an envelope of the bridge exactly when its event has an
      organisation and a type, and then processes that event under the envelope's ID. */
  lemma BridgedIsConsumedExactly(item: Item)
    ensures var e := EnvelopeOf(item);
            if item.event.org != "" && TrimSpace(item.event.kind) != ""
            then Consume(e) == Success(item.event.(id := if item.event.id == "" then item.drawn else item.event.id))
            else Consume(e) == Failure(if item.event.org == "" then WrongTenant else NoType)
  {
  }
}
