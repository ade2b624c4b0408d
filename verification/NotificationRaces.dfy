/** The notification endpoints with their checks and their writes apart: any number
    of requests, interleaved in any way. */
module NotificationRaces {
  import opened Wrappers
  import opened NotificationConfig

  /** A request whose checks have passed and whose statement is still to come: what a
      rule's validation left, and what has been written since: the channels deleted,
      and the rules created or updated. */
  datatype Pending = Pending(
    org: string,
    q: Request,
    channels: seq<string>,
    template: Option<string>,
    deleted: set<string>,
    written: set<string>)

  /** retired are the identifiers of deleted templates, which are never drawn again. */
  datatype World = World(config: Config, pending: map<nat, Pending>, retired: set<string>)

  datatype Event = Check(client: nat, org: string, q: Request) | Write(client: nat)

  predicate IsRuleRequest(q: Request) {
    q.CreateRule? || q.UpdateRule?
  }

  predicate Passes(parse: Parser, c: Config, org: string, q: Request) {
    match q
    case CreateRule(_, input) => Validated(parse, c, org, input).Some?
    case UpdateRule(_, input) => Validated(parse, c, org, input).Some?
    case DeleteChannel(id) => !ChannelUsed(c, org, id)
    case CreateTemplate(_, event, name) => !NameTaken(c, org, event, name, None)
    case UpdateTemplate(id, event, name) => !NameTaken(c, org, event, name, Some(id))
    case DeleteTemplate(id) => !TemplateUsed(c, org, id)
    case _ => true
  }

  function Checked(parse: Parser, c: Config, org: string, q: Request): Pending
    requires Passes(parse, c, org, q)
  {
    if IsRuleRequest(q) then
      var (ids, template) := Validated(parse, c, org, q.input).value;
      Pending(org, q, ids, template, {}, {})
    else Pending(org, q, [], None, {}, {})
  }

  // -------------------------------------------------------------- statements

  /** The row that a rule's statement writes, unless it finds none to write. */
  function RowOf(c: Config, p: Pending): Option<Rule>
    requires IsRuleRequest(p.q)
  {
    var id, active := p.q.id, p.q.input.active;
    if p.template.Some? && p.template.value !in c.templates then None  // the foreign key
    else if p.q.CreateRule? then
      if id in c.rules then None else Some(Rule(p.org, active.GetOr(true), p.channels, p.template))
    else if id !in c.rules || c.rules[id].org != p.org then None
    else Some(Rule(p.org, active.GetOr(c.rules[id].active), p.channels, p.template))
  }

  /** A template's statement; the table's key and its uniqueness constraint hold. */
  function WriteTemplate(c: Config, retired: set<string>, org: string, q: Request): Config
    requires q.CreateTemplate? || q.UpdateTemplate? || q.DeleteTemplate?
  {
    match q
    case CreateTemplate(id, _, _) => if id in retired then c else ApplyTemplate(c, org, q).0
    case UpdateTemplate(_, _, _) => ApplyTemplate(c, org, q).0
    case DeleteTemplate(id) => if OwnTemplate(c, org, id) then WithoutTemplate(c, id) else c
  }

  /** What the one statement of a request does, whatever was checked before. */
  function Statement(parse: Parser, w: World, p: Pending): Config {
    match p.q
    case CreateTemplate(_, _, _) => WriteTemplate(w.config, w.retired, p.org, p.q)
    case UpdateTemplate(_, _, _) => WriteTemplate(w.config, w.retired, p.org, p.q)
    case DeleteTemplate(_) => WriteTemplate(w.config, w.retired, p.org, p.q)
    case DeleteChannel(id) => LateChannelDelete(w.config, p.org, id).0
    case CreateRule(id, _) => WriteRow(w.config, p)
    case UpdateRule(id, _) => WriteRow(w.config, p)
    case _ => Apply(parse, w.config, p.org, p.q).0
  }

  function WriteRow(c: Config, p: Pending): Config
    requires IsRuleRequest(p.q)
  {
    match RowOf(c, p)
    case None => c
    case Some(rule) => WriteRule(c, p.q.id, rule)
  }

  function DeletedBy(c: Config, p: Pending): set<string> {
    if p.q.DeleteChannel? && OwnChannel(c, p.org, p.q.id) then {p.q.id} else {}
  }

  function WrittenBy(c: Config, p: Pending): set<string> {
    if IsRuleRequest(p.q) && RowOf(c, p).Some? then {p.q.id} else {}
  }

  function Noting(p: Pending, deleted: set<string>, written: set<string>): Pending {
    p.(deleted := p.deleted + deleted, written := p.written + written)
  }

  function Step(parse: Parser, w: World, e: Event): Option<World> {
    match e
    case Check(client, org, q) =>
      if client in w.pending then None
      else if !Passes(parse, w.config, org, q) then Some(w)
      else Some(w.(pending := w.pending[client := Checked(parse, w.config, org, q)]))
    case Write(client) =>
      if client !in w.pending then None
      else
        var p := w.pending[client];
        var after := Statement(parse, w, p);
        var deleted, written := DeletedBy(w.config, p), WrittenBy(w.config, p);
        Some(World(
          after,
          map k | k in w.pending && k != client :: Noting(w.pending[k], deleted, written),
          w.retired + (w.config.templates.Keys - after.templates.Keys)))
  }

  /** The check and the statement, one directly after the other, are the request. */
  lemma HalvesMakeTheRequest(parse: Parser, w: World, client: nat, org: string, q: Request)
    requires client !in w.pending && (q.CreateTemplate? ==> q.id !in w.retired)
    ensures var checked := Step(parse, w, Check(client, org, q));
            var after := Apply(parse, w.config, org, q).0;
            && checked.Some?
            && if !Passes(parse, w.config, org, q) then checked.value == w && after == w.config
               else Step(parse, checked.value, Write(client)).Some?
                    && Step(parse, checked.value, Write(client)).value.config == after
  {
  }

  // -------------------------------------------------------------------- races

  /** The write of an active rule that lists a channel whose deletion was written
      since the rule's check, or the write of the deletion of a channel that an
      active rule, written since the deletion's check, still lists. */
  ghost predicate Races(w: World, e: Event) {
    e.Write? && e.client in w.pending &&
    (var p, c := w.pending[e.client], w.config;
     if IsRuleRequest(p.q) then
       RowOf(c, p).Some? && RowOf(c, p).value.active && exists k | 0 <= k < |p.channels| :: p.channels[k] in p.deleted
     else
       p.q.DeleteChannel? && OwnChannel(c, p.org, p.q.id) && exists r | r in p.written :: Listing(c, r, p.org, p.q.id))
  }

  predicate Listing(c: Config, r: string, org: string, id: string) {
    r in c.rules && c.rules[r].org == org && c.rules[r].active && id in c.rules[r].channels
  }

  ghost predicate EverRaces(parse: Parser, w: World, events: seq<Event>)
    decreases |events|
  {
    events != [] &&
    (Races(w, events[0]) ||
     match Step(parse, w, events[0])
     case Some(next) => EverRaces(parse, next, events[1..])
     case None => false)
  }

  /** The references are intact after every one of the events. */
  ghost predicate AlwaysIntact(parse: Parser, w: World, events: seq<Event>)
    decreases |events|
  {
    Inv(w.config) &&
    (events == [] ||
     match Step(parse, w, events[0])
     case Some(next) => AlwaysIntact(parse, next, events[1..])
     case None => true)
  }

  // ---------------------------------------------------------------- invariant

  /** What a pending rule lists belongs to its organisation, and is deleted exactly if
      that was written since its check; its template is still its own or retired. */
  ghost predicate RulePendingOk(w: World, p: Pending) {
    && (forall k | 0 <= k < |p.channels| ::
          var id := p.channels[k];
          && id in w.config.channels && w.config.channels[id].org == p.org
          && (w.config.channels[id].deleted <==> id in p.deleted))
    && (p.template.Some? ==>
          if p.template.value in w.config.templates then TemplateVisible(w.config, p.org, p.template.value)
          else p.template.value in w.retired)
  }

  /** An active rule that lists a channel about to be deleted was written since. */
  ghost predicate DeletionPendingOk(w: World, p: Pending)
    requires p.q.DeleteChannel?
  {
    forall r | r in w.config.rules && Listing(w.config, r, p.org, p.q.id) :: r in p.written
  }

  ghost predicate PendingOk(w: World, p: Pending) {
    (IsRuleRequest(p.q) ==> RulePendingOk(w, p)) && (p.q.DeleteChannel? ==> DeletionPendingOk(w, p))
  }

  ghost predicate WorldInv(w: World) {
    && Inv(w.config)
    && w.retired !! w.config.templates.Keys
    && forall k | k in w.pending :: PendingOk(w, w.pending[k])
  }

  // ------------------------------------------------------------------- proofs

  lemma RowKeepsExactly(w: World, p: Pending)
    requires WorldInv(w) && IsRuleRequest(p.q) && RulePendingOk(w, p)
    ensures Inv(WriteRow(w.config, p)) <==>
            !(RowOf(w.config, p).Some? && RowOf(w.config, p).value.active
              && exists k | 0 <= k < |p.channels| :: p.channels[k] in p.deleted)
  {
    if RowOf(w.config, p).Some? {
      var rule := RowOf(w.config, p).value;
      WriteKeepsInvExactly(w.config, p.q.id, rule);
      assert rule.channels == p.channels && rule.template == p.template && rule.org == p.org;
      assert ChannelsOk(w.config, rule) <==> forall k | 0 <= k < |p.channels| :: p.channels[k] !in p.deleted;
    }
  }

  lemma DeletionKeepsExactly(w: World, p: Pending)
    requires WorldInv(w) && p.q.DeleteChannel? && DeletionPendingOk(w, p)
    ensures Inv(LateChannelDelete(w.config, p.org, p.q.id).0) <==>
            !(OwnChannel(w.config, p.org, p.q.id) && exists r | r in p.written :: Listing(w.config, r, p.org, p.q.id))
  {
    LateChannelDeleteExactly(w.config, p.org, p.q.id);
    assert ChannelUsed(w.config, p.org, p.q.id) <==>
           exists r | r in w.config.rules :: Listing(w.config, r, p.org, p.q.id);
  }

  lemma TemplateKeeps(c: Config, retired: set<string>, org: string, q: Request)
    requires Inv(c) && (q.CreateTemplate? || q.UpdateTemplate? || q.DeleteTemplate?)
    ensures Inv(WriteTemplate(c, retired, org, q))
  {
    if q.DeleteTemplate? {
      LateTemplateDeleteIsSafe(c, q.id);
    } else {
      TemplateKeepsInv(c, org, q);
    }
  }

  /** One event leaves the references intact exactly if it does not race. */
  lemma EventKeepsExactly(parse: Parser, w: World, e: Event)
    requires WorldInv(w) && Step(parse, w, e).Some?
    ensures Inv(Step(parse, w, e).value.config) <==> !Races(w, e)
  {
    if e.Write? {
      var p := w.pending[e.client];
      assert PendingOk(w, p);
      match p.q
      case CreateRule(_, _) => RowKeepsExactly(w, p);
      case UpdateRule(_, _) => RowKeepsExactly(w, p);
      case DeleteChannel(_) => DeletionKeepsExactly(w, p);
      case CreateTemplate(_, _, _) => TemplateKeeps(w.config, w.retired, p.org, p.q);
      case UpdateTemplate(_, _, _) => TemplateKeeps(w.config, w.retired, p.org, p.q);
      case DeleteTemplate(_) => TemplateKeeps(w.config, w.retired, p.org, p.q);
      case _ => ApplyKeepsInv(parse, w.config, p.org, p.q);
    }
  }

  lemma CheckedIsOk(parse: Parser, w: World, org: string, q: Request)
    requires WorldInv(w) && Passes(parse, w.config, org, q)
    ensures PendingOk(w, Checked(parse, w.config, org, q))
  {
  }

  /** What a statement does to channels, templates and rules that others wait on. */
  ghost predicate ChannelsFollow(c: Config, after: Config, deleted: set<string>) {
    forall id | id in c.channels ::
      && id in after.channels && after.channels[id].org == c.channels[id].org
      && (after.channels[id].deleted <==> c.channels[id].deleted || id in deleted)
  }

  ghost predicate TemplatesFollow(c: Config, after: Config, retired: set<string>) {
    forall t | t in after.templates ::
      t !in retired && (t in c.templates ==> after.templates[t].org == c.templates[t].org)
  }

  ghost predicate RulesFollow(c: Config, after: Config, written: set<string>) {
    forall r | r in after.rules && r !in written ::
      && r in c.rules && after.rules[r].org == c.rules[r].org
      && after.rules[r].channels == c.rules[r].channels
      && (after.rules[r].active ==> c.rules[r].active)
  }

  ghost predicate Follows(w: World, p: Pending, after: Config) {
    && ChannelsFollow(w.config, after, DeletedBy(w.config, p))
    && TemplatesFollow(w.config, after, w.retired)
    && RulesFollow(w.config, after, WrittenBy(w.config, p))
  }

  lemma NewTemplateFollows(w: World, p: Pending)
    requires WorldInv(w) && p.q.CreateTemplate?
    ensures Follows(w, p, WriteTemplate(w.config, w.retired, p.org, p.q))
  {
  }

  lemma RenamingFollows(w: World, p: Pending)
    requires WorldInv(w) && p.q.UpdateTemplate?
    ensures Follows(w, p, WriteTemplate(w.config, w.retired, p.org, p.q))
  {
  }

  lemma TemplateDeletionFollows(w: World, p: Pending)
    requires WorldInv(w) && p.q.DeleteTemplate?
    ensures Follows(w, p, WriteTemplate(w.config, w.retired, p.org, p.q))
  {
  }

  lemma RowFollows(w: World, p: Pending)
    requires WorldInv(w) && IsRuleRequest(p.q)
    ensures Follows(w, p, WriteRow(w.config, p))
  {
  }

  lemma ChannelFollows(w: World, p: Pending)
    requires WorldInv(w) && (p.q.CreateChannel? || p.q.UpdateChannel?)
    ensures Follows(w, p, ApplyChannel(w.config, p.org, p.q).0)
  {
  }

  lemma DeletionFollows(w: World, p: Pending)
    requires WorldInv(w) && p.q.DeleteChannel?
    ensures Follows(w, p, LateChannelDelete(w.config, p.org, p.q.id).0)
  {
  }

  lemma StatementFollows(parse: Parser, w: World, p: Pending)
    requires WorldInv(w)
    ensures Follows(w, p, Statement(parse, w, p))
  {
    match p.q
    case CreateChannel(_, _) => ChannelFollows(w, p);
    case UpdateChannel(_, _) => ChannelFollows(w, p);
    case DeleteChannel(_) => DeletionFollows(w, p);
    case CreateTemplate(_, _, _) => NewTemplateFollows(w, p);
    case UpdateTemplate(_, _, _) => RenamingFollows(w, p);
    case DeleteTemplate(_) => TemplateDeletionFollows(w, p);
    case CreateRule(_, _) => RowFollows(w, p);
    case UpdateRule(_, _) => RowFollows(w, p);
    case DeleteRule(_) =>
  }

  lemma OthersStayOk(parse: Parser, w: World, p: Pending, other: Pending)
    requires WorldInv(w) && PendingOk(w, other)
    ensures var after := Statement(parse, w, p);
            var v := World(after, map[], w.retired + (w.config.templates.Keys - after.templates.Keys));
            PendingOk(v, Noting(other, DeletedBy(w.config, p), WrittenBy(w.config, p)))
  {
    StatementFollows(parse, w, p);
  }

  lemma EventKeepsWorld(parse: Parser, w: World, e: Event)
    requires WorldInv(w) && Step(parse, w, e).Some? && !Races(w, e)
    ensures WorldInv(Step(parse, w, e).value)
  {
    var v := Step(parse, w, e).value;
    EventKeepsExactly(parse, w, e);
    match e
    case Check(client, org, q) =>
      if Passes(parse, w.config, org, q) {
        CheckedIsOk(parse, w, org, q);
      }
      forall k | k in v.pending ensures PendingOk(v, v.pending[k]) {
        assert k in w.pending ==> PendingOk(w, w.pending[k]);
      }
    case Write(client) =>
      var p := w.pending[client];
      StatementFollows(parse, w, p);
      forall k | k in v.pending ensures PendingOk(v, v.pending[k]) {
        OthersStayOk(parse, w, p, w.pending[k]);
      }
  }

  /** Over every interleaving of checks and writes of any requests of any
      organisations, the references stay intact throughout exactly if no write of an
      active rule races with the deletion of a channel it lists. */
  lemma {:induction false} InterleavingsExactly(parse: Parser, w: World, events: seq<Event>)
    requires WorldInv(w)
    ensures AlwaysIntact(parse, w, events) <==> !EverRaces(parse, w, events)
    decreases |events|
  {
    if events != [] && Step(parse, w, events[0]).Some? {
      var next := Step(parse, w, events[0]).value;
      EventKeepsExactly(parse, w, events[0]);
      if !Races(w, events[0]) {
        EventKeepsWorld(parse, w, events[0]);
        InterleavingsExactly(parse, next, events[1..]);
      }
    }
  }

  /** In particular from any intact tables on which nothing is pending. */
  lemma RacesExactly(parse: Parser, c: Config, events: seq<Event>)
    requires Inv(c)
    ensures AlwaysIntact(parse, World(c, map[], {}), events) <==> !EverRaces(parse, World(c, map[], {}), events)
  {
    InterleavingsExactly(parse, World(c, map[], {}), events);
  }

  /** A write straight after its check never races. */
  lemma AtomicNeverRaces(parse: Parser, w: World, client: nat, org: string, q: Request)
    requires WorldInv(w) && Step(parse, w, Check(client, org, q)).Some?
    ensures !Races(Step(parse, w, Check(client, org, q)).value, Write(client))
  {
  }
}
