/** Notification rules, channels and templates of all organisations, and the
    endpoints that change them. */
module NotificationConfig {
  import opened Wrappers
  import opened Sequences
  import opened Text

  /** uuid.Parse followed by String: the canonical form, or None. */
  type Parser = string -> Option<string>

  datatype Channel = Channel(org: string, active: bool, deleted: bool)

  datatype Template = Template(org: Option<string>, event: string, name: string, system: bool)

  datatype Rule = Rule(org: string, active: bool, channels: seq<string>, template: Option<string>)

  /** The three tables, each keyed by its primary key. */
  datatype Config = Config(channels: map<string, Channel>, templates: map<string, Template>, rules: map<string, Rule>)

  /** A decoded rule body; restValid says that its checks unrelated to channels and
      templates pass. */
  datatype RuleInput = RuleInput(channels: seq<string>, template: Option<string>, active: Option<bool>, restValid: bool)

  datatype Status = Created | Updated | Deleted | BadRequest | NotFound | Conflict | InternalError

  // ------------------------------------------------------------- identifiers

  function Canonical(parse: Parser, value: string): string {
    parse(TrimSpace(value)).GetOr("")
  }

  function Canonicals(parse: Parser, values: seq<string>): (ids: seq<string>)
    ensures |ids| == |values|
    ensures forall k | 0 <= k < |values| :: ids[k] == Canonical(parse, values[k])
  {
    seq(|values|, k requires 0 <= k < |values| => Canonical(parse, values[k]))
  }

  predicate AllParse(parse: Parser, values: seq<string>) {
    forall k | 0 <= k < |values| :: parse(TrimSpace(values[k])).Some?
  }

  /** The canonical identifiers, in order, exactly when there are not too many, all
      parse and no two are the same identifier. */
  method UniqueUUIDs(parse: Parser, values: seq<string>, maximum: nat) returns (r: Option<seq<string>>)
    ensures r.Some? <==> |values| <= maximum && AllParse(parse, values) && Distinct(Canonicals(parse, values))
    ensures r.Some? ==> r.value == Canonicals(parse, values)
  {
    if |values| > maximum {
      return None;
    }
    ghost var ids := Canonicals(parse, values);
    var result: seq<string> := [];
    var seen: set<string> := {};
    for k := 0 to |values|
      invariant Collected(parse, values, k, result, seen)
    {
      var parsed := parse(TrimSpace(values[k]));
      if parsed.None? {
        return None;
      }
      var canonical := parsed.value;
      assert canonical == ids[k];
      if canonical in seen {
        RepeatNotDistinct(ids, k);
        return None;
      }
      CollectOne(parse, values, k, result, seen);
      seen := seen + {canonical};
      result := result + [canonical];
    }
    assert values[..|values|] == values && ids[..|values|] == ids;
    r := Some(result);
  }

  /** The first k values have been taken in. */
  ghost predicate Collected(parse: Parser, values: seq<string>, k: nat, result: seq<string>, seen: set<string>) {
    && k <= |values|
    && result == Canonicals(parse, values)[..k] && seen == ToSet(result)
    && AllParse(parse, values[..k]) && Distinct(result)
  }

  lemma CollectOne(parse: Parser, values: seq<string>, k: nat, result: seq<string>, seen: set<string>)
    requires Collected(parse, values, k, result, seen) && k < |values|
    requires parse(TrimSpace(values[k])).Some? && Canonical(parse, values[k]) !in seen
    ensures var id := Canonical(parse, values[k]);
            Collected(parse, values, k + 1, result + [id], seen + {id})
  {
    var ids, id := Canonicals(parse, values), Canonical(parse, values[k]);
    ToSetAppend(result, id);
    assert ids[..k + 1] == result + [id];
    assert values[..k + 1] == values[..k] + [values[k]];
  }

  lemma RepeatNotDistinct(ids: seq<string>, k: nat)
    requires k < |ids| && ids[k] in ToSet(ids[..k])
    ensures !Distinct(ids)
  {
  }

  // --------------------------------------------------------------- validation

  predicate Available(c: Config, org: string, id: string) {
    id in c.channels && c.channels[id].org == org && c.channels[id].active && !c.channels[id].deleted
  }

  /** SELECT COUNT(*) of the listed channels that are available. */
  function CountAvailable(c: Config, org: string, ids: seq<string>): nat {
    |set id | id in ids && Available(c, org, id)|
  }

  /** For distinct identifiers the count equals the length exactly when every one of
      them is available. */
  lemma CountIsTotalExactly(c: Config, org: string, ids: seq<string>)
    requires Distinct(ids)
    ensures CountAvailable(c, org, ids) == |ids| <==> forall k | 0 <= k < |ids| :: Available(c, org, ids[k])
  {
    var found := set id | id in ids && Available(c, org, id);
    DistinctSize(ids);
    SubsetOfSameSize(found, ToSet(ids));
    if found == ToSet(ids) {
      forall k | 0 <= k < |ids| ensures Available(c, org, ids[k]) {
        assert ids[k] in found;
      }
    }
  }

  predicate TemplateVisible(c: Config, org: string, id: string) {
    id in c.templates && (c.templates[id].org.None? || c.templates[id].org == Some(org))
  }

  const MAX_CHANNELS := 20

  /** What validation leaves in the rule: canonical channels, and a template or none. */
  function Validated(parse: Parser, c: Config, org: string, input: RuleInput): Option<(seq<string>, Option<string>)> {
    var ids := Canonicals(parse, input.channels);
    if !input.restValid || |ids| > MAX_CHANNELS || !AllParse(parse, input.channels) || !Distinct(ids) || ids == []
       || !(forall k | 0 <= k < |ids| :: Available(c, org, ids[k])) then None
    else if input.template.None? || TrimSpace(input.template.value) == "" then Some((ids, None))
    else
      var id := parse(TrimSpace(input.template.value));
      if id.None? || !TemplateVisible(c, org, id.value) then None else Some((ids, id))
  }

  /** The channels and the template are the ones the body asks for: every channel, in
      order, as its trimmed text parses, and a template exactly if its text is not
      blank, as that parses. */
  ghost predicate Asked(parse: Parser, input: RuleInput, ids: seq<string>, template: Option<string>) {
    && |ids| == |input.channels|
    && (forall k | 0 <= k < |ids| :: parse(TrimSpace(input.channels[k])) == Some(ids[k]))
    && if input.template.None? || TrimSpace(input.template.value) == "" then template.None?
       else template.Some? && parse(TrimSpace(input.template.value)) == template
  }

  /** An organisation may use them: from 1 to 20 distinct channels, each its own, active
      and undeleted, and a template of its own or of the system. */
  ghost predicate Usable(c: Config, org: string, ids: seq<string>, template: Option<string>) {
    && 1 <= |ids| <= 20 && Distinct(ids)
    && (forall k | 0 <= k < |ids| ::
          && ids[k] in c.channels && c.channels[ids[k]].org == org
          && c.channels[ids[k]].active && !c.channels[ids[k]].deleted)
    && (template.Some? ==>
          && template.value in c.templates
          && (c.templates[template.value].org.None? || c.templates[template.value].org.value == org))
  }

  /** What the body asks for may be used, and the rest of it is in order. */
  ghost predicate Acceptable(parse: Parser, c: Config, org: string, input: RuleInput) {
    input.restValid && exists ids, template :: Asked(parse, input, ids, template) && Usable(c, org, ids, template)
  }

  /** Validation leaves exactly what is asked for, exactly if it may be used. */
  lemma ValidatedExactly(parse: Parser, c: Config, org: string, input: RuleInput)
    ensures var r := Validated(parse, c, org, input);
            && (r.Some? ==> Asked(parse, input, r.value.0, r.value.1) && Usable(c, org, r.value.0, r.value.1))
            && (r.Some? <==> Acceptable(parse, c, org, input))
  {
    if ids, template :| Asked(parse, input, ids, template) && Usable(c, org, ids, template) {
      assert ids == Canonicals(parse, input.channels);
    }
  }

  method ValidateRuleInput(parse: Parser, c: Config, org: string, input: RuleInput)
    returns (r: Option<(seq<string>, Option<string>)>)
    ensures r == Validated(parse, c, org, input)
    ensures r.Some? ==> Asked(parse, input, r.value.0, r.value.1) && Usable(c, org, r.value.0, r.value.1)
    ensures r.Some? <==> Acceptable(parse, c, org, input)
  {
    ValidatedExactly(parse, c, org, input);
    var ids := UniqueUUIDs(parse, input.channels, MAX_CHANNELS);
    if ids.None? || ids.value == [] || !input.restValid {
      return None;
    }
    CountIsTotalExactly(c, org, ids.value);
    var channelCount := CountAvailable(c, org, ids.value);
    if channelCount != |ids.value| {
      return None;
    }
    if input.template.Some? {
      var trimmed := TrimSpace(input.template.value);
      if trimmed != "" {
        var id := parse(trimmed);
        if id.None? || !TemplateVisible(c, org, id.value) {
          return None;
        }
        return Some((ids.value, id));
      }
    }
    r := Some((ids.value, None));
  }

  // ---------------------------------------------------------------- requests

  datatype Request =
    | CreateChannel(id: string, active: Option<bool>)
    | UpdateChannel(id: string, active: Option<bool>)
    | DeleteChannel(id: string)
    | CreateTemplate(id: string, event: string, name: string)
    | UpdateTemplate(id: string, event: string, name: string)
    | DeleteTemplate(id: string)
    | CreateRule(id: string, input: RuleInput)
    | UpdateRule(id: string, input: RuleInput)
    | DeleteRule(id: string)

  predicate ChannelUsed(c: Config, org: string, id: string) {
    exists r | r in c.rules :: c.rules[r].org == org && c.rules[r].active && id in c.rules[r].channels
  }

  predicate TemplateUsed(c: Config, org: string, id: string) {
    exists r | r in c.rules :: c.rules[r].org == org && c.rules[r].active && c.rules[r].template == Some(id)
  }

  /** Another template of the organisation already has this event type and name. */
  predicate NameTaken(c: Config, org: string, event: string, name: string, except: Option<string>) {
    exists t | t in c.templates && Some(t) != except ::
      c.templates[t].org == Some(org) && c.templates[t].event == event && c.templates[t].name == name
  }

  /** DELETE of a template row; the foreign key clears every reference to it. */
  function WithoutTemplate(c: Config, id: string): Config {
    c.(templates := c.templates - {id},
       rules := map r | r in c.rules ::
         if c.rules[r].template == Some(id) then c.rules[r].(template := None) else c.rules[r])
  }

  function OwnChannel(c: Config, org: string, id: string): bool {
    id in c.channels && c.channels[id].org == org && !c.channels[id].deleted
  }

  function OwnTemplate(c: Config, org: string, id: string): bool {
    id in c.templates && c.templates[id].org == Some(org) && !c.templates[id].system
  }

  function ApplyChannel(c: Config, org: string, q: Request): (Config, Status)
    requires q.CreateChannel? || q.UpdateChannel? || q.DeleteChannel?
  {
    match q
    case CreateChannel(id, active) =>
      if id in c.channels then (c, InternalError)
      else (c.(channels := c.channels[id := Channel(org, active.GetOr(true), false)]), Created)
    case UpdateChannel(id, active) =>
      if !OwnChannel(c, org, id) then (c, NotFound)
      else (c.(channels := c.channels[id := c.channels[id].(active := active.GetOr(true))]), Updated)
    case DeleteChannel(id) =>
      if ChannelUsed(c, org, id) then (c, Conflict)
      else if !OwnChannel(c, org, id) then (c, NotFound)
      else (c.(channels := c.channels[id := Channel(org, false, true)]), Deleted)
  }

  function ApplyTemplate(c: Config, org: string, q: Request): (Config, Status)
    requires q.CreateTemplate? || q.UpdateTemplate? || q.DeleteTemplate?
  {
    match q
    case CreateTemplate(id, event, name) =>
      if NameTaken(c, org, event, name, None) then (c, Conflict)
      else if id in c.templates then (c, InternalError)
      else (c.(templates := c.templates[id := Template(Some(org), event, name, false)]), Created)
    case UpdateTemplate(id, event, name) =>
      if NameTaken(c, org, event, name, Some(id)) then (c, Conflict)
      else if !OwnTemplate(c, org, id) then (c, NotFound)
      else (c.(templates := c.templates[id := c.templates[id].(event := event, name := name)]), Updated)
    case DeleteTemplate(id) =>
      if TemplateUsed(c, org, id) then (c, Conflict)
      else if !OwnTemplate(c, org, id) then (c, NotFound)
      else (WithoutTemplate(c, id), Deleted)
  }

  function ApplyRule(parse: Parser, c: Config, org: string, q: Request): (Config, Status)
    requires q.CreateRule? || q.UpdateRule? || q.DeleteRule?
  {
    match q
    case CreateRule(id, input) =>
      (match Validated(parse, c, org, input)
       case None => (c, BadRequest)
       case Some((ids, template)) =>
         if id in c.rules then (c, InternalError)
         else (c.(rules := c.rules[id := Rule(org, input.active.GetOr(true), ids, template)]), Created))
    case UpdateRule(id, input) =>
      (match Validated(parse, c, org, input)
       case None => (c, BadRequest)
       case Some((ids, template)) =>
         if id !in c.rules || c.rules[id].org != org then (c, NotFound)
         else (c.(rules := c.rules[id := Rule(org, input.active.GetOr(c.rules[id].active), ids, template)]), Updated))
    case DeleteRule(id) =>
      if id !in c.rules || c.rules[id].org != org then (c, NotFound)
      else (c.(rules := c.rules[id := c.rules[id].(active := false)]), Deleted)
  }

  /** One request of one organisation, its checks and its write taken as one step. */
  function Apply(parse: Parser, c: Config, org: string, q: Request): (Config, Status) {
    if q.CreateChannel? || q.UpdateChannel? || q.DeleteChannel? then ApplyChannel(c, org, q)
    else if q.CreateTemplate? || q.UpdateTemplate? || q.DeleteTemplate? then ApplyTemplate(c, org, q)
    else ApplyRule(parse, c, org, q)
  }

  // ---------------------------------------------------------------- invariant

  /** An active rule's channels exist, are undeleted and belong to its organisation. */
  predicate ChannelsOk(c: Config, rule: Rule) {
    forall k | 0 <= k < |rule.channels| ::
      var id := rule.channels[k];
      id in c.channels && c.channels[id].org == rule.org && !c.channels[id].deleted
  }

  predicate RuleOk(c: Config, rule: Rule) {
    && (rule.active ==> ChannelsOk(c, rule))
    && (rule.template.Some? ==> TemplateVisible(c, rule.org, rule.template.value))
  }

  /** No two templates of one owner share event type and name. */
  ghost predicate TemplatesUnique(c: Config) {
    forall s, t | s in c.templates && t in c.templates && s != t ::
      !(c.templates[s].org == c.templates[t].org && c.templates[s].event == c.templates[t].event
        && c.templates[s].name == c.templates[t].name)
  }

  ghost predicate Inv(c: Config) {
    && TemplatesUnique(c)
    && (forall r | r in c.rules :: RuleOk(c, c.rules[r]))
    && (forall id | id in c.channels :: c.channels[id].deleted ==> !c.channels[id].active)
  }

  lemma ChannelKeepsInv(c: Config, org: string, q: Request)
    requires Inv(c) && (q.CreateChannel? || q.UpdateChannel? || q.DeleteChannel?)
    ensures Inv(ApplyChannel(c, org, q).0)
  {
  }

  lemma TemplateKeepsInv(c: Config, org: string, q: Request)
    requires Inv(c) && (q.CreateTemplate? || q.UpdateTemplate? || q.DeleteTemplate?)
    ensures Inv(ApplyTemplate(c, org, q).0)
  {
    var d := ApplyTemplate(c, org, q).0;
    forall r | r in d.rules ensures RuleOk(d, d.rules[r]) {
      assert RuleOk(c, c.rules[r]);
    }
  }

  lemma ValidatedIsOk(parse: Parser, c: Config, org: string, input: RuleInput, active: bool)
    requires Validated(parse, c, org, input).Some?
    ensures var (ids, template) := Validated(parse, c, org, input).value;
            RuleOk(c, Rule(org, active, ids, template)) && ids != [] && Distinct(ids)
  {
  }

  lemma RuleKeepsInv(parse: Parser, c: Config, org: string, q: Request)
    requires Inv(c) && (q.CreateRule? || q.UpdateRule? || q.DeleteRule?)
    ensures Inv(ApplyRule(parse, c, org, q).0)
  {
    var d := ApplyRule(parse, c, org, q).0;
    if !q.DeleteRule? && d != c {
      ValidatedIsOk(parse, c, org, q.input, d.rules[q.id].active);
    }
    forall r | r in d.rules ensures RuleOk(d, d.rules[r]) {
      if r in c.rules {
        assert RuleOk(c, c.rules[r]);
      }
      if r == q.id && d != c {
        assert RuleOk(c, d.rules[r]);
      }
    }
  }

  lemma ApplyKeepsInv(parse: Parser, c: Config, org: string, q: Request)
    requires Inv(c)
    ensures Inv(Apply(parse, c, org, q).0)
  {
    if q.CreateChannel? || q.UpdateChannel? || q.DeleteChannel? {
      ChannelKeepsInv(c, org, q);
    } else if q.CreateTemplate? || q.UpdateTemplate? || q.DeleteTemplate? {
      TemplateKeepsInv(c, org, q);
    } else {
      RuleKeepsInv(parse, c, org, q);
    }
  }

  function ApplyAll(parse: Parser, c: Config, requests: seq<(string, Request)>): Config
    decreases |requests|
  {
    if requests == [] then c
    else ApplyAll(parse, Apply(parse, c, requests[0].0, requests[0].1).0, requests[1..])
  }

  /** References and names stay intact over every sequence of requests. */
  lemma {:induction false} RequestsKeepInv(parse: Parser, c: Config, requests: seq<(string, Request)>)
    requires Inv(c)
    ensures Inv(ApplyAll(parse, c, requests))
    decreases |requests|
  {
    if requests != [] {
      var (org, q) := requests[0];
      ApplyKeepsInv(parse, c, org, q);
      RequestsKeepInv(parse, Apply(parse, c, org, q).0, requests[1..]);
    }
  }

  // --------------------------------------------------------------- isolation

  ghost predicate OthersChannelsSame(c: Config, d: Config, org: string) {
    forall id | id in c.channels.Keys + d.channels.Keys ::
      (id in c.channels && c.channels[id].org != org) || (id in d.channels && d.channels[id].org != org)
      ==> id in c.channels && id in d.channels && d.channels[id] == c.channels[id]
  }

  ghost predicate OthersRulesSame(c: Config, d: Config, org: string) {
    forall r | r in c.rules.Keys + d.rules.Keys ::
      (r in c.rules && c.rules[r].org != org) || (r in d.rules && d.rules[r].org != org)
      ==> r in c.rules && r in d.rules && d.rules[r] == c.rules[r]
  }

  predicate Foreign(t: Template, org: string) {
    t.system || t.org != Some(org)
  }

  ghost predicate OthersTemplatesSame(c: Config, d: Config, org: string) {
    forall t | t in c.templates.Keys + d.templates.Keys ::
      (t in c.templates && Foreign(c.templates[t], org)) || (t in d.templates && Foreign(d.templates[t], org))
      ==> t in c.templates && t in d.templates && d.templates[t] == c.templates[t]
  }

  /** A request changes nothing of another organisation, not even through the
      foreign key, and no system template. */
  lemma RequestIsIsolated(parse: Parser, c: Config, org: string, q: Request)
    requires Inv(c)
    ensures var d := Apply(parse, c, org, q).0;
            OthersChannelsSame(c, d, org) && OthersRulesSame(c, d, org) && OthersTemplatesSame(c, d, org)
  {
    if q.CreateChannel? || q.UpdateChannel? || q.DeleteChannel? {
      ChannelIsIsolated(c, org, q);
    } else if q.CreateTemplate? || q.UpdateTemplate? || q.DeleteTemplate? {
      TemplateIsIsolated(c, org, q);
    } else {
      RuleIsIsolated(parse, c, org, q);
    }
  }

  lemma ChannelIsIsolated(c: Config, org: string, q: Request)
    requires q.CreateChannel? || q.UpdateChannel? || q.DeleteChannel?
    ensures var d := ApplyChannel(c, org, q).0;
            OthersChannelsSame(c, d, org) && d == c.(channels := d.channels)
  {
  }

  lemma RuleIsIsolated(parse: Parser, c: Config, org: string, q: Request)
    requires q.CreateRule? || q.UpdateRule? || q.DeleteRule?
    ensures var d := ApplyRule(parse, c, org, q).0;
            OthersRulesSame(c, d, org) && d == c.(rules := d.rules)
  {
  }

  lemma TemplateIsIsolated(c: Config, org: string, q: Request)
    requires Inv(c) && (q.CreateTemplate? || q.UpdateTemplate? || q.DeleteTemplate?)
    ensures var d := ApplyTemplate(c, org, q).0;
            OthersTemplatesSame(c, d, org) && OthersRulesSame(c, d, org) && d.channels == c.channels
  {
    if !q.DeleteTemplate? {
      RenamingIsIsolated(c, org, q);
    } else if OwnTemplate(c, org, q.id) {
      DeletionIsIsolated(c, org, q.id);
    }
  }

  lemma RenamingIsIsolated(c: Config, org: string, q: Request)
    requires q.CreateTemplate? || q.UpdateTemplate?
    ensures var d := ApplyTemplate(c, org, q).0;
            OthersTemplatesSame(c, d, org) && d == c.(templates := d.templates)
  {
  }

  lemma DeletionIsIsolated(c: Config, org: string, id: string)
    requires Inv(c) && OwnTemplate(c, org, id)
    ensures var d := WithoutTemplate(c, id);
            OthersTemplatesSame(c, d, org) && OthersRulesSame(c, d, org) && d.channels == c.channels
  {
    forall r | r in c.rules && c.rules[r].org != org ensures c.rules[r].template != Some(id) {
      assert RuleOk(c, c.rules[r]);
    }
  }

  // ----------------------------------------- the check and the write apart

  /** The write of a rule alone, as it happens when other requests come between. */
  function WriteRule(c: Config, id: string, rule: Rule): Config {
    c.(rules := c.rules[id := rule])
  }

  /** The write keeps the invariant exactly when its references hold at that moment. */
  lemma WriteKeepsInvExactly(c: Config, id: string, rule: Rule)
    requires Inv(c)
    ensures Inv(WriteRule(c, id, rule)) <==> RuleOk(c, rule)
  {
    var d := WriteRule(c, id, rule);
    assert RuleOk(d, rule) <==> RuleOk(c, rule);
    if RuleOk(c, rule) {
      forall r | r in d.rules ensures RuleOk(d, d.rules[r]) {
        if r != id {
          assert RuleOk(c, c.rules[r]);
        }
      }
    } else {
      assert d.rules[id] == rule;
    }
  }

  /** A write of a rule as the database executes it: the foreign key refuses a
      template that is gone; nothing guards the channels. */
  function LateRuleWrite(c: Config, id: string, rule: Rule): (Config, Status) {
    if rule.template.Some? && rule.template.value !in c.templates then (c, InternalError)
    else (WriteRule(c, id, rule), Created)
  }

  /** One of the requests deletes the channel. */
  predicate DeletesChannel(parse: Parser, c: Config, between: seq<(string, Request)>, id: string)
    decreases |between|
  {
    between != [] &&
    (var (org, q) := between[0];
     var (after, status) := Apply(parse, c, org, q);
     (q == DeleteChannel(id) && status.Deleted?) || DeletesChannel(parse, after, between[1..], id))
  }

  /** One of the requests deletes the template. */
  predicate DeletesTemplate(parse: Parser, c: Config, between: seq<(string, Request)>, id: string)
    decreases |between|
  {
    between != [] &&
    (var (org, q) := between[0];
     var (after, status) := Apply(parse, c, org, q);
     (q == DeleteTemplate(id) && status.Deleted?) || DeletesTemplate(parse, after, between[1..], id))
  }

  lemma {:induction false} DeletedChannelStays(parse: Parser, c: Config, between: seq<(string, Request)>, id: string)
    requires id in c.channels && c.channels[id].deleted
    ensures id in ApplyAll(parse, c, between).channels && ApplyAll(parse, c, between).channels[id].deleted
    decreases |between|
  {
    if between != [] {
      DeletedChannelStays(parse, Apply(parse, c, between[0].0, between[0].1).0, between[1..], id);
    }
  }

  /** A channel stays with its organisation, and is deleted exactly by a request to
      delete it. */
  lemma {:induction false} ChannelDeletedExactly(parse: Parser, c: Config, between: seq<(string, Request)>, id: string)
    requires id in c.channels && !c.channels[id].deleted
    ensures var d := ApplyAll(parse, c, between);
            && id in d.channels && d.channels[id].org == c.channels[id].org
            && (d.channels[id].deleted <==> DeletesChannel(parse, c, between, id))
    decreases |between|
  {
    if between != [] {
      var (org, q) := between[0];
      var (after, status) := Apply(parse, c, org, q);
      ChannelStep(parse, c, org, q, id);
      if after.channels[id].deleted {
        DeletedChannelStays(parse, after, between[1..], id);
        ChannelOrgStays(parse, after, between[1..], id);
      } else {
        ChannelDeletedExactly(parse, after, between[1..], id);
      }
    }
  }

  lemma ChannelStep(parse: Parser, c: Config, org: string, q: Request, id: string)
    requires id in c.channels
    ensures var (after, status) := Apply(parse, c, org, q);
            && id in after.channels && after.channels[id].org == c.channels[id].org
            && (!c.channels[id].deleted ==> (after.channels[id].deleted <==> q == DeleteChannel(id) && status.Deleted?))
  {
  }

  lemma {:induction false} ChannelOrgStays(parse: Parser, c: Config, between: seq<(string, Request)>, id: string)
    requires id in c.channels
    ensures id in ApplyAll(parse, c, between).channels
    ensures ApplyAll(parse, c, between).channels[id].org == c.channels[id].org
    decreases |between|
  {
    if between != [] {
      ChannelStep(parse, c, between[0].0, between[0].1, id);
      ChannelOrgStays(parse, Apply(parse, c, between[0].0, between[0].1).0, between[1..], id);
    }
  }

  /** The database draws a new identifier for every template. */
  ghost predicate NotReused(between: seq<(string, Request)>, id: string) {
    forall k | 0 <= k < |between| :: between[k].1.CreateTemplate? ==> between[k].1.id != id
  }

  lemma TemplateStep(parse: Parser, c: Config, org: string, q: Request, id: string)
    requires q.CreateTemplate? ==> q.id != id
    ensures var (after, status) := Apply(parse, c, org, q);
            && (id in after.templates <==> id in c.templates && !(q == DeleteTemplate(id) && status.Deleted?))
            && (id in after.templates ==> after.templates[id].org == c.templates[id].org)
  {
  }

  /** A template stays with its owner, and is gone exactly after a request to delete it. */
  lemma {:induction false} TemplateDeletedExactly(parse: Parser, c: Config, between: seq<(string, Request)>, id: string)
    requires NotReused(between, id)
    ensures var d := ApplyAll(parse, c, between);
            && (id in c.templates ==> (id in d.templates <==> !DeletesTemplate(parse, c, between, id)))
            && (id in d.templates ==> id in c.templates && d.templates[id].org == c.templates[id].org)
    decreases |between|
  {
    if between != [] {
      var (org, q) := between[0];
      assert between[0].1 == q;
      TemplateStep(parse, c, org, q, id);
      assert NotReused(between[1..], id);
      TemplateDeletedExactly(parse, Apply(parse, c, org, q).0, between[1..], id);
    }
  }

  /** A rule is checked, any requests of any organisations are served, and then it is
      written. The write is refused exactly if one of them deleted its template; it
      keeps the references intact exactly if it is refused, or the rule is inactive,
      or none of them deleted a channel it lists. */
  lemma LateRuleWriteExactly(parse: Parser, c: Config, org: string, input: RuleInput, between: seq<(string,
      Request)>, id: string, active: bool)
    requires Inv(c) && Validated(parse, c, org, input).Some?
    requires var template := Validated(parse, c, org, input).value.1;
             template.Some? ==> NotReused(between, template.value)
    ensures var (ids, template) := Validated(parse, c, org, input).value;
            var (after, status) := LateRuleWrite(ApplyAll(parse, c, between), id, Rule(org, active, ids, template));
            && (status == InternalError <==> template.Some? && DeletesTemplate(parse, c, between, template.value))
            && (Inv(after) <==>
                  || status == InternalError || !active
                  || forall k | 0 <= k < |ids| :: !DeletesChannel(parse, c, between, ids[k]))
  {
    var (ids, template) := Validated(parse, c, org, input).value;
    var d, rule := ApplyAll(parse, c, between), Rule(org, active, ids, template);
    RequestsKeepInv(parse, c, between);
    if template.Some? {
      TemplateDeletedExactly(parse, c, between, template.value);
    }
    forall k | 0 <= k < |ids|
      ensures ids[k] in d.channels && d.channels[ids[k]].org == org
      ensures d.channels[ids[k]].deleted <==> DeletesChannel(parse, c, between, ids[k])
    {
      ChannelDeletedExactly(parse, c, between, ids[k]);
    }
    WriteKeepsInvExactly(d, id, rule);
  }

  /** The write of a channel's deletion, whatever was checked before it. */
  function LateChannelDelete(c: Config, org: string, id: string): (Config, Status) {
    if !OwnChannel(c, org, id) then (c, NotFound)
    else (c.(channels := c.channels[id := Channel(org, false, true)]), Deleted)
  }

  /** It keeps the references intact exactly if it finds no channel, or no active rule
      of the organisation lists the channel by then. */
  lemma LateChannelDeleteExactly(c: Config, org: string, id: string)
    requires Inv(c)
    ensures Inv(LateChannelDelete(c, org, id).0) <==> !OwnChannel(c, org, id) || !ChannelUsed(c, org, id)
  {
    var d := LateChannelDelete(c, org, id).0;
    if OwnChannel(c, org, id) {
      if ChannelUsed(c, org, id) {
        var r :| r in c.rules && c.rules[r].org == org && c.rules[r].active && id in c.rules[r].channels;
        assert !ChannelsOk(d, d.rules[r]);
      } else {
        ChannelKeepsInv(c, org, DeleteChannel(id));
      }
    }
  }

  /** The deletion of a template needs no check: the foreign key clears every
      reference in the same statement. */
  lemma LateTemplateDeleteIsSafe(c: Config, id: string)
    requires Inv(c)
    ensures Inv(WithoutTemplate(c, id))
  {
    var d := WithoutTemplate(c, id);
    forall r | r in d.rules ensures RuleOk(d, d.rules[r]) {
      assert RuleOk(c, c.rules[r]);
    }
  }

  /** A rule created between the check and the write of a channel's deletion is left
      on a deleted channel. */
  lemma CheckThenDeleteRaces(parse: Parser, org: string, channel: string, id: string)
    requires parse(TrimSpace(channel)) == Some(channel)
    ensures var c := Config(map[channel := Channel(org, true, false)], map[], map[]);
            var input := RuleInput([channel], None, None, true);
            var (created, status) := Apply(parse, c, org, CreateRule(id, input));
            && Inv(c) && !ChannelUsed(c, org, channel)
            && status == Created && Inv(created)
            && LateChannelDelete(created, org, channel).1 == Deleted && !Inv(LateChannelDelete(created, org, channel).0)
  {
    var c := Config(map[channel := Channel(org, true, false)], map[], map[]);
    var input := RuleInput([channel], None, None, true);
    assert Canonicals(parse, [channel]) == [channel];
    assert Available(c, org, channel);
    var created := Apply(parse, c, org, CreateRule(id, input)).0;
    ApplyKeepsInv(parse, c, org, CreateRule(id, input));
    assert created.rules[id] == Rule(org, true, [channel], None) && [channel][0] == channel;
    assert ChannelUsed(created, org, channel);
    LateChannelDeleteExactly(created, org, channel);
  }

  /** A channel deleted between the check and the write of a rule leaves an active
      rule on a deleted channel: the endpoints rely on running one at a time. */
  lemma CheckThenWriteRaces(parse: Parser, org: string, channel: string, id: string)
    requires parse(TrimSpace(channel)) == Some(channel)
    ensures var c := Config(map[channel := Channel(org, true, false)], map[], map[]);
            var input := RuleInput([channel], None, None, true);
            var (deleted, status) := Apply(parse, c, org, DeleteChannel(channel));
            && Inv(c) && Validated(parse, c, org, input) == Some(([channel], None))
            && status == Deleted && Inv(deleted)
            && !Inv(WriteRule(deleted, id, Rule(org, true, [channel], None)))
  {
    var c := Config(map[channel := Channel(org, true, false)], map[], map[]);
    var input := RuleInput([channel], None, None, true);
    assert Canonicals(parse, [channel]) == [channel];
    assert Available(c, org, channel);
    ApplyKeepsInv(parse, c, org, DeleteChannel(channel));
    var deleted := Apply(parse, c, org, DeleteChannel(channel)).0;
    var rule := Rule(org, true, [channel], None);
    assert deleted.channels[channel].deleted && rule.channels[0] == channel;
    WriteKeepsInvExactly(deleted, id, rule);
  }
}
