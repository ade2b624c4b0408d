/** The endpoints as written: guards in their order, then one statement. Each keeps
    the references intact, and says what it does to the rows it is not about. */
module NotificationStore {
  import opened Wrappers
  import opened NotificationConfig

  /** The stored rule is exactly the one that the body asks for. */
  ghost predicate IsTheRule(parse: Parser, c: Config, org: string, input: RuleInput, active: bool, rule: Rule) {
    && rule == Rule(org, active, rule.channels, rule.template)
    && Asked(parse, input, rule.channels, rule.template) && Usable(c, org, rule.channels, rule.template)
  }

  class Store {
    const parse: Parser
    var channels: map<string, Channel>
    var templates: map<string, Template>
    var rules: map<string, Rule>

    function View(): Config
      reads this
    {
      Config(channels, templates, rules)
    }

    ghost predicate Valid()
      reads this
    {
      Inv(View())
    }

    constructor (parse: Parser)
      ensures this.parse == parse && View() == Config(map[], map[], map[]) && Valid()
    {
      this.parse := parse;
      channels, templates, rules := map[], map[], map[];
    }

    /** A stored channel is never overwritten; a new one may be used by rules at once
        if it is active. */
    method CreateChannel(org: string, id: string, active: Option<bool>) returns (status: Status)
      requires Valid()
      modifies this`channels
      ensures Valid() && (View(), status) == Apply(parse, old(View()), org, Request.CreateChannel(id, active))
      ensures status.Created? <==> id !in old(channels)
      ensures status.Created? ==> channels[id] == Channel(org, active != Some(false), false)
      ensures channels == if status.Created? then old(channels)[id := channels[id]] else old(channels)
    {
      ApplyKeepsInv(parse, View(), org, Request.CreateChannel(id, active));
      var isActive := true;
      if active.Some? {
        isActive := active.value;
      }
      if id in channels {
        return InternalError;
      }
      channels := channels[id := Channel(org, isActive, false)];
      status := Created;
    }

    /** Only a channel of the organisation that is not deleted is found. */
    method UpdateChannel(org: string, id: string, active: Option<bool>) returns (status: Status)
      requires Valid()
      modifies this`channels
      ensures Valid() && (View(), status) == Apply(parse, old(View()), org, Request.UpdateChannel(id, active))
      ensures status.Updated? <==> old(OwnChannel(View(), org, id))
      ensures status.Updated? ==> channels[id] == Channel(org, active != Some(false), false)
      ensures status == Updated || (status == NotFound && channels == old(channels))
      ensures channels - {id} == old(channels) - {id}
    {
      ApplyKeepsInv(parse, View(), org, Request.UpdateChannel(id, active));
      var isActive := true;
      if active.Some? {
        isActive := active.value;
      }
      if id !in channels || channels[id].org != org || channels[id].deleted {
        return NotFound;
      }
      channels := channels[id := channels[id].(active := isActive)];
      status := Updated;
    }

    /** A channel is deleted exactly if it is the organisation's own and no active
        rule lists it. From then on no active rule of anyone lists it, and no new rule
        can. */
    method DeleteChannel(org: string, id: string) returns (status: Status)
      requires Valid()
      modifies this`channels
      ensures Valid() && (View(), status) == Apply(parse, old(View()), org, Request.DeleteChannel(id))
      ensures status.Deleted? <==> old(OwnChannel(View(), org, id)) && !old(ChannelUsed(View(), org, id))
      ensures status.Conflict? <==> old(ChannelUsed(View(), org, id))
      ensures status in {Deleted, Conflict, NotFound} && (status.Deleted? ==> channels[id] == Channel(org, false, true))
      ensures status.Deleted? ==> forall r | r in rules && rules[r].active :: id !in rules[r].channels
      ensures status.Deleted? ==> forall anyone :: !Available(View(), anyone, id)
      ensures channels - {id} == old(channels) - {id} && (!status.Deleted? ==> channels == old(channels))
    {
      ApplyKeepsInv(parse, View(), org, Request.DeleteChannel(id));
      if exists r | r in rules :: rules[r].org == org && rules[r].active && id in rules[r].channels {
        return Conflict;
      }
      if id !in channels || channels[id].org != org || channels[id].deleted {
        return NotFound;
      }
      forall r | r in rules && rules[r].active ensures id !in rules[r].channels {
        assert RuleOk(View(), rules[r]);
      }
      channels := channels[id := channels[id].(active := false, deleted := true)];
      status := Deleted;
    }

    /** A template is created exactly if its event type and name are free in the
        organisation, and then nobody else of it has them. */
    method CreateTemplate(org: string, id: string, event: string, name: string) returns (status: Status)
      requires Valid()
      modifies this`templates
      ensures Valid() && (View(), status) == Apply(parse, old(View()), org, Request.CreateTemplate(id, event, name))
      ensures status.Created? <==> id !in old(templates) && !old(NameTaken(View(), org, event, name, None))
      ensures status.Conflict? <==> old(NameTaken(View(), org, event, name, None))
      ensures status.Created? ==> templates[id] == Template(Some(org), event, name, false)
      ensures status.Created? ==> TemplateVisible(View(), org, id) && !NameTaken(View(), org, event, name, Some(id))
      ensures templates == if status.Created? then old(templates)[id := templates[id]] else old(templates)
    {
      ApplyKeepsInv(parse, View(), org, Request.CreateTemplate(id, event, name));
      if exists t | t in templates ::
           templates[t].org == Some(org) && templates[t].event == event && templates[t].name == name
      {
        return Conflict;
      }
      if id in templates {
        return InternalError;
      }
      templates := templates[id := Template(Some(org), event, name, false)];
      status := Created;
    }

    /** A template is renamed exactly if it is the organisation's own and no other
        one of it has the event type and name; it then has them alone. Every other
        template, and everyone's view of this one, stays. */
    method UpdateTemplate(org: string, id: string, event: string, name: string) returns (status: Status)
      requires Valid()
      modifies this`templates
      ensures Valid() && (View(), status) == Apply(parse, old(View()), org, Request.UpdateTemplate(id, event, name))
      ensures status.Updated? <==>
              old(OwnTemplate(View(), org, id)) && !old(NameTaken(View(), org, event, name, Some(id)))
      ensures status.Updated? ==> OwnTemplate(View(), org, id) && templates[id].event == event
                                  && templates[id].name == name && !NameTaken(View(), org, event, name, Some(id))
      ensures status.Conflict? <==> old(NameTaken(View(), org, event, name, Some(id)))
      ensures status in {Updated, Conflict, NotFound}
      ensures forall anyone, t :: TemplateVisible(View(), anyone, t) == old(TemplateVisible(View(), anyone, t))
      ensures templates - {id} == old(templates) - {id} && (!status.Updated? ==> templates == old(templates))
    {
      ApplyKeepsInv(parse, View(), org, Request.UpdateTemplate(id, event, name));
      var duplicate := exists t | t in templates && t != id ::
        templates[t].org == Some(org) && templates[t].event == event && templates[t].name == name;
      assert duplicate == NameTaken(View(), org, event, name, Some(id));
      if duplicate {
        return Conflict;
      }
      if id !in templates || templates[id].org != Some(org) || templates[id].system {
        return NotFound;
      }
      templates := templates[id := templates[id].(event := event, name := name)];
      status := Updated;
    }

    /** A template is deleted exactly if it is the organisation's own and no active
        rule of it uses it. No rule refers to it then, and no active rule has changed,
        nor what any rule is but for the reference. */
    method DeleteTemplate(org: string, id: string) returns (status: Status)
      requires Valid()
      modifies this`templates, this`rules
      ensures Valid() && (View(), status) == Apply(parse, old(View()), org, Request.DeleteTemplate(id))
      ensures status.Deleted? <==> old(OwnTemplate(View(), org, id)) && !old(TemplateUsed(View(), org, id))
      ensures status.Conflict? <==> old(TemplateUsed(View(), org, id))
      ensures status in {Deleted, Conflict, NotFound}
      ensures status.Deleted? ==> id !in templates && forall r | r in rules :: rules[r].template != Some(id)
      ensures rules.Keys == old(rules.Keys) && forall r | r in rules ::
                && (rules[r].active ==> rules[r] == old(rules)[r])
                && rules[r].(template := None) == old(rules)[r].(template := None)
      ensures templates - {id} == old(templates) - {id} && (!status.Deleted? ==> View() == old(View()))
    {
      ApplyKeepsInv(parse, View(), org, Request.DeleteTemplate(id));
      if exists r | r in rules :: rules[r].org == org && rules[r].active && rules[r].template == Some(id) {
        return Conflict;
      }
      if id !in templates || templates[id].org != Some(org) || templates[id].system {
        return NotFound;
      }
      forall r | r in rules && rules[r].active ensures rules[r].template != Some(id) {
        assert RuleOk(View(), rules[r]);
      }
      templates := templates - {id};
      // ON DELETE SET NULL
      rules := map r | r in rules :: if rules[r].template == Some(id) then rules[r].(template := None) else rules[r];
      status := Deleted;
    }

    /** A rule is created exactly if what the body asks for may be used, and is that. */
    method CreateRule(org: string, id: string, input: RuleInput) returns (status: Status)
      requires Valid()
      modifies this`rules
      ensures Valid() && (View(), status) == Apply(parse, old(View()), org, Request.CreateRule(id, input))
      ensures status.Created? <==> Acceptable(parse, old(View()), org, input) && id !in old(rules)
      ensures status.BadRequest? <==> !Acceptable(parse, old(View()), org, input)
      ensures status.Created? ==> IsTheRule(parse, View(), org, input, input.active.GetOr(true), rules[id])
      ensures rules == if status.Created? then old(rules)[id := rules[id]] else old(rules)
    {
      ApplyKeepsInv(parse, View(), org, Request.CreateRule(id, input));
      var valid := ValidateRuleInput(parse, View(), org, input);
      if valid.None? {
        return BadRequest;
      }
      var isActive := true;
      if input.active.Some? {
        isActive := input.active.value;
      }
      if id in rules {
        return InternalError;
      }
      rules := rules[id := Rule(org, isActive, valid.value.0, valid.value.1)];
      status := Created;
    }

    /** A rule of the organisation is replaced exactly if what the body asks for may be
        used, and is that; it stays active or inactive unless told otherwise. */
    method UpdateRule(org: string, id: string, input: RuleInput) returns (status: Status)
      requires Valid()
      modifies this`rules
      ensures Valid() && (View(), status) == Apply(parse, old(View()), org, Request.UpdateRule(id, input))
      ensures status.Updated? <==>
              Acceptable(parse, old(View()), org, input) && id in old(rules) && old(rules)[id].org == org
      ensures status.BadRequest? <==> !Acceptable(parse, old(View()), org, input)
      ensures status.Updated? ==>
              IsTheRule(parse, View(), org, input, input.active.GetOr(old(rules)[id].active), rules[id])
      ensures rules == if status.Updated? then old(rules)[id := rules[id]] else old(rules)
    {
      ApplyKeepsInv(parse, View(), org, Request.UpdateRule(id, input));
      var valid := ValidateRuleInput(parse, View(), org, input);
      if valid.None? {
        return BadRequest;
      }
      if id !in rules || rules[id].org != org {
        return NotFound;
      }
      var active := if input.active.Some? then input.active.value else rules[id].active;
      rules := rules[id := rules[id].(active := active, channels := valid.value.0, template := valid.value.1)];
      status := Updated;
    }

    /** Deleting a rule deactivates it: it no longer keeps its channels and template. */
    method DeleteRule(org: string, id: string) returns (status: Status)
      requires Valid()
      modifies this`rules
      ensures Valid() && (View(), status) == Apply(parse, old(View()), org, Request.DeleteRule(id))
      ensures status.Deleted? <==> id in old(rules) && old(rules)[id].org == org
      ensures forall channel :: ChannelUsed(View(), org, channel) ==> old(ChannelUsed(View(), org, channel))
      ensures status.Deleted? ==> rules[id] == old(rules)[id].(active := false)
      ensures rules - {id} == old(rules) - {id}
    {
      ApplyKeepsInv(parse, View(), org, Request.DeleteRule(id));
      if id !in rules || rules[id].org != org {
        return NotFound;
      }
      rules := rules[id := rules[id].(active := false)];
      status := Deleted;
    }
  }
}
