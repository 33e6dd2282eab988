/**
 * The trigger engine (src/agent_os/triggers.rs): triggers per agent, plus two derived indexes, the
 * webhook routes and the flat list of channel triggers.
 */
module Triggers {
  import opened Prelude
  import opened Strings
  import Template

  type Params = map<string, string>

  datatype TriggerMode = Realtime | Poll

  datatype ScheduledTrigger = ScheduledTrigger(chain: string, interval: string, at: Option<string>, params: Params)

  datatype EventTrigger = EventTrigger(on: string, filter: map<string, string>, chain: string, params: Params)

  datatype WebhookTrigger = WebhookTrigger(path: string, chain: string, secret: Option<string>, params: Params)

  datatype ChannelTrigger = ChannelTrigger(
    channel: string,
    from: Option<string>,
    fromDomain: Option<string>,
    group: Option<string>,
    pattern: Option<string>,
    subjectPattern: Option<string>,
    workflow: string,
    params: Params,
    mode: TriggerMode,
    pollInterval: Option<string>)

  datatype TriggerDef =
    | Scheduled(s: ScheduledTrigger)
    | Event(e: EventTrigger)
    | Webhook(w: WebhookTrigger)
    | Channel(c: ChannelTrigger)

  datatype AgentTriggers = AgentTriggers(
    scheduled: seq<ScheduledTrigger>,
    events: seq<EventTrigger>,
    webhooks: seq<WebhookTrigger>,
    channels: seq<ChannelTrigger>)

  datatype WebhookRoute = WebhookRoute(agentId: string, chain: string, secret: Option<string>, params: Params)

  datatype Engine = Engine(
    triggers: map<string, seq<TriggerDef>>,
    routes: map<string, WebhookRoute>,
    channels: seq<(string, ChannelTrigger)>)

  // ---------------------------------------------------------------------------------------
  // Registration
  // ---------------------------------------------------------------------------------------

  function DefsOf(t: AgentTriggers): seq<TriggerDef> {
    ScheduledDefs(t.scheduled) + EventDefs(t.events) + WebhookDefs(t.webhooks) + ChannelTriggerDefs(t.channels)
  }

  function ScheduledDefs(ts: seq<ScheduledTrigger>): seq<TriggerDef> {
    if ts == [] then [] else ScheduledDefs(ts[..|ts| - 1]) + [Scheduled(ts[|ts| - 1])]
  }

  function EventDefs(ts: seq<EventTrigger>): seq<TriggerDef> {
    if ts == [] then [] else EventDefs(ts[..|ts| - 1]) + [Event(ts[|ts| - 1])]
  }

  function WebhookDefs(ts: seq<WebhookTrigger>): seq<TriggerDef> {
    if ts == [] then [] else WebhookDefs(ts[..|ts| - 1]) + [Webhook(ts[|ts| - 1])]
  }

  function ChannelTriggerDefs(ts: seq<ChannelTrigger>): seq<TriggerDef> {
    if ts == [] then [] else ChannelTriggerDefs(ts[..|ts| - 1]) + [Channel(ts[|ts| - 1])]
  }

  /** Absolute paths are taken as they are, others get the agent's prefix. */
  function RoutePath(agentId: string, path: string): string {
    if "/" <= path then path else "/hooks/" + agentId + "/" + path
  }

  function RouteFor(agentId: string, w: WebhookTrigger): WebhookRoute {
    WebhookRoute(agentId, w.chain, w.secret, w.params)
  }

  function AddRoutes(routes: map<string, WebhookRoute>, agentId: string, webhooks: seq<WebhookTrigger>): map<string, WebhookRoute> {
    if webhooks == [] then routes
    else
      var n := |webhooks| - 1;
      AddRoutes(routes, agentId, webhooks[..n])[RoutePath(agentId, webhooks[n].path) := RouteFor(agentId, webhooks[n])]
  }

  function Tagged(agentId: string, channels: seq<ChannelTrigger>): seq<(string, ChannelTrigger)> {
    if channels == [] then [] else Tagged(agentId, channels[..|channels| - 1]) + [(agentId, channels[|channels| - 1])]
  }

  function Registered(e: Engine, agentId: string, t: AgentTriggers): Engine {
    Engine(e.triggers[agentId := DefsOf(t)], AddRoutes(e.routes, agentId, t.webhooks), e.channels + Tagged(agentId, t.channels))
  }

  function Without(channels: seq<(string, ChannelTrigger)>, agentId: string): seq<(string, ChannelTrigger)> {
    if channels == [] then []
    else
      var n := |channels| - 1;
      var rest := Without(channels[..n], agentId);
      if channels[n].0 != agentId then rest + [channels[n]] else rest
  }

  function Unregistered(e: Engine, agentId: string): Engine {
    Engine(e.triggers - {agentId}, map p | p in e.routes && e.routes[p].agentId != agentId :: e.routes[p], Without(e.channels, agentId))
  }

  // ---------------------------------------------------------------------------------------
  // Matching messages
  // ---------------------------------------------------------------------------------------

  datatype Message = Message(channel: string, sender: string, group: Option<string>, text: string, subject: Option<string>)

  /** A regular expression against a text; none if the expression does not compile. */
  type RegexEngine = (string, string) -> Option<bool>

  datatype ChannelMatch = ChannelMatch(agentId: string, workflow: string, params: Params)

  predicate DomainMatches(sender: string, domain: string) {
    EndsWith(sender, domain)
    && (|sender| > |domain| ==> sender[|sender| - |domain| - 1] == '.' || sender[|sender| - |domain| - 1] == '@')
  }

  predicate ChannelMatches(t: ChannelTrigger, m: Message, regex: RegexEngine) {
    && t.channel == m.channel
    && (t.from.Some? ==> t.from.value == m.sender)
    && (t.fromDomain.Some? ==> DomainMatches(m.sender, t.fromDomain.value))
    && (t.group.Some? ==> m.group == t.group)
    && (t.pattern.Some? ==> regex(t.pattern.value, m.text) == Some(true))
    && (t.subjectPattern.Some? ==> m.subject.Some? && regex(t.subjectPattern.value, m.subject.value) == Some(true))
  }

  function OrEmpty(s: Option<string>): string { if s.Some? then s.value else "" }

  function ResolveParam(v: string, m: Message): string {
    var afterMessage := Replace(v, Template.Placeholder("message"), m.text);
    var afterSender := Replace(afterMessage, Template.Placeholder("sender"), m.sender);
    var afterGroup := Replace(afterSender, Template.Placeholder("group"), OrEmpty(m.group));
    Replace(afterGroup, Template.Placeholder("subject"), OrEmpty(m.subject))
  }

  function ResolveParams(params: Params, m: Message): Params {
    map k | k in params :: ResolveParam(params[k], m)
  }

  /** What the names in a parameter stand for. */
  function MessageBindings(m: Message): map<string, string> {
    map["message" := m.text, "sender" := m.sender, "group" := OrEmpty(m.group), "subject" := OrEmpty(m.subject)]
  }

  /** For a flat parameter, and brace-free values but the last, the four replaces are one substitution. */
  lemma {:induction false} ParamIsSubstituted(v: string, m: Message)
    requires Template.Flat(v)
    requires Template.BraceFree(m.text) && Template.BraceFree(m.sender) && Template.BraceFree(OrEmpty(m.group))
    ensures ResolveParam(v, m) == Template.Fill(Template.Tokenize(v), MessageBindings(m))
  {
    var ts := Template.Tokenize(v);
    Template.TokenizeNames(v);
    Template.FillNothing(v);
    NamesAreBraceFree();
    var b1 := map["message" := m.text];
    var b2 := b1["sender" := m.sender];
    var b3 := b2["group" := OrEmpty(m.group)];
    FillOne(ts, map[], "message", m.text);
    FillOne(ts, b1, "sender", m.sender);
    FillOne(ts, b2, "group", OrEmpty(m.group));
    FillOne(ts, b3, "subject", OrEmpty(m.subject));
    assert MessageBindings(m) == b3["subject" := OrEmpty(m.subject)];
  }

  lemma {:induction false} NamesAreBraceFree()
    ensures Template.BraceFree("message") && Template.BraceFree("sender") && Template.BraceFree("group") && Template.BraceFree("subject")
    ensures |"message"| == |"subject"| == 7 && "message"[0] == 'm' && "subject"[0] == 's' && |"sender"| == 6 && |"group"| == 5
  {
  }

  /** The templates that the resolver may read a second time: those that use a name which is replaced before the last. */
  ghost predicate UsesEarlyName(v: string) {
    var names := Template.HoleNames(Template.Tokenize(v));
    "message" in names || "sender" in names || "group" in names
  }

  lemma {:induction false} UnusedNameIsKept(v: string, name: string, value: string)
    requires Template.BraceFree(name) && name !in Template.HoleNames(Template.Tokenize(v))
    ensures Replace(v, Template.Placeholder(name), value) == v
  {
    Template.ReplaceFillsTemplate(v, name, value);
    Template.FillWithUsed(Template.Tokenize(v), map[name := value], map[]);
    Template.FillNothing(v);
  }

  lemma {:induction false} OnlySubject(v: string, m: Message)
    requires !UsesEarlyName(v)
    ensures ResolveParam(v, m) == Template.Fill(Template.Tokenize(v), MessageBindings(m))
  {
    NamesAreBraceFree();
    UnusedNameIsKept(v, "message", m.text);
    UnusedNameIsKept(v, "sender", m.sender);
    UnusedNameIsKept(v, "group", OrEmpty(m.group));
    Template.ReplaceFillsTemplate(v, "subject", OrEmpty(m.subject));
    Template.FillWithUsed(Template.Tokenize(v), map["subject" := OrEmpty(m.subject)], MessageBindings(m));
  }

  const LONG_SUBJECT := "xxxxxxxx"

  /** A message that spells the subject's placeholder, with a long subject. */
  function SpellingSubject(): Message {
    var p := Template.Placeholder("subject");
    Message("", p, Some(p), p, Some(LONG_SUBJECT))
  }

  /** For every template that uses such a name, this message is read a second time. */
  lemma {:induction false} EarlyNameIsReadAgain(v: string)
    requires UsesEarlyName(v)
    ensures ResolveParam(v, SpellingSubject()) != Template.Fill(Template.Tokenize(v), MessageBindings(SpellingSubject()))
  {
    NamesAreBraceFree();
    var m, p, ts := SpellingSubject(), Template.Placeholder("subject"), Template.Tokenize(v);
    var b := MessageBindings(m);
    assert b["message"] == p && b["sender"] == p && b["group"] == p;
    var names := Template.HoleNames(ts);
    var n :| n in names && n in b && b[n] == p;
    Template.FillContains(ts, b, n);
    var afterGroup := Replace(Replace(Replace(v, Template.Placeholder("message"), p), Template.Placeholder("sender"), p), Template.Placeholder("group"), p);
    Template.ReplaceRemovesAll(afterGroup, "subject", LONG_SUBJECT);
  }

  /**
   * The exact boundary: a parameter becomes the simultaneous substitution of the four names, for all
   * messages, if and only if it uses none of the three names that are replaced before the last one.
   */
  lemma {:induction false} ParamIsSubstitutedIff(v: string)
    ensures (forall m :: ResolveParam(v, m) == Template.Fill(Template.Tokenize(v), MessageBindings(m))) <==> !UsesEarlyName(v)
  {
    if UsesEarlyName(v) {
      EarlyNameIsReadAgain(v);
    } else {
      forall m
        ensures ResolveParam(v, m) == Template.Fill(Template.Tokenize(v), MessageBindings(m))
      {
        OnlySubject(v, m);
      }
    }
  }

  /** The plainest input: the text of a message that reads `{{sender}}` becomes the sender. */
  lemma {:induction false} MessageIsReadAgain(sender: string)
    requires Template.BraceFree(sender)
    ensures var m := Message("", sender, None, Template.Placeholder("sender"), None);
            ResolveParam(Template.Placeholder("message"), m) == sender
  {
    NamesAreBraceFree();
    var m, text := Template.Placeholder("message"), Template.Placeholder("sender");
    ReplaceItself("message", text);
    ReplaceItself("sender", sender);
    NothingToReplace(sender, "group", "");
    NothingToReplace(sender, "subject", "");
  }

  lemma {:induction false} ReplaceItself(name: string, value: string)
    ensures Replace(Template.Placeholder(name), Template.Placeholder(name), value) == value
  {
    var p := Template.Placeholder(name);
    assert p[|p|..] == "" && value + "" == value;
  }

  lemma {:induction false} NothingToReplace(s: string, name: string, value: string)
    requires Template.BraceFree(s)
    ensures Replace(s, Template.Placeholder(name), value) == s
  {
    assert Template.Placeholder(name)[0] == '{' && '{' !in s;
    assert s + "" == s;
    ReplaceSkipsUnless(s, "", Template.Placeholder(name), value);
  }

  lemma {:induction false} FillOne(ts: seq<Template.Token>, values: map<string, string>, name: string, value: string)
    requires Template.CleanTokens(ts) && Template.CleanValues(values) && Template.BraceFree(name)
    requires name !in values
    ensures Replace(Template.Fill(ts, values), Template.Placeholder(name), value) == Template.Fill(ts, values[name := value])
    ensures Template.BraceFree(value) ==> Template.CleanValues(values[name := value])
  {
    Template.ReplaceFillsOneName(ts, values, name, value);
  }

  function ResultFor(agentId: string, t: ChannelTrigger, m: Message): ChannelMatch {
    ChannelMatch(agentId, t.workflow, ResolveParams(t.params, m))
  }

  /** The flat scan. */
  function MatchesAmong(channels: seq<(string, ChannelTrigger)>, m: Message, regex: RegexEngine): seq<ChannelMatch> {
    if channels == [] then []
    else
      var n := |channels| - 1;
      var before := MatchesAmong(channels[..n], m, regex);
      if ChannelMatches(channels[n].1, m, regex) then before + [ResultFor(channels[n].0, channels[n].1, m)] else before
  }

  // ---------------------------------------------------------------------------------------
  // Matching events
  // ---------------------------------------------------------------------------------------

  function AsciiLower(c: char): char { if 'A' <= c <= 'Z' then c + 32 as char else c }

  predicate EqIgnoreAsciiCase(a: string, b: string) {
    |a| == |b| && forall i :: 0 <= i < |a| ==> AsciiLower(a[i]) == AsciiLower(b[i])
  }

  predicate EventMatches(e: EventTrigger, eventType: string, properties: map<string, string>) {
    EqIgnoreAsciiCase(e.on, eventType) && forall k :: k in e.filter ==> k in properties && properties[k] == e.filter[k]
  }

  class TriggerEngine {
    var triggers: map<string, seq<TriggerDef>>
    var webhookRoutes: map<string, WebhookRoute>
    var channelTriggers: seq<(string, ChannelTrigger)>

    function Contents(): Engine
      reads this
    {
      Engine(triggers, webhookRoutes, channelTriggers)
    }

    constructor ()
      ensures Contents() == Engine(map[], map[], [])
    {
      triggers, webhookRoutes, channelTriggers := map[], map[], [];
    }

    method RegisterAgent(agentId: string, t: AgentTriggers)
      modifies this
      ensures Contents() == Registered(old(Contents()), agentId, t)
    {
      var defs := [];
      for i := 0 to |t.scheduled|
        invariant Contents() == old(Contents()) && defs == ScheduledDefs(t.scheduled[..i])
      {
        assert t.scheduled[..i + 1][..i] == t.scheduled[..i];
        defs := defs + [Scheduled(t.scheduled[i])];
      }
      assert t.scheduled[..|t.scheduled|] == t.scheduled;
      for i := 0 to |t.events|
        invariant Contents() == old(Contents()) && defs == ScheduledDefs(t.scheduled) + EventDefs(t.events[..i])
      {
        assert t.events[..i + 1][..i] == t.events[..i];
        defs := defs + [Event(t.events[i])];
      }
      assert t.events[..|t.events|] == t.events;
      defs := IndexWebhooks(agentId, t.webhooks, defs);
      defs := IndexChannels(agentId, t.channels, defs);
      triggers := triggers[agentId := defs];
    }

    /** The loop of `RegisterAgent` that also adds routes. */
    method IndexWebhooks(agentId: string, webhooks: seq<WebhookTrigger>, before: seq<TriggerDef>) returns (defs: seq<TriggerDef>)
      modifies this`webhookRoutes
      ensures webhookRoutes == AddRoutes(old(webhookRoutes), agentId, webhooks)
      ensures defs == before + WebhookDefs(webhooks)
    {
      defs := before;
      for i := 0 to |webhooks|
        invariant webhookRoutes == AddRoutes(old(webhookRoutes), agentId, webhooks[..i])
        invariant defs == before + WebhookDefs(webhooks[..i])
      {
        var w := webhooks[i];
        assert webhooks[..i + 1][..i] == webhooks[..i];
        webhookRoutes := webhookRoutes[RoutePath(agentId, w.path) := WebhookRoute(agentId, w.chain, w.secret, w.params)];
        defs := defs + [Webhook(w)];
      }
      assert webhooks[..|webhooks|] == webhooks;
    }

    /** The loop of `RegisterAgent` that also extends the flat list. */
    method IndexChannels(agentId: string, channels: seq<ChannelTrigger>, before: seq<TriggerDef>) returns (defs: seq<TriggerDef>)
      modifies this`channelTriggers
      ensures channelTriggers == old(channelTriggers) + Tagged(agentId, channels)
      ensures defs == before + ChannelTriggerDefs(channels)
    {
      defs := before;
      for i := 0 to |channels|
        invariant channelTriggers == old(channelTriggers) + Tagged(agentId, channels[..i])
        invariant defs == before + ChannelTriggerDefs(channels[..i])
      {
        assert channels[..i + 1][..i] == channels[..i];
        channelTriggers := channelTriggers + [(agentId, channels[i])];
        defs := defs + [Channel(channels[i])];
      }
      assert channels[..|channels|] == channels;
    }

    method UnregisterAgent(agentId: string)
      modifies this
      ensures Contents() == Unregistered(old(Contents()), agentId)
    {
      triggers := triggers - {agentId};
      webhookRoutes := map p | p in webhookRoutes && webhookRoutes[p].agentId != agentId :: webhookRoutes[p];
      channelTriggers := Without(channelTriggers, agentId);
    }

    /** In a consistent engine the route that is found has a registered owner with a matching webhook trigger. */
    method ResolveWebhook(path: string) returns (r: Option<WebhookRoute>)
      ensures r.None? <==> path !in webhookRoutes
      ensures r.Some? ==> r.value == webhookRoutes[path]
      ensures r.Some? && Consistent(Contents()) ==> r.value.agentId in triggers && RouteIsBacked(path, r.value, triggers[r.value.agentId])
    {
      assert Consistent(Contents()) ==> BackedAt(Contents(), path);
      r := if path in webhookRoutes then Some(webhookRoutes[path]) else None;
    }

    method MatchChannelMessage(m: Message, regex: RegexEngine) returns (results: seq<ChannelMatch>)
      ensures results == MatchesAmong(channelTriggers, m, regex)
    {
      results := [];
      for i := 0 to |channelTriggers|
        invariant results == MatchesAmong(channelTriggers[..i], m, regex)
      {
        assert channelTriggers[..i + 1][..i] == channelTriggers[..i];
        var (agentId, t) := channelTriggers[i];
        if t.channel != m.channel || (t.from.Some? && t.from.value != m.sender) {
          continue;
        }
        if t.fromDomain.Some? && !DomainMatches(m.sender, t.fromDomain.value) {
          continue;
        }
        if t.group.Some? && m.group != t.group {
          continue;
        }
        if t.pattern.Some? && regex(t.pattern.value, m.text) != Some(true) {
          continue;
        }
        if t.subjectPattern.Some? && (m.subject.None? || regex(t.subjectPattern.value, m.subject.value) != Some(true)) {
          continue;
        }
        results := results + [ChannelMatch(agentId, t.workflow, ResolveParams(t.params, m))];
      }
      assert channelTriggers[..|channelTriggers|] == channelTriggers;
    }

    /** The agents are visited in an unspecified order, which is returned. */
    method MatchEvent(eventType: string, properties: map<string, string>)
      returns (matches: seq<(string, EventTrigger)>, ghost order: seq<string>)
      ensures Enumerates(order, triggers.Keys) && matches == EventsInOrder(triggers, order, eventType, properties)
      ensures forall x :: x in matches <==>
                x.0 in triggers && Event(x.1) in triggers[x.0] && EventMatches(x.1, eventType, properties)
    {
      matches, order := [], [];
      var todo := triggers.Keys;
      while todo != {}
        invariant todo <= triggers.Keys && Enumerates(order, triggers.Keys - todo)
        invariant matches == EventsInOrder(triggers, order, eventType, properties)
      {
        var agentId :| agentId in todo;
        var defs := triggers[agentId];
        ghost var before := matches;
        for i := 0 to |defs|
          invariant matches == before + EventsAmong(agentId, defs[..i], eventType, properties)
        {
          assert defs[..i + 1][..i] == defs[..i];
          if defs[i].Event? && EventMatches(defs[i].e, eventType, properties) {
            matches := matches + [(agentId, defs[i].e)];
          }
        }
        assert defs[..|defs|] == defs;
        ExtendEnumeration(order, triggers.Keys - todo, agentId);
        assert triggers.Keys - (todo - {agentId}) == (triggers.Keys - todo) + {agentId};
        assert (order + [agentId])[..|order|] == order;
        order, todo := order + [agentId], todo - {agentId};
      }
      assert triggers.Keys - todo == triggers.Keys;
      forall x
        ensures x in matches <==> x.0 in triggers && Event(x.1) in triggers[x.0] && EventMatches(x.1, eventType, properties)
      {
        InEventsInOrder(triggers, order, eventType, properties, x);
      }
    }
  }

  function EventsAmong(agentId: string, defs: seq<TriggerDef>, eventType: string, properties: map<string, string>): seq<(string, EventTrigger)> {
    if defs == [] then []
    else
      var n := |defs| - 1;
      var before := EventsAmong(agentId, defs[..n], eventType, properties);
      if defs[n].Event? && EventMatches(defs[n].e, eventType, properties) then before + [(agentId, defs[n].e)] else before
  }

  function EventsInOrder(triggers: map<string, seq<TriggerDef>>, order: seq<string>, eventType: string, properties: map<string, string>)
    : seq<(string, EventTrigger)>
    requires forall a :: a in order ==> a in triggers
  {
    if order == [] then []
    else
      var a := order[|order| - 1];
      EventsInOrder(triggers, order[..|order| - 1], eventType, properties) + EventsAmong(a, triggers[a], eventType, properties)
  }

  lemma {:induction false} InEventsAmong(agentId: string, defs: seq<TriggerDef>, eventType: string, properties: map<string, string>,
                                         x: (string, EventTrigger))
    ensures x in EventsAmong(agentId, defs, eventType, properties)
       <==> x.0 == agentId && Event(x.1) in defs && EventMatches(x.1, eventType, properties)
  {
    if defs != [] {
      var n := |defs| - 1;
      InEventsAmong(agentId, defs[..n], eventType, properties, x);
      assert defs == defs[..n] + [defs[n]];
    }
  }

  /** Whatever the order, exactly the matching event triggers of all agents are reported. */
  lemma {:induction false} InEventsInOrder(triggers: map<string, seq<TriggerDef>>, order: seq<string>, eventType: string,
                                           properties: map<string, string>, x: (string, EventTrigger))
    requires forall a :: a in order ==> a in triggers
    ensures x in EventsInOrder(triggers, order, eventType, properties)
       <==> x.0 in order && Event(x.1) in triggers[x.0] && EventMatches(x.1, eventType, properties)
  {
    if order != [] {
      var n := |order| - 1;
      InEventsInOrder(triggers, order[..n], eventType, properties, x);
      InEventsAmong(order[n], triggers[order[n]], eventType, properties, x);
      assert order == order[..n] + [order[n]];
    }
  }

  // ---------------------------------------------------------------------------------------
  // The indexes agree with the triggers
  // ---------------------------------------------------------------------------------------

  function ChannelDefs(defs: seq<TriggerDef>): seq<ChannelTrigger> {
    if defs == [] then []
    else
      var n := |defs| - 1;
      var before := ChannelDefs(defs[..n]);
      if defs[n].Channel? then before + [defs[n].c] else before
  }

  function ChannelsOf(channels: seq<(string, ChannelTrigger)>, agentId: string): seq<ChannelTrigger> {
    if channels == [] then []
    else
      var n := |channels| - 1;
      var before := ChannelsOf(channels[..n], agentId);
      if channels[n].0 == agentId then before + [channels[n].1] else before
  }

  function DefsFor(e: Engine, agentId: string): seq<TriggerDef> {
    if agentId in e.triggers then e.triggers[agentId] else []
  }

  /** Restricted to an agent, the flat list is the agent's channel triggers, in order. */
  ghost predicate ChannelsAgree(e: Engine, agentId: string) {
    ChannelsOf(e.channels, agentId) == ChannelDefs(DefsFor(e, agentId))
  }

  /** The route belongs to a registered agent with a matching webhook trigger. */
  ghost predicate RouteIsBacked(path: string, r: WebhookRoute, defs: seq<TriggerDef>) {
    exists w :: Webhook(w) in defs && RoutePath(r.agentId, w.path) == path && r == RouteFor(r.agentId, w)
  }

  ghost predicate Consistent(e: Engine) {
    (forall a :: ChannelsAgree(e, a)) && (forall p :: BackedAt(e, p))
  }

  /** A route on this path has a registered owner with a matching trigger. */
  ghost predicate BackedAt(e: Engine, p: string) {
    p in e.routes ==> e.routes[p].agentId in e.triggers && RouteIsBacked(p, e.routes[p], e.triggers[e.routes[p].agentId])
  }

  lemma {:induction false} ChannelDefsOfConcat(a: seq<TriggerDef>, b: seq<TriggerDef>)
    ensures ChannelDefs(a + b) == ChannelDefs(a) + ChannelDefs(b)
  {
    if b == [] {
      assert a + b == a;
    } else {
      var n := |b| - 1;
      ChannelDefsOfConcat(a, b[..n]);
      assert (a + b)[..|a| + n] == a + b[..n];
    }
  }

  lemma {:induction false} NoChannelDefs(defs: seq<TriggerDef>)
    requires forall i :: 0 <= i < |defs| ==> !defs[i].Channel?
    ensures ChannelDefs(defs) == []
  {
    if defs != [] {
      NoChannelDefs(defs[..|defs| - 1]);
    }
  }

  lemma {:induction false} ChannelDefsOfDefs(s: seq<ScheduledTrigger>, e: seq<EventTrigger>, w: seq<WebhookTrigger>, c: seq<ChannelTrigger>)
    ensures ChannelDefs(ScheduledDefs(s)) == [] && ChannelDefs(EventDefs(e)) == [] && ChannelDefs(WebhookDefs(w)) == []
    ensures ChannelDefs(ChannelTriggerDefs(c)) == c
    decreases |s| + |e| + |w| + |c|
  {
    if s != [] {
      ChannelDefsOfDefs(s[..|s| - 1], e, w, c);
    } else if e != [] {
      ChannelDefsOfDefs(s, e[..|e| - 1], w, c);
    } else if w != [] {
      ChannelDefsOfDefs(s, e, w[..|w| - 1], c);
    } else if c != [] {
      ChannelDefsOfDefs(s, e, w, c[..|c| - 1]);
    }
  }

  lemma {:induction false} InWebhookDefs(webhooks: seq<WebhookTrigger>, w: WebhookTrigger)
    ensures Webhook(w) in WebhookDefs(webhooks) <==> w in webhooks
  {
    if webhooks != [] {
      var n := |webhooks| - 1;
      InWebhookDefs(webhooks[..n], w);
      assert webhooks == webhooks[..n] + [webhooks[n]];
    }
  }

  lemma {:induction false} DefsOfChannels(t: AgentTriggers)
    ensures ChannelDefs(DefsOf(t)) == t.channels
    ensures forall w :: w in t.webhooks ==> Webhook(w) in DefsOf(t)
  {
    var s, e, w, c := ScheduledDefs(t.scheduled), EventDefs(t.events), WebhookDefs(t.webhooks), ChannelTriggerDefs(t.channels);
    ChannelDefsOfDefs(t.scheduled, t.events, t.webhooks, t.channels);
    ChannelDefsOfConcat(s, e);
    ChannelDefsOfConcat(s + e, w);
    ChannelDefsOfConcat(s + e + w, c);
    forall x | x in t.webhooks
      ensures Webhook(x) in DefsOf(t)
    {
      InWebhookDefs(t.webhooks, x);
    }
  }

  lemma {:induction false} ChannelsOfTagged(channels: seq<(string, ChannelTrigger)>, agentId: string, added: seq<ChannelTrigger>, a: string)
    ensures ChannelsOf(channels + Tagged(agentId, added), a) == ChannelsOf(channels, a) + if a == agentId then added else []
  {
    var all := channels + Tagged(agentId, added);
    if added == [] {
      assert all == channels;
    } else {
      var n := |added| - 1;
      ChannelsOfTagged(channels, agentId, added[..n], a);
      assert all[..|all| - 1] == channels + Tagged(agentId, added[..n]);
      assert added == added[..n] + [added[n]];
    }
  }

  lemma {:induction false} ChannelsOfWithout(channels: seq<(string, ChannelTrigger)>, agentId: string, a: string)
    ensures ChannelsOf(Without(channels, agentId), a) == if a == agentId then [] else ChannelsOf(channels, a)
  {
    if channels != [] {
      var n := |channels| - 1;
      ChannelsOfWithout(channels[..n], agentId, a);
      var rest := Without(channels[..n], agentId);
      assert (rest + [channels[n]])[..|rest|] == rest;
    }
  }

  ghost predicate NewPath(agentId: string, webhooks: seq<WebhookTrigger>, p: string) {
    exists w :: w in webhooks && RoutePath(agentId, w.path) == p
  }

  /** The routes after a registration: those of the agent's webhooks, the last one for each path, and the old ones elsewhere. */
  lemma {:induction false} AddedRoutes(routes: map<string, WebhookRoute>, agentId: string, webhooks: seq<WebhookTrigger>, p: string)
    ensures var r := AddRoutes(routes, agentId, webhooks);
            && (p in r <==> p in routes || NewPath(agentId, webhooks, p))
            && (NewPath(agentId, webhooks, p) ==>
                  exists w :: w in webhooks && RoutePath(agentId, w.path) == p && r[p] == RouteFor(agentId, w))
            && (!NewPath(agentId, webhooks, p) && p in routes ==> r[p] == routes[p])
  {
    if webhooks != [] {
      var n := |webhooks| - 1;
      AddedRoutes(routes, agentId, webhooks[..n], p);
      assert webhooks == webhooks[..n] + [webhooks[n]];
      assert webhooks[n] in webhooks;
    }
  }

  /** A route that the agent still owns after registering the new triggers is backed by them. */
  ghost predicate StaysBacked(e: Engine, agentId: string, t: AgentTriggers, p: string) {
    p in e.routes && e.routes[p].agentId == agentId && !NewPath(agentId, t.webhooks, p) ==> RouteIsBacked(p, e.routes[p], DefsOf(t))
  }

  /** What a registration needs to keep the indexes consistent: nothing stale is left of the agent. */
  ghost predicate SafeToRegister(e: Engine, agentId: string, t: AgentTriggers) {
    ChannelsOf(e.channels, agentId) == [] && forall p :: StaysBacked(e, agentId, t, p)
  }

  lemma {:induction false} BackedAfterRegister(e: Engine, agentId: string, t: AgentTriggers, p: string)
    requires BackedAt(e, p)
    ensures BackedAt(Registered(e, agentId, t), p) <==> StaysBacked(e, agentId, t, p)
  {
    AddedRoutes(e.routes, agentId, t.webhooks, p);
    DefsOfChannels(t);
  }

  lemma {:induction false} AgreeAfterRegister(e: Engine, agentId: string, t: AgentTriggers, a: string)
    requires ChannelsAgree(e, a)
    ensures ChannelsAgree(Registered(e, agentId, t), a) <==> a != agentId || ChannelsOf(e.channels, agentId) == []
  {
    DefsOfChannels(t);
    ChannelsOfTagged(e.channels, agentId, t.channels, a);
    var stale := ChannelsOf(e.channels, a);
    assert stale == [] ==> stale + t.channels == t.channels;
    assert |stale + t.channels| == |stale| + |t.channels|;
    assert stale + [] == stale;
  }

  /**
   * Registration keeps the indexes consistent exactly when nothing stale is left of the agent: no
   * channel trigger in the flat list, and no route that the new triggers do not back.
   */
  lemma {:induction false} RegisterConsistentIff(e: Engine, agentId: string, t: AgentTriggers)
    requires Consistent(e)
    ensures Consistent(Registered(e, agentId, t)) <==> SafeToRegister(e, agentId, t)
  {
    var e' := Registered(e, agentId, t);
    forall a
      ensures ChannelsAgree(e', a) <==> a != agentId || ChannelsOf(e.channels, agentId) == []
    {
      AgreeAfterRegister(e, agentId, t, a);
    }
    forall p
      ensures BackedAt(e', p) <==> StaysBacked(e, agentId, t, p)
    {
      BackedAfterRegister(e, agentId, t, p);
    }
    assert ChannelsAgree(e', agentId) <==> ChannelsOf(e.channels, agentId) == [];
  }

  /** An agent that is not registered can always be registered. */
  lemma {:induction false} RegisterKeepsConsistent(e: Engine, agentId: string, t: AgentTriggers)
    requires Consistent(e) && agentId !in e.triggers
    ensures Consistent(Registered(e, agentId, t))
  {
    assert ChannelsAgree(e, agentId);
    forall p
      ensures StaysBacked(e, agentId, t, p)
    {
      assert BackedAt(e, p);
    }
    RegisterConsistentIff(e, agentId, t);
  }

  ghost predicate Mentions(e: Engine, agentId: string) {
    || agentId in e.triggers
    || (exists p :: p in e.routes && e.routes[p].agentId == agentId)
    || ChannelsOf(e.channels, agentId) != []
  }

  /** Unregistering removes every trace of the agent, leaves the other agents alone, and keeps the indexes consistent. */
  lemma {:induction false} UnregisterRemovesAgent(e: Engine, agentId: string)
    ensures var e' := Unregistered(e, agentId);
            && !Mentions(e', agentId)
            && (forall a :: a != agentId ==> DefsFor(e', a) == DefsFor(e, a) && ChannelsOf(e'.channels, a) == ChannelsOf(e.channels, a))
            && (forall p :: p in e.routes && e.routes[p].agentId != agentId ==> p in e'.routes && e'.routes[p] == e.routes[p])
            && (Consistent(e) ==> Consistent(e'))
  {
    var e' := Unregistered(e, agentId);
    ChannelsOfWithout(e.channels, agentId, agentId);
    forall a | a != agentId
      ensures DefsFor(e', a) == DefsFor(e, a) && ChannelsOf(e'.channels, a) == ChannelsOf(e.channels, a)
    {
      ChannelsOfWithout(e.channels, agentId, a);
    }
    if Consistent(e) {
      forall a
        ensures ChannelsAgree(e', a)
      {
        assert ChannelsAgree(e, a);
        ChannelsOfWithout(e.channels, agentId, a);
      }
      forall p
        ensures BackedAt(e', p)
      {
        assert BackedAt(e, p);
      }
    }
  }

  // ---------------------------------------------------------------------------------------
  // Disciplined runs
  // ---------------------------------------------------------------------------------------

  datatype Operation = Register(agentId: string, t: AgentTriggers) | Unregister(agentId: string)

  function Step(e: Engine, op: Operation): Engine {
    match op
    case Register(agentId, t) => Registered(e, agentId, t)
    case Unregister(agentId) => Unregistered(e, agentId)
  }

  ghost function RunFrom(e: Engine, ops: seq<Operation>): Engine
    decreases |ops|
  {
    if ops == [] then e else RunFrom(Step(e, ops[0]), ops[1..])
  }

  /** An agent is unregistered before it is registered again. */
  ghost predicate Disciplined(e: Engine, ops: seq<Operation>)
    decreases |ops|
  {
    ops == [] || ((ops[0].Register? ==> ops[0].agentId !in e.triggers) && Disciplined(Step(e, ops[0]), ops[1..]))
  }

  lemma {:induction false} DisciplinedRunsStayConsistent(e: Engine, ops: seq<Operation>)
    requires Consistent(e) && Disciplined(e, ops)
    ensures Consistent(RunFrom(e, ops))
    decreases |ops|
  {
    if ops != [] {
      match ops[0] {
        case Register(agentId, t) => RegisterKeepsConsistent(e, agentId, t);
        case Unregister(agentId) => UnregisterRemovesAgent(e, agentId);
      }
      DisciplinedRunsStayConsistent(Step(e, ops[0]), ops[1..]);
    }
  }

  // ---------------------------------------------------------------------------------------
  // Where a path leads after a run
  // ---------------------------------------------------------------------------------------

  ghost predicate Covers(op: Operation, p: string) { op.Register? && NewPath(op.agentId, op.t.webhooks, p) }

  ghost predicate Removes(op: Operation, agentId: string) { op.Unregister? && op.agentId == agentId }

  /** After operation `k` nobody took the path over, and the owner was not unregistered. */
  ghost predicate Undisturbed(ops: seq<Operation>, k: int, p: string, owner: string) {
    forall j :: k < j < |ops| && 0 <= j ==> !Covers(ops[j], p) && !Removes(ops[j], owner)
  }

  /** Operation `k` is the registration that the path leads to. */
  ghost predicate Leads(ops: seq<Operation>, k: nat, p: string) {
    k < |ops| && Covers(ops[k], p) && Undisturbed(ops, k, p, ops[k].agentId)
  }

  /** The route of the last webhook on the path. */
  ghost predicate IsRouteOfLast(r: WebhookRoute, agentId: string, webhooks: seq<WebhookTrigger>, p: string) {
    exists i: nat :: LastOnPath(agentId, webhooks, i, p)
                     && r == WebhookRoute(agentId, webhooks[i].chain, webhooks[i].secret, webhooks[i].params)
  }

  ghost predicate LastOnPath(agentId: string, webhooks: seq<WebhookTrigger>, i: nat, p: string) {
    && i < |webhooks| && RoutePath(agentId, webhooks[i].path) == p
    && forall j :: i < j < |webhooks| ==> RoutePath(agentId, webhooks[j].path) != p
  }

  lemma {:induction false} LastOnLongerPath(agentId: string, webhooks: seq<WebhookTrigger>, i: nat, p: string)
    requires webhooks != [] && RoutePath(agentId, webhooks[|webhooks| - 1].path) != p
    requires LastOnPath(agentId, webhooks[..|webhooks| - 1], i, p)
    ensures LastOnPath(agentId, webhooks, i, p)
  {
    var init := webhooks[..|webhooks| - 1];
    forall j | i < j < |webhooks|
      ensures RoutePath(agentId, webhooks[j].path) != p
    {
      assert j < |init| ==> webhooks[j] == init[j];
    }
  }

  lemma {:induction false} AddedRouteIsLast(routes: map<string, WebhookRoute>, agentId: string, webhooks: seq<WebhookTrigger>, p: string)
    requires NewPath(agentId, webhooks, p)
    ensures var r := AddRoutes(routes, agentId, webhooks); p in r && IsRouteOfLast(r[p], agentId, webhooks, p)
  {
    var n := |webhooks| - 1;
    assert webhooks == webhooks[..n] + [webhooks[n]];
    if RoutePath(agentId, webhooks[n].path) == p {
      assert LastOnPath(agentId, webhooks, n, p);
    } else {
      var init := webhooks[..n];
      AddedRouteIsLast(routes, agentId, init, p);
      var i: nat :| LastOnPath(agentId, init, i, p) && AddRoutes(routes, agentId, init)[p] == RouteFor(agentId, init[i]);
      LastOnLongerPath(agentId, webhooks, i, p);
      assert webhooks[i] == init[i];
    }
  }

  /** What a run does to the route on a path, from any engine on. */
  lemma {:induction false} RouteAfterRun(e: Engine, ops: seq<Operation>, p: string)
    ensures var routes := RunFrom(e, ops).routes;
            && (forall k: nat :: Leads(ops, k, p) ==> p in routes && IsRouteOfLast(routes[p], ops[k].agentId, ops[k].t.webhooks, p))
            && (p in routes ==> (exists k: nat :: Leads(ops, k, p)) || (p in e.routes && Undisturbed(ops, -1, p, e.routes[p].agentId)))
            && (p in e.routes && Undisturbed(ops, -1, p, e.routes[p].agentId) ==> p in routes && routes[p] == e.routes[p])
    decreases |ops|
  {
    if ops != [] {
      var rest, next := ops[1..], Step(e, ops[0]);
      RouteAfterRun(next, rest, p);
      RouteAfterStep(e, ops[0], p);
      forall k: nat, owner
        ensures Undisturbed(ops, k, p, owner) <==> Undisturbed(rest, k - 1, p, owner)
      {
        UndisturbedTail(ops, k, p, owner);
      }
      forall owner
        ensures Undisturbed(ops, -1, p, owner) <==> !Covers(ops[0], p) && !Removes(ops[0], owner) && Undisturbed(rest, -1, p, owner)
      {
        UndisturbedHead(ops, p, owner);
      }
      forall k: nat | k > 0
        ensures Leads(ops, k, p) <==> Leads(rest, k - 1, p)
      {
      }
      if k: nat :| Leads(rest, k, p) {
        assert Leads(ops, k + 1, p);
      } else if p in next.routes && Undisturbed(rest, -1, p, next.routes[p].agentId) && Covers(ops[0], p) {
        assert Leads(ops, 0, p);
      }
    }
  }

  lemma {:induction false} UndisturbedTail(ops: seq<Operation>, k: nat, p: string, owner: string)
    requires ops != []
    ensures Undisturbed(ops, k, p, owner) <==> Undisturbed(ops[1..], k - 1, p, owner)
  {
    var rest := ops[1..];
    assert forall j :: 0 <= j < |rest| ==> rest[j] == ops[j + 1];
    assert forall j :: 0 < j < |ops| ==> ops[j] == rest[j - 1];
  }

  lemma {:induction false} UndisturbedHead(ops: seq<Operation>, p: string, owner: string)
    requires ops != []
    ensures Undisturbed(ops, -1, p, owner) <==> !Covers(ops[0], p) && !Removes(ops[0], owner) && Undisturbed(ops[1..], -1, p, owner)
  {
    var rest := ops[1..];
    assert forall j :: 0 <= j < |rest| ==> rest[j] == ops[j + 1];
    assert forall j :: 0 < j < |ops| ==> ops[j] == rest[j - 1];
  }

  lemma {:induction false} RouteAfterStep(e: Engine, op: Operation, p: string)
    ensures var routes := Step(e, op).routes;
            && (Covers(op, p) ==> p in routes && routes[p].agentId == op.agentId && IsRouteOfLast(routes[p], op.agentId, op.t.webhooks, p))
            && (!Covers(op, p) ==> (p in routes <==> p in e.routes && !Removes(op, e.routes[p].agentId)) && (p in routes ==> routes[p] == e.routes[p]))
  {
    match op
    case Register(agentId, t) =>
      AddedRoutes(e.routes, agentId, t.webhooks, p);
      if NewPath(agentId, t.webhooks, p) {
        AddedRouteIsLast(e.routes, agentId, t.webhooks, p);
      }
    case Unregister(_) =>
  }

  /**
   * From the empty engine on, a path resolves exactly if some registration covers it that no later one
   * took over and whose agent was not unregistered since; it resolves to the last webhook on the path of
   * that registration.
   */
  lemma {:induction false} PathLeadsToLastRegistration(ops: seq<Operation>, p: string)
    ensures var routes := RunFrom(Engine(map[], map[], []), ops).routes;
            && (p in routes <==> exists k: nat :: Leads(ops, k, p))
            && forall k: nat :: Leads(ops, k, p) ==> p in routes && IsRouteOfLast(routes[p], ops[k].agentId, ops[k].t.webhooks, p)
  {
    RouteAfterRun(Engine(map[], map[], []), ops, p);
  }

  lemma {:induction false} WithoutAbsent(channels: seq<(string, ChannelTrigger)>, agentId: string, added: seq<ChannelTrigger>)
    requires ChannelsOf(channels, agentId) == []
    ensures Without(channels + Tagged(agentId, added), agentId) == channels
  {
    var all := channels + Tagged(agentId, added);
    if added != [] {
      WithoutAbsent(channels, agentId, added[..|added| - 1]);
      assert all[..|all| - 1] == channels + Tagged(agentId, added[..|added| - 1]);
    } else if channels != [] {
      var n := |channels| - 1;
      WithoutAbsent(channels[..n], agentId, []);
      assert all == channels && channels[..n] + Tagged(agentId, []) == channels[..n];
      assert channels == channels[..n] + [channels[n]];
    } else {
      assert all == [];
    }
  }

  /** What is left of the routes after a registration and an unregistration. */
  lemma {:induction false} RoutesLeft(e: Engine, agentId: string, t: AgentTriggers, p: string)
    requires Consistent(e) && agentId !in e.triggers
    ensures var routes := Unregistered(Registered(e, agentId, t), agentId).routes;
            (p in routes <==> p in e.routes && !NewPath(agentId, t.webhooks, p)) && (p in routes ==> routes[p] == e.routes[p])
  {
    assert BackedAt(e, p);
    AddedRoutes(e.routes, agentId, t.webhooks, p);
  }

  /** Unregistering undoes a registration exactly when it took over no route of another agent. */
  lemma {:induction false} UnregisterUndoesRegisterIff(e: Engine, agentId: string, t: AgentTriggers)
    requires Consistent(e) && agentId !in e.triggers
    ensures Unregistered(Registered(e, agentId, t), agentId) == e <==> forall w :: w in t.webhooks ==> RoutePath(agentId, w.path) !in e.routes
  {
    var e' := Unregistered(Registered(e, agentId, t), agentId);
    assert ChannelsAgree(e, agentId);
    WithoutAbsent(e.channels, agentId, t.channels);
    assert e'.triggers == e.triggers;
    forall p
      ensures (p in e'.routes <==> p in e.routes && !NewPath(agentId, t.webhooks, p)) && (p in e'.routes ==> e'.routes[p] == e.routes[p])
    {
      RoutesLeft(e, agentId, t, p);
    }
    SameRoutesIff(e.routes, e'.routes, agentId, t.webhooks);
  }

  lemma {:induction false} SameRoutesIff(before: map<string, WebhookRoute>, left: map<string, WebhookRoute>, agentId: string, webhooks: seq<WebhookTrigger>)
    requires forall p :: (p in left <==> p in before && !NewPath(agentId, webhooks, p)) && (p in left ==> left[p] == before[p])
    ensures left == before <==> forall w :: w in webhooks ==> RoutePath(agentId, w.path) !in before
  {
    if w :| w in webhooks && RoutePath(agentId, w.path) in before {
      assert NewPath(agentId, webhooks, RoutePath(agentId, w.path));
    }
  }

  // ---------------------------------------------------------------------------------------
  // The flat scan finds what a scan of the triggers finds
  // ---------------------------------------------------------------------------------------

  /** Scanning an agent's own triggers. */
  function MatchesOfAgent(agentId: string, defs: seq<TriggerDef>, m: Message, regex: RegexEngine): seq<ChannelMatch> {
    if defs == [] then []
    else
      var n := |defs| - 1;
      var before := MatchesOfAgent(agentId, defs[..n], m, regex);
      if defs[n].Channel? && ChannelMatches(defs[n].c, m, regex) then before + [ResultFor(agentId, defs[n].c, m)] else before
  }

  function ResultsOf(results: seq<ChannelMatch>, agentId: string): seq<ChannelMatch> {
    if results == [] then []
    else
      var n := |results| - 1;
      var before := ResultsOf(results[..n], agentId);
      if results[n].agentId == agentId then before + [results[n]] else before
  }

  function MatchesOfList(agentId: string, channels: seq<ChannelTrigger>, m: Message, regex: RegexEngine): seq<ChannelMatch> {
    if channels == [] then []
    else
      var n := |channels| - 1;
      var before := MatchesOfList(agentId, channels[..n], m, regex);
      if ChannelMatches(channels[n], m, regex) then before + [ResultFor(agentId, channels[n], m)] else before
  }

  lemma {:induction false} AgentScan(agentId: string, defs: seq<TriggerDef>, m: Message, regex: RegexEngine)
    ensures MatchesOfAgent(agentId, defs, m, regex) == MatchesOfList(agentId, ChannelDefs(defs), m, regex)
  {
    if defs != [] {
      var n := |defs| - 1;
      AgentScan(agentId, defs[..n], m, regex);
      var init := ChannelDefs(defs[..n]);
      if defs[n].Channel? {
        assert (init + [defs[n].c])[..|init|] == init;
      }
    }
  }

  lemma {:induction false} ResultsOfAppend(results: seq<ChannelMatch>, r: ChannelMatch, a: string)
    ensures ResultsOf(results + [r], a) == ResultsOf(results, a) + if r.agentId == a then [r] else []
  {
    assert (results + [r])[..|results|] == results;
  }

  lemma {:induction false} FlatScan(channels: seq<(string, ChannelTrigger)>, m: Message, regex: RegexEngine, a: string)
    ensures ResultsOf(MatchesAmong(channels, m, regex), a) == MatchesOfList(a, ChannelsOf(channels, a), m, regex)
  {
    if channels != [] {
      var n := |channels| - 1;
      FlatScan(channels[..n], m, regex, a);
      var (agentId, t) := channels[n];
      ResultsOfAppend(MatchesAmong(channels[..n], m, regex), ResultFor(agentId, t, m), a);
      var init := ChannelsOf(channels[..n], a);
      assert (init + [t])[..|init|] == init;
    }
  }

  /** For each agent, the flat scan reports exactly what scanning the agent's triggers reports, in the same order. */
  lemma {:induction false} FlatScanAgreesWithTriggers(e: Engine, m: Message, regex: RegexEngine, a: string)
    requires Consistent(e)
    ensures ResultsOf(MatchesAmong(e.channels, m, regex), a) == MatchesOfAgent(a, DefsFor(e, a), m, regex)
  {
    FlatScan(e.channels, m, regex, a);
    AgentScan(a, DefsFor(e, a), m, regex);
    assert ChannelsAgree(e, a);
  }

  /** A scan of all agents in some order. */
  ghost function ScanAgents(e: Engine, order: seq<string>, m: Message, regex: RegexEngine): seq<ChannelMatch> {
    if order == [] then []
    else ScanAgents(e, order[..|order| - 1], m, regex) + MatchesOfAgent(order[|order| - 1], DefsFor(e, order[|order| - 1]), m, regex)
  }

  lemma {:induction false} CountInResults(results: seq<ChannelMatch>, x: ChannelMatch)
    ensures multiset(results)[x] == multiset(ResultsOf(results, x.agentId))[x]
  {
    if results != [] {
      var n := |results| - 1;
      CountInResults(results[..n], x);
      assert results == results[..n] + [results[n]];
    }
  }

  lemma {:induction false} AgentMatchesBelong(agentId: string, defs: seq<TriggerDef>, m: Message, regex: RegexEngine)
    ensures forall x :: x in MatchesOfAgent(agentId, defs, m, regex) ==> x.agentId == agentId
  {
    if defs != [] {
      AgentMatchesBelong(agentId, defs[..|defs| - 1], m, regex);
    }
  }

  lemma {:induction false} CountInScan(e: Engine, order: seq<string>, m: Message, regex: RegexEngine, x: ChannelMatch)
    requires forall i, j :: 0 <= i < j < |order| ==> order[i] != order[j]
    ensures multiset(ScanAgents(e, order, m, regex))[x]
         == if x.agentId in order then multiset(MatchesOfAgent(x.agentId, DefsFor(e, x.agentId), m, regex))[x] else 0
  {
    if order != [] {
      var n := |order| - 1;
      CountInScan(e, order[..n], m, regex, x);
      AgentMatchesBelong(order[n], DefsFor(e, order[n]), m, regex);
      assert order == order[..n] + [order[n]];
      assert x.agentId != order[n] ==> x !in MatchesOfAgent(order[n], DefsFor(e, order[n]), m, regex);
      assert order[n] !in order[..n];
    }
  }

  /** The flat scan returns the same multiset as scanning the trigger map in any order of its keys. */
  lemma {:induction false} FlatScanIsMapScan(e: Engine, order: seq<string>, m: Message, regex: RegexEngine)
    requires Consistent(e) && Enumerates(order, e.triggers.Keys)
    ensures multiset(MatchesAmong(e.channels, m, regex)) == multiset(ScanAgents(e, order, m, regex))
  {
    forall x
      ensures multiset(MatchesAmong(e.channels, m, regex))[x] == multiset(ScanAgents(e, order, m, regex))[x]
    {
      CountInResults(MatchesAmong(e.channels, m, regex), x);
      FlatScanAgreesWithTriggers(e, m, regex, x.agentId);
      CountInScan(e, order, m, regex, x);
    }
  }

  /** The boundary check: the sender is the domain itself, or ends with the domain after a dot or an at sign. */
  lemma {:induction false} DomainMatchesIff(sender: string, domain: string)
    ensures DomainMatches(sender, domain) <==> sender == domain || EndsWith(sender, "." + domain) || EndsWith(sender, "@" + domain)
  {
    if |sender| > |domain| {
      var tail := sender[|sender| - |domain| - 1..];
      assert tail == [tail[0]] + sender[|sender| - |domain|..];
    } else if |sender| == |domain| {
      assert sender[0..] == sender;
    }
  }

  // ---------------------------------------------------------------------------------------
  // What the filters say
  // ---------------------------------------------------------------------------------------

  /** Why a trigger is passed over. */
  datatype Mismatch = OtherChannel | OtherSender | OtherDomain | OtherGroup | NoPattern | NoSubjectPattern

  /** The trigger has the filter and the message fails it. */
  ghost predicate Fails(t: ChannelTrigger, m: Message, regex: RegexEngine, why: Mismatch) {
    match why
    case OtherChannel => t.channel != m.channel
    case OtherSender => t.from.Some? && m.sender != t.from.value
    case OtherDomain =>
      t.fromDomain.Some? && m.sender != t.fromDomain.value
      && forall head :: m.sender != head + "." + t.fromDomain.value && m.sender != head + "@" + t.fromDomain.value
    case OtherGroup => t.group.Some? && (m.group.None? || m.group.value != t.group.value)
    case NoPattern => t.pattern.Some? && (regex(t.pattern.value, m.text).None? || !regex(t.pattern.value, m.text).value)
    case NoSubjectPattern =>
      t.subjectPattern.Some?
      && (m.subject.None? || regex(t.subjectPattern.value, m.subject.value).None? || !regex(t.subjectPattern.value, m.subject.value).value)
  }

  lemma {:induction false} DomainByParts(sender: string, domain: string)
    ensures DomainMatches(sender, domain)
       <==> sender == domain || exists head :: sender == head + "." + domain || sender == head + "@" + domain
  {
    DomainMatchesIff(sender, domain);
    if EndsWith(sender, "." + domain) {
      assert sender == sender[..|sender| - |domain| - 1] + "." + domain;
    }
    if EndsWith(sender, "@" + domain) {
      assert sender == sender[..|sender| - |domain| - 1] + "@" + domain;
    }
    if head :| sender == head + "." + domain || sender == head + "@" + domain {
      assert sender[|head|..] == "." + domain || sender[|head|..] == "@" + domain;
    }
  }

  /** A trigger matches exactly if the message fails none of its six filters. */
  lemma {:induction false} MatchesIffNothingFails(t: ChannelTrigger, m: Message, regex: RegexEngine)
    ensures ChannelMatches(t, m, regex) <==> forall why :: !Fails(t, m, regex, why)
  {
    if t.fromDomain.Some? {
      DomainByParts(m.sender, t.fromDomain.value);
    }
    if ChannelMatches(t, m, regex) {
      forall why
        ensures !Fails(t, m, regex, why)
      {
      }
    } else {
      assert Fails(t, m, regex, OtherChannel) || Fails(t, m, regex, OtherSender) || Fails(t, m, regex, OtherDomain)
          || Fails(t, m, regex, OtherGroup) || Fails(t, m, regex, NoPattern) || Fails(t, m, regex, NoSubjectPattern);
    }
  }

  /** Characters are the same up to ASCII case. */
  ghost predicate SameLetter(a: char, b: char) {
    a == b || ('A' <= a <= 'Z' && b as int == a as int + 32) || ('A' <= b <= 'Z' && a as int == b as int + 32)
  }

  /** An event matches exactly if its type is that of the trigger up to ASCII case and every filter entry is among its properties. */
  lemma {:induction false} EventMatchesIff(e: EventTrigger, eventType: string, properties: map<string, string>)
    ensures EventMatches(e, eventType, properties)
       <==> && |e.on| == |eventType| && (forall i :: 0 <= i < |e.on| ==> SameLetter(e.on[i], eventType[i]))
            && forall k :: k in e.filter ==> k in properties && properties[k] == e.filter[k]
  {
    if |e.on| == |eventType| {
      forall i | 0 <= i < |e.on|
        ensures AsciiLower(e.on[i]) == AsciiLower(eventType[i]) <==> SameLetter(e.on[i], eventType[i])
      {
        LowerIff(e.on[i], eventType[i]);
      }
    }
  }

  lemma {:induction false} LowerIff(a: char, b: char)
    ensures AsciiLower(a) == AsciiLower(b) <==> SameLetter(a, b)
  {
  }

  /** An absolute path is a route of its own; any other path is put below the agent. */
  lemma {:induction false} RoutePathIs(agentId: string, path: string)
    ensures path != "" && path[0] == '/' ==> RoutePath(agentId, path) == path
    ensures path == "" || path[0] != '/' ==> RoutePath(agentId, path) == "/hooks/" + agentId + "/" + path
  {
  }

  /** Relative paths of agents whose ids hold no slash never collide. */
  lemma {:induction false} RelativePathsAreSeparate(a: string, p: string, b: string, q: string)
    requires '/' !in a && '/' !in b && (p == "" || p[0] != '/') && (q == "" || q[0] != '/')
    ensures RoutePath(a, p) == RoutePath(b, q) <==> a == b && p == q
  {
    if RoutePath(a, p) == RoutePath(b, q) {
      var x, y := a + "/" + p, b + "/" + q;
      assert RoutePath(a, p) == "/hooks/" + a + "/" + p == "/hooks/" + x;
      assert RoutePath(b, q) == "/hooks/" + b + "/" + q == "/hooks/" + y;
      assert ("/hooks/" + x)[7..] == x && ("/hooks/" + y)[7..] == y;
      SameUpToSlash(a, p, b, q);
    }
  }

  lemma {:induction false} FirstSlash(a: string, p: string)
    requires '/' !in a
    ensures var x := a + "/" + p; x[|a|] == '/' && forall i :: 0 <= i < |a| ==> x[i] != '/'
  {
    var x := a + "/" + p;
    assert forall i :: 0 <= i < |a| ==> x[i] == a[i] && a[i] in a;
  }

  lemma {:induction false} SameUpToSlash(a: string, p: string, b: string, q: string)
    requires '/' !in a && '/' !in b && a + "/" + p == b + "/" + q
    ensures a == b && p == q
  {
    var x, y := a + "/" + p, b + "/" + q;
    FirstSlash(a, p);
    FirstSlash(b, q);
    assert x[..|a|] == a && y[..|b|] == b && x[|a| + 1..] == p && y[|b| + 1..] == q;
  }

  ghost predicate Produces(channels: seq<(string, ChannelTrigger)>, i: nat, m: Message, regex: RegexEngine, x: ChannelMatch) {
    && i < |channels| && ChannelMatches(channels[i].1, m, regex)
    && x == ChannelMatch(channels[i].0, channels[i].1.workflow, ResolveParams(channels[i].1.params, m))
  }

  /** A match is reported exactly if some matching trigger of the list produces it: its agent, its workflow and its resolved parameters. */
  lemma {:induction false} InMatches(channels: seq<(string, ChannelTrigger)>, m: Message, regex: RegexEngine, x: ChannelMatch)
    ensures x in MatchesAmong(channels, m, regex) <==> exists i: nat :: Produces(channels, i, m, regex, x)
  {
    if channels != [] {
      var n := |channels| - 1;
      InMatches(channels[..n], m, regex, x);
      assert forall i: nat :: i < n ==> Produces(channels, i, m, regex, x) == Produces(channels[..n], i, m, regex, x);
      assert Produces(channels, n, m, regex, x)
        <==> ChannelMatches(channels[n].1, m, regex) && x == ResultFor(channels[n].0, channels[n].1, m);
    }
  }

  lemma {:induction false} InScheduledDefs(ts: seq<ScheduledTrigger>, d: TriggerDef)
    ensures d in ScheduledDefs(ts) <==> d.Scheduled? && d.s in ts
  {
    if ts != [] {
      var n := |ts| - 1;
      InScheduledDefs(ts[..n], d);
      assert ts == ts[..n] + [ts[n]];
    }
  }

  lemma {:induction false} InEventDefs(ts: seq<EventTrigger>, d: TriggerDef)
    ensures d in EventDefs(ts) <==> d.Event? && d.e in ts
  {
    if ts != [] {
      var n := |ts| - 1;
      InEventDefs(ts[..n], d);
      assert ts == ts[..n] + [ts[n]];
    }
  }

  lemma {:induction false} InDefsOfWebhooks(ts: seq<WebhookTrigger>, d: TriggerDef)
    ensures d in WebhookDefs(ts) <==> d.Webhook? && d.w in ts
  {
    if ts != [] {
      var n := |ts| - 1;
      InDefsOfWebhooks(ts[..n], d);
      assert ts == ts[..n] + [ts[n]];
    }
  }

  lemma {:induction false} InChannelDefs(ts: seq<ChannelTrigger>, d: TriggerDef)
    ensures d in ChannelTriggerDefs(ts) <==> d.Channel? && d.c in ts
  {
    if ts != [] {
      var n := |ts| - 1;
      InChannelDefs(ts[..n], d);
      assert ts == ts[..n] + [ts[n]];
    }
  }

  /** The definitions of an agent are exactly its triggers. */
  lemma {:induction false} DefsAreTriggers(t: AgentTriggers, d: TriggerDef)
    ensures d in DefsOf(t) <==>
      match d
      case Scheduled(s) => s in t.scheduled
      case Event(e) => e in t.events
      case Webhook(w) => w in t.webhooks
      case Channel(c) => c in t.channels
  {
    InScheduledDefs(t.scheduled, d);
    InEventDefs(t.events, d);
    InDefsOfWebhooks(t.webhooks, d);
    InChannelDefs(t.channels, d);
  }
}
