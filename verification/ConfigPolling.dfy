/** Configuration delivery: two versioned rows on the server, one entity tag, and the agent that polls.

    The tag of the merged configuration is the larger of the two row versions. The rows that do not
    exist count as an empty configuration with version 0.
  */
module ConfigPolling {

  import opened Common

  // A field that is null counts as not set.
  datatype Value = Null | Scalar(text: string) | Object(fields: map<string, Value>)

  // Configuration objects, merged key by key at the top level.
  type Json = map<string, Value>

  datatype AgentId = AgentId(id: int)

  datatype Agent = Agent(id: AgentId, agentType: string)

  datatype Row = Row(config: Json, version: int)

  // The rows of one organisation.
  datatype Rows = Rows(types: map<string, Row>, overrides: map<AgentId, Row>)

  // What the handler works out about the caller.
  datatype Identity = Identity(agent: Option<AgentId>, agentType: string)

  function Find<K>(rows: map<K, Row>, k: K): Option<Row> {
    if k in rows then Some(rows[k]) else None
  }

  function ConfigOf(row: Option<Row>): Json {
    if row.Some? then row.value.config else map[]
  }

  function VersionOf(row: Option<Row>): int {
    if row.Some? then row.value.version else 0
  }

  function Upserted(row: Option<Row>, config: Json): Row {
    Row(config, if row.Some? then row.value.version + 1 else 1)
  }

  function TypeRow(rows: Rows, who: Identity): Option<Row> {
    Find(rows.types, who.agentType)
  }

  function OverrideRow(rows: Rows, who: Identity): Option<Row> {
    if who.agent.None? then None else Find(rows.overrides, who.agent.value)
  }

  function Merged(rows: Rows, who: Identity): Json {
    ConfigOf(TypeRow(rows, who)) + ConfigOf(OverrideRow(rows, who))
  }

  function Tag(rows: Rows, who: Identity): int {
    Max(VersionOf(TypeRow(rows, who)), VersionOf(OverrideRow(rows, who)))
  }

  // Server-side defaults fill what is missing at any depth; a field that is null and has no default
  // is left out.
  function Complete(defaults: Value, given: Value): Value
    decreases given
  {
    if given.Null? then defaults
    else if given.Scalar? then given
    else
      var d := if defaults.Object? then defaults.fields else map[];
      var keys := set k | k in d.Keys + given.fields.Keys && (k in d || given.fields[k] != Null);
      Object(map k | k in keys ::
        if k !in given.fields then d[k]
        else Complete(if k in d then d[k] else Null, given.fields[k]))
  }

  const DEFAULT_DEVELOPER := Object(map[
    "enabled" := Scalar("true"),
    "max_concurrent" := Scalar("1"),
    "workspace_dir" := Scalar("./workspaces"),
    "allow_pr_merging" := Scalar("false"),
    "allow_auto_issue_processing" := Scalar("false")])

  const DEFAULT_CREATIVITY := Object(map[
    "enabled" := Scalar("true"),
    "idle_threshold_seconds" := Scalar("120"),
    "suggestion_cooldown_seconds" := Scalar("300"),
    "max_pending_suggestions" := Scalar("5"),
    "max_rejection_history" := Scalar("50")])

  const DEFAULT_DECOMPOSITION := Object(map[
    "enabled" := Scalar("true"),
    "max_iteration_budget" := Scalar("250"),
    "max_subtasks" := Scalar("5")])

  const DEFAULT_MEMORY := Object(map[
    "enabled" := Scalar("true"),
    "max_entries" := Scalar("100"),
    "max_prompt_size" := Scalar("8000"),
    "extract_on_complete" := Scalar("true")])

  const SERVER_DEFAULTS: Json := map[
    "agents" := Object(map["developer" := DEFAULT_DEVELOPER]),
    "creativity" := DEFAULT_CREATIVITY,
    "decomposition" := DEFAULT_DECOMPOSITION,
    "memory" := DEFAULT_MEMORY]

  function ApplyServerDefaults(config: Json): Json {
    Complete(Object(SERVER_DEFAULTS), Object(config)).fields
  }

  function Delivered(rows: Rows, who: Identity): Json {
    ApplyServerDefaults(Merged(rows, who))
  }

  // Identity comes from the API key, then from the query, then from the registered agent.
  function Identify(keyType: string, queryType: string, found: Option<Agent>): Identity {
    var named := if keyType != "" then keyType else queryType;
    var known := if named == "" && found.Some? then found.value.agentType else named;
    Identity(
      if found.Some? then Some(found.value.id) else None,
      if known == "" then "developer" else known)
  }

  // The agent's side: the tag it sends, and the configuration it was last given.
  datatype Poller = Poller(tag: Option<int>, config: Option<Json>)

  const NEW_POLLER := Poller(None, None)

  // `arrives` is false for a request that fails on the way, on the server, or in decoding.
  datatype Op =
    | UpsertType(agentType: string, config: Json)
    | UpsertOverride(agent: AgentId, config: Json)
    | DeleteOverride(agent: AgentId)
    | Poll(who: Identity, arrives: bool)

  datatype System = System(rows: Rows, poller: Poller)

  predicate NotModified(rows: Rows, p: Poller, who: Identity) {
    p.tag == Some(Tag(rows, who))
  }

  function AfterPoll(rows: Rows, p: Poller, who: Identity, arrives: bool): Poller {
    if !arrives || NotModified(rows, p, who) then p
    else Poller(Some(Tag(rows, who)), Some(Delivered(rows, who)))
  }

  function AfterWrite(rows: Rows, op: Op): Rows {
    match op
    case UpsertType(t, config) => rows.(types := rows.types[t := Upserted(Find(rows.types, t), config)])
    case UpsertOverride(a, config) => rows.(overrides := rows.overrides[a := Upserted(Find(rows.overrides, a), config)])
    case DeleteOverride(a) => rows.(overrides := rows.overrides - {a})
    case Poll(_, _) => rows
  }

  function Next(s: System, op: Op): System {
    System(AfterWrite(s.rows, op), if op.Poll? then AfterPoll(s.rows, s.poller, op.who, op.arrives) else s.poller)
  }

  function Run(s: System, ops: seq<Op>): System
    decreases |ops|
  {
    if ops == [] then s else Run(Next(s, ops[0]), ops[1..])
  }

  // ---------------------------------------------------------------- the objects

  class ConfigStore {
    var rows: Rows

    constructor ()
      ensures rows == Rows(map[], map[])
    {
      rows := Rows(map[], map[]);
    }

    // A transaction that does not commit leaves the rows as they were.
    method UpsertAgentTypeConfig(agentType: string, config: Json, commits: bool) returns (row: Option<Row>)
      modifies this
      ensures rows == if commits then AfterWrite(old(rows), UpsertType(agentType, config)) else old(rows)
      ensures commits ==> agentType in rows.types && rows.types[agentType].config == config
      ensures row == if commits then Find(rows.types, agentType) else None
    {
      row := None;
      if commits {
        var next := Row(config, 1);
        if agentType in rows.types {
          next := Row(config, rows.types[agentType].version + 1);
        }
        rows := rows.(types := rows.types[agentType := next]);
        row := Some(next);
      }
    }

    method UpsertAgentOverride(agent: AgentId, config: Json, commits: bool) returns (row: Option<Row>)
      modifies this
      ensures rows == if commits then AfterWrite(old(rows), UpsertOverride(agent, config)) else old(rows)
      ensures commits ==> agent in rows.overrides && rows.overrides[agent].config == config
      ensures row == if commits then Find(rows.overrides, agent) else None
    {
      row := None;
      if commits {
        var next := Row(config, 1);
        if agent in rows.overrides {
          next := Row(config, rows.overrides[agent].version + 1);
        }
        rows := rows.(overrides := rows.overrides[agent := next]);
        row := Some(next);
      }
    }

    method DeleteAgentOverride(agent: AgentId, succeeds: bool) returns (ok: bool)
      modifies this
      ensures rows == if succeeds then AfterWrite(old(rows), DeleteOverride(agent)) else old(rows)
      ensures ok == succeeds
    {
      ok := succeeds;
      if succeeds {
        rows := rows.(overrides := rows.overrides - {agent});
      }
    }

    method GetMergedConfig(who: Identity) returns (config: Json, version: int)
      ensures config == Merged(rows, who) && version == Tag(rows, who)
    {
      var override := OverrideRow(rows, who);
      config := ConfigOf(TypeRow(rows, who)) + ConfigOf(override);
      version := Max(VersionOf(TypeRow(rows, who)), VersionOf(override));
    }

    // A body of `None` is the answer 304; `succeeds` is false when the rows cannot be read or decoded.
    method HandleIngestConfig(keyName: string, keyType: string, queryName: string, queryType: string,
                              registered: map<string, Agent>, ifNoneMatch: Option<int>, succeeds: bool)
      returns (ok: bool, tag: int, body: Option<Json>)
      ensures ok == succeeds
      ensures ok ==>
        var name := if keyName != "" then keyName else queryName;
        var found := if name != "" && name in registered then Some(registered[name]) else None;
        var who := Identify(keyType, queryType, found);
        && tag == Tag(rows, who)
        && body == if ifNoneMatch == Some(tag) then None else Some(Delivered(rows, who))
    {
      var agentName, agentType := keyName, keyType;
      if agentName == "" {
        agentName := queryName;
      }
      if agentType == "" {
        agentType := queryType;
      }
      var agentId: Option<AgentId> := None;
      if agentName != "" && agentName in registered {
        agentId := Some(registered[agentName].id);
        if agentType == "" {
          agentType := registered[agentName].agentType;
        }
      }
      if agentType == "" {
        agentType := "developer";
      }
      var merged;
      merged, tag := GetMergedConfig(Identity(agentId, agentType));
      ok := succeeds;
      body := if ifNoneMatch == Some(tag) then None else Some(ApplyServerDefaults(merged));
    }
  }

  class ConfigFetcher {
    var lastTag: Option<int>
    ghost var delivered: Option<Json>

    ghost function State(): Poller
      reads this
    {
      Poller(lastTag, delivered)
    }

    constructor ()
      ensures State() == NEW_POLLER
    {
      lastTag, delivered := None, None;
    }

    // The server answers `tag` and `body`; the caller of a successful fetch is given `config`.
    method FetchConfig(rows: Rows, who: Identity, arrives: bool) returns (config: Option<Json>)
      modifies this
      ensures State() == AfterPoll(rows, old(State()), who, arrives)
      ensures config == if arrives && !NotModified(rows, old(State()), who) then Some(Delivered(rows, who)) else None
    {
      config := None;
      if arrives {
        var tag := Tag(rows, who);
        if lastTag != Some(tag) {
          config := Some(Delivered(rows, who));
          lastTag, delivered := Some(tag), config;
        }
      }
    }
  }

  // ---------------------------------------------------------------- what the rows hold

  // The configuration that a type was given last, if it was given one.
  function LastForType(ops: seq<Op>, t: string): Option<Json>
    decreases |ops|
  {
    if ops == [] then None else
      var last := ops[|ops| - 1];
      if last.UpsertType? && last.agentType == t then Some(last.config) else LastForType(ops[..|ops| - 1], t)
  }

  // What was done to an agent's override last. No value means that it was not touched; the value
  // `None` stands for its deletion.
  function LastForAgent(ops: seq<Op>, a: AgentId): Option<Option<Json>>
    decreases |ops|
  {
    if ops == [] then None else
      var last := ops[|ops| - 1];
      if last.UpsertOverride? && last.agent == a then Some(Some(last.config))
      else if last.DeleteOverride? && last.agent == a then Some(None)
      else LastForAgent(ops[..|ops| - 1], a)
  }

  function Stored<K>(rows: map<K, Row>, k: K): Option<Json> {
    if k in rows then Some(rows[k].config) else None
  }

  lemma {:induction false} RunAppendOne(s: System, ops: seq<Op>, op: Op)
    ensures Run(s, ops + [op]) == Next(Run(s, ops), op)
    decreases |ops|
  {
    if ops == [] {
      assert ops + [op] == [op] && [op][1..] == [];
      assert Run(s, [op]) == Run(Next(s, op), []);
    } else {
      assert (ops + [op])[0] == ops[0] && (ops + [op])[1..] == ops[1..] + [op];
      RunAppendOne(Next(s, ops[0]), ops[1..], op);
    }
  }

  lemma WriteStores(s: System, op: Op, t: string, a: AgentId)
    ensures var s' := Next(s, op);
      && Stored(s'.rows.types, t) ==
         (if op.UpsertType? && op.agentType == t then Some(op.config) else Stored(s.rows.types, t))
      && Stored(s'.rows.overrides, a) ==
         (if op.UpsertOverride? && op.agent == a then Some(op.config)
          else if op.DeleteOverride? && op.agent == a then None
          else Stored(s.rows.overrides, a))
  {
  }

  // After any operations whatever, every row holds what it was given last, and a row that was not
  // touched holds what it held.
  lemma {:induction false} RowsHoldTheLast(s: System, ops: seq<Op>, t: string, a: AgentId)
    ensures var s' := Run(s, ops);
      && Stored(s'.rows.types, t) ==
         (if LastForType(ops, t).Some? then LastForType(ops, t) else Stored(s.rows.types, t))
      && Stored(s'.rows.overrides, a) ==
         (if LastForAgent(ops, a).Some? then LastForAgent(ops, a).value else Stored(s.rows.overrides, a))
    decreases |ops|
  {
    if ops != [] {
      var before, last := ops[..|ops| - 1], ops[|ops| - 1];
      assert ops == before + [last];
      RowsHoldTheLast(s, before, t, a);
      RunAppendOne(s, before, last);
      WriteStores(Run(s, before), last, t, a);
    }
  }

  // A poll that arrives leaves the agent with the tag of the moment. It is given the configuration
  // of the moment unless that is the tag it came with.
  lemma PollDelivers(s: System, who: Identity)
    ensures var s' := Next(s, Poll(who, true));
      && s'.rows == s.rows
      && s'.poller.tag == Some(Max(VersionOf(TypeRow(s.rows, who)), VersionOf(OverrideRow(s.rows, who))))
      && s'.poller.config == (if s'.poller.tag == s.poller.tag then s.poller.config else Some(Delivered(s.rows, who)))
    ensures Next(s, Poll(who, false)) == s
  {
  }

  // The key decides who is asking before the query does, and the query before the registration.
  lemma WhoIsAsking(keyType: string, queryType: string, found: Option<Agent>)
    ensures var who := Identify(keyType, queryType, found);
      var registered := if found.Some? then found.value.agentType else "";
      && who.agent == (if found.Some? then Some(found.value.id) else None)
      && (keyType != "" ==> who.agentType == keyType)
      && (keyType == "" && queryType != "" ==> who.agentType == queryType)
      && (keyType == "" && queryType == "" && registered != "" ==> who.agentType == registered)
      && (keyType == "" && queryType == "" && registered == "" ==> who.agentType == "developer")
  {
  }

  // ---------------------------------------------------------------- without an override

  predicate PollsAs(ops: seq<Op>, who: Identity) {
    forall k :: 0 <= k < |ops| && ops[k].Poll? ==> ops[k].who == who
  }

  predicate Overrides(op: Op, who: Identity) {
    op.UpsertOverride? && who.agent == Some(op.agent)
  }

  predicate NoOverride(ops: seq<Op>, who: Identity) {
    forall k :: 0 <= k < |ops| ==> !Overrides(ops[k], who)
  }

  // The tag is never ahead of the rows, and a tag that is current stands for what was delivered.
  predicate Coherent(s: System, who: Identity) {
    s.poller.tag.Some? ==>
      && s.poller.tag.value <= Tag(s.rows, who)
      && (NotModified(s.rows, s.poller, who) ==> s.poller.config == Some(Delivered(s.rows, who)))
  }

  predicate VersionsPositive(rows: Rows) {
    && (forall t :: t in rows.types ==> rows.types[t].version >= 1)
    && (forall a :: a in rows.overrides ==> rows.overrides[a].version >= 1)
  }

  lemma NextKeepsCoherent(s: System, who: Identity, op: Op)
    requires VersionsPositive(s.rows) && Coherent(s, who) && OverrideRow(s.rows, who).None?
    requires !Overrides(op, who) && (op.Poll? ==> op.who == who)
    ensures VersionsPositive(Next(s, op).rows) && Coherent(Next(s, op), who) && OverrideRow(Next(s, op).rows, who).None?
  {
  }

  // As long as the agent has no override row, a 304 means that it has the current configuration.
  lemma {:induction false} NotModifiedIsCurrent(s: System, who: Identity, ops: seq<Op>)
    requires VersionsPositive(s.rows) && Coherent(s, who) && OverrideRow(s.rows, who).None?
    requires PollsAs(ops, who) && NoOverride(ops, who)
    ensures var s' := Run(s, ops);
      Coherent(s', who) && (NotModified(s'.rows, s'.poller, who) ==> s'.poller.config == Some(Delivered(s'.rows, who)))
    decreases |ops|
  {
    if ops != [] {
      assert !Overrides(ops[0], who);
      NextKeepsCoherent(s, who, ops[0]);
      NotModifiedIsCurrent(Next(s, ops[0]), who, ops[1..]);
    }
  }

  // ---------------------------------------------------------------- with an override, without deletion

  function TypeUpserts(ops: seq<Op>, who: Identity): nat {
    if ops == [] then 0 else
      (if ops[0].UpsertType? && ops[0].agentType == who.agentType then 1 else 0) + TypeUpserts(ops[1..], who)
  }

  function OverrideUpserts(ops: seq<Op>, who: Identity): nat {
    if ops == [] then 0 else (if Overrides(ops[0], who) then 1 else 0) + OverrideUpserts(ops[1..], who)
  }

  predicate Writes(ops: seq<Op>) {
    forall k :: 0 <= k < |ops| ==> ops[k].UpsertType? || ops[k].UpsertOverride?
  }

  lemma {:induction false} VersionsCountUpserts(s: System, who: Identity, ops: seq<Op>)
    requires Writes(ops)
    ensures var s' := Run(s, ops);
      && s'.poller == s.poller
      && VersionOf(TypeRow(s'.rows, who)) == VersionOf(TypeRow(s.rows, who)) + TypeUpserts(ops, who)
      && VersionOf(OverrideRow(s'.rows, who)) == VersionOf(OverrideRow(s.rows, who)) + OverrideUpserts(ops, who)
    decreases |ops|
  {
    if ops != [] {
      assert ops[0].UpsertType? || ops[0].UpsertOverride?;
      VersionsCountUpserts(Next(s, ops[0]), who, ops[1..]);
    }
  }

  predicate Synced(s: System, who: Identity) {
    s.poller == Poller(Some(Tag(s.rows, who)), Some(Delivered(s.rows, who)))
  }

  // While the agent's tag is current, whether or not its configuration is, writes stay hidden exactly
  // as long as neither row's version passes the larger of the two.
  lemma HiddenIff(s: System, who: Identity, ops: seq<Op>)
    requires NotModified(s.rows, s.poller, who) && Writes(ops)
    ensures var s' := Run(s, ops);
      NotModified(s'.rows, s'.poller, who) <==>
        && VersionOf(TypeRow(s.rows, who)) + TypeUpserts(ops, who) <= Tag(s.rows, who)
        && VersionOf(OverrideRow(s.rows, who)) + OverrideUpserts(ops, who) <= Tag(s.rows, who)
  {
    VersionsCountUpserts(s, who, ops);
  }

  // Without an override row nothing is ever hidden: a 304 comes exactly if the row was not written.
  lemma NothingHiddenWithoutOverride(s: System, who: Identity, ops: seq<Op>)
    requires NotModified(s.rows, s.poller, who) && Writes(ops) && NoOverride(ops, who)
    requires VersionsPositive(s.rows) && OverrideRow(s.rows, who).None?
    ensures var s' := Run(s, ops);
      NotModified(s'.rows, s'.poller, who) <==> TypeUpserts(ops, who) == 0
  {
    HiddenIff(s, who, ops);
    NoOverrideUpserts(ops, who);
  }

  lemma {:induction false} NoOverrideUpserts(ops: seq<Op>, who: Identity)
    requires NoOverride(ops, who)
    ensures OverrideUpserts(ops, who) == 0
    decreases |ops|
  {
    if ops != [] {
      assert !Overrides(ops[0], who);
      NoOverrideUpserts(ops[1..], who);
    }
  }

  // One write: hidden exactly when the new version does not exceed the other row's version.
  lemma TypeUpsertHiddenIff(s: System, who: Identity, config: Json)
    requires NotModified(s.rows, s.poller, who)
    ensures var s' := Next(s, UpsertType(who.agentType, config));
      NotModified(s'.rows, s'.poller, who) <==>
        VersionOf(TypeRow(s'.rows, who)) <= VersionOf(OverrideRow(s'.rows, who))
  {
  }

  lemma OverrideUpsertHiddenIff(s: System, who: Identity, config: Json)
    requires NotModified(s.rows, s.poller, who) && who.agent.Some?
    ensures var s' := Next(s, UpsertOverride(who.agent.value, config));
      NotModified(s'.rows, s'.poller, who) <==>
        VersionOf(OverrideRow(s'.rows, who)) <= VersionOf(TypeRow(s'.rows, who))
  {
  }

  // In particular, an agent whose type is configured never sees its first override.
  lemma FirstOverrideIsHidden(s: System, who: Identity, config: Json)
    requires NotModified(s.rows, s.poller, who) && who.agent.Some? && VersionsPositive(s.rows)
    requires OverrideRow(s.rows, who).None? && TypeRow(s.rows, who).Some?
    ensures var s' := Next(s, UpsertOverride(who.agent.value, config));
      NotModified(s'.rows, s'.poller, who) && Merged(s'.rows, who) == Merged(s.rows, who) + config
  {
    OverrideUpsertHiddenIff(s, who, config);
    assert ConfigOf(TypeRow(s.rows, who)) + map[] == ConfigOf(TypeRow(s.rows, who));
  }

  // A hidden write stays hidden, whatever the number of polls, until a version passes the tag.
  lemma {:induction false} StaleUntilPassed(s: System, who: Identity, ops: seq<Op>)
    requires NotModified(s.rows, s.poller, who) && PollsAs(ops, who)
    requires forall k :: 0 <= k < |ops| ==> ops[k].Poll?
    ensures Run(s, ops) == s
    decreases |ops|
  {
    if ops != [] {
      assert ops[0].Poll? && ops[0].who == who;
      StaleUntilPassed(s, who, ops[1..]);
    }
  }

  // ---------------------------------------------------------------- what a delivered configuration says

  // The value at the end of a path of keys.
  function At(v: Value, path: seq<string>): Option<Value>
    decreases |path|
  {
    if path == [] then Some(v)
    else if v.Object? && path[0] in v.fields then At(v.fields[path[0]], path[1..])
    else None
  }

  // Nothing is set along the path: it ends in, or runs into, a null or a missing key.
  predicate Silent(v: Value, path: seq<string>)
    decreases |path|
  {
    || v.Null?
    || (v.Object? && path != [] && (path[0] in v.fields ==> Silent(v.fields[path[0]], path[1..])))
  }

  predicate Whole(v: Value) {
    !v.Null? && (v.Object? ==> forall k :: k in v.fields ==> Whole(v.fields[k]))
  }

  // A field that is set is delivered as it is, and one that is not set has its default.
  lemma {:induction false} SetOrDefault(defaults: Value, given: Value, path: seq<string>)
    ensures At(given, path).Some? && At(given, path).value.Scalar? ==>
              At(Complete(defaults, given), path) == At(given, path)
    ensures Silent(given, path) && (Whole(defaults) || defaults.Null?) ==>
              At(Complete(defaults, given), path) == At(defaults, path)
    decreases |path|
  {
    if path != [] && given.Object? && path[0] in given.fields {
      var k := path[0];
      var d := if defaults.Object? && k in defaults.fields then defaults.fields[k] else Null;
      SetOrDefault(d, given.fields[k], path[1..]);
    }
  }

  lemma {:induction false} CompleteSelf(v: Value)
    requires Whole(v)
    ensures Complete(v, v) == v
  {
    if v.Object? {
      forall k | k in v.fields ensures Complete(v.fields[k], v.fields[k]) == v.fields[k] {
        CompleteSelf(v.fields[k]);
      }
      assert Complete(v, v).fields == v.fields;
    }
  }

  // A configuration that has its defaults is not changed by applying them once more.
  lemma {:induction false} CompleteTwice(defaults: Value, given: Value)
    requires Whole(defaults) || defaults.Null?
    ensures Complete(defaults, Complete(defaults, given)) == Complete(defaults, given)
    decreases given
  {
    var once := Complete(defaults, given);
    if given.Null? {
      if Whole(defaults) {
        CompleteSelf(defaults);
      }
    } else if given.Object? {
      var d := if defaults.Object? then defaults.fields else map[];
      forall k | k in once.fields
        ensures once.fields[k] != Null
        ensures Complete(if k in d then d[k] else Null, once.fields[k]) == once.fields[k]
      {
        if k in given.fields {
          CompleteTwice(if k in d then d[k] else Null, given.fields[k]);
        } else {
          CompleteSelf(d[k]);
        }
      }
      assert Complete(defaults, once).fields == once.fields;
    }
  }

  // The merge is shallow: a section of the override hides the whole section of the type row, also
  // the fields that it does not set. Those have their defaults.
  lemma OverrideReplacesSection(rows: Rows, who: Identity, section: string, path: seq<string>)
    requires OverrideRow(rows, who).Some? && section in ConfigOf(OverrideRow(rows, who))
    ensures Silent(ConfigOf(OverrideRow(rows, who))[section], path) ==>
              At(Object(Delivered(rows, who)), [section] + path) == At(Object(SERVER_DEFAULTS), [section] + path)
  {
    var given := ConfigOf(OverrideRow(rows, who))[section];
    var whole := [section] + path;
    assert whole[1..] == path && Merged(rows, who)[section] == given;
    DefaultsAreWhole();
    SetOrDefault(Object(SERVER_DEFAULTS), Object(Merged(rows, who)), whole);
  }

  // What an agent of this type without an override is given.
  function Alone(rows: Rows, who: Identity): Json {
    ApplyServerDefaults(ConfigOf(TypeRow(rows, who)))
  }

  // Exactly when a field that the override does not set keeps the value it has without the
  // override: its whole section is missing there, or the value is the default anyway.
  lemma FieldKeptIff(rows: Rows, who: Identity, section: string, path: seq<string>)
    requires var given := ConfigOf(OverrideRow(rows, who)); section in given ==> Silent(given[section], path)
    ensures At(Object(Delivered(rows, who)), [section] + path) == At(Object(Alone(rows, who)), [section] + path)
       <==> || section !in ConfigOf(OverrideRow(rows, who))
            || At(Object(Alone(rows, who)), [section] + path) == At(Object(SERVER_DEFAULTS), [section] + path)
  {
    if section in ConfigOf(OverrideRow(rows, who)) {
      OverrideReplacesSection(rows, who, section, path);
    }
  }

  lemma DefaultsAreWhole()
    ensures Whole(Object(SERVER_DEFAULTS))
  {
    FlatIsWhole(DEFAULT_DEVELOPER);
    FlatIsWhole(DEFAULT_CREATIVITY);
    FlatIsWhole(DEFAULT_DECOMPOSITION);
    FlatIsWhole(DEFAULT_MEMORY);
  }

  lemma FlatIsWhole(v: Value)
    requires v.Object? && forall k :: k in v.fields ==> v.fields[k].Scalar?
    ensures Whole(v)
  {
  }

  // ---------------------------------------------------------------- deletion, and a change of identity

  lemma DeleteHiddenIff(s: System, who: Identity)
    requires NotModified(s.rows, s.poller, who) && who.agent.Some? && VersionsPositive(s.rows)
    ensures var s' := Next(s, DeleteOverride(who.agent.value));
      NotModified(s'.rows, s'.poller, who) <==>
        VersionOf(OverrideRow(s.rows, who)) <= VersionOf(TypeRow(s.rows, who))
  {
  }

  // After a deletion, any further writes are hidden exactly when the versions they lead to come back
  // to the tag. The override row starts again from nothing.
  lemma AfterDeleteHiddenIff(s: System, who: Identity, ops: seq<Op>)
    requires NotModified(s.rows, s.poller, who) && who.agent.Some? && Writes(ops)
    ensures var s' := Run(Next(s, DeleteOverride(who.agent.value)), ops);
      NotModified(s'.rows, s'.poller, who) <==>
        Max(VersionOf(TypeRow(s.rows, who)) + TypeUpserts(ops, who), OverrideUpserts(ops, who)) == Tag(s.rows, who)
  {
    VersionsCountUpserts(Next(s, DeleteOverride(who.agent.value)), who, ops);
  }

  // In particular the tag can come back to a value that stood for something else.
  lemma DeletedThenUpserted(s: System, who: Identity, config: Json)
    requires NotModified(s.rows, s.poller, who) && who.agent.Some? && VersionsPositive(s.rows)
    requires VersionOf(OverrideRow(s.rows, who)) == VersionOf(TypeRow(s.rows, who)) + 1
    ensures var s' := Run(s, [DeleteOverride(who.agent.value), UpsertType(who.agentType, config)]);
      NotModified(s'.rows, s'.poller, who) && Merged(s'.rows, who) == config
  {
    var ops := [DeleteOverride(who.agent.value), UpsertType(who.agentType, config)];
    var s1 := Next(s, ops[0]);
    assert ops[1..] == [ops[1]] && ops[1..][1..] == [];
    assert Run(s, ops) == Run(s1, ops[1..]) == Next(s1, ops[1]);
    assert config + map[] == config;
  }

  // A poller that the server takes for another agent, or for another type, keeps the old
  // configuration whenever the two tags happen to be equal.
  lemma ChangedIdentityHiddenIff(s: System, before: Identity, now: Identity)
    requires Synced(s, before)
    ensures var s' := Next(s, Poll(now, true));
      (s' == s <==> Tag(s.rows, now) == Tag(s.rows, before) || Synced(s, now))
      && (s' != s ==> Synced(s', now))
  {
  }
}
