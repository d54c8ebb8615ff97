// Expansion of agent groups into agents: staggers, offsets that run on from group to group, and the
// automatic start of each phase.
module GroupExpansion {
  import opened Basics
  import Spawn = SpawnSchedule

  const DEFAULT_UPGRADE_STAGGER := 30
  const DEFAULT_RESTART_GAP := 300

  // A property value. Durations and plain numbers are read as seconds.
  datatype Value = Time(seconds: int) | Auto | Text(text: string) | Many(values: seq<Value>)

  type Config = map<string, Value>

  datatype Stagger =
    | Same
    | Linear(interval: int)
    | Batched(params: Spawn.Params)
    | Listed(values: seq<Value>)
    | Drawn(draw: nat -> Value)

  datatype Field = Field(key: string, value: Value)

  // The fields of a group in document order, without the ones that end in _stagger; those are
  // the staggers, under the key they apply to. A reversed range has no ids and a count below 1.
  datatype Group = Group(ids: seq<string>, count: int, fields: seq<Field>, staggers: map<string, Stagger>) {
    ghost predicate Valid() {
      && |ids| == Max(count, 0)
      && forall key :: key in staggers && staggers[key].Batched? ==> Spawn.Ends(staggers[key].params, count)
    }

    // Ranges and documents name nothing twice.
    ghost predicate Unique() {
      Distinct(ids) && forall i, j :: 0 <= i < j < |fields| ==> fields[i].key != fields[j].key
    }

    predicate Has(key: string) {
      exists k :: 0 <= k < |fields| && fields[k].key == key
    }

    // A group of several agents never upgrades all of them at once.
    function WithDefault(s: map<string, Stagger>, key: string): map<string, Stagger> {
      if count > 1 && Has(key) && key !in s then s[key := Linear(DEFAULT_UPGRADE_STAGGER)] else s
    }

    function Effective(): map<string, Stagger> {
      WithDefault(WithDefault(staggers, "daemon_0_stop"), "wallet_0_stop")
    }
  }

  // ---------------------------------------------------------------- which fields run on

  predicate At(s: string, word: string, i: nat) {
    i + |word| <= |s| && s[i..i + |word|] == word
  }

  predicate Contains(s: string, word: string) {
    exists i :: 0 <= i <= |s| && At(s, word, i)
  }

  predicate IsStop(prefix: string, key: string) {
    At(key, prefix, 0) && Contains(key, "stop")
  }

  predicate IsPhase(prefix: string, key: string) {
    At(key, prefix, 0) && (Contains(key, "stop") || (Contains(key, "start") && '0' !in key))
  }

  datatype Offsets = Offsets(daemon: int, wallet: int)

  function OffsetFor(key: string, o: Offsets): int {
    if IsPhase("daemon_", key) then o.daemon
    else if IsPhase("wallet_", key) then o.wallet
    else 0
  }

  function AfterStop(key: string, count: int, o: Offsets): Offsets {
    if IsStop("daemon_", key) then o.(daemon := o.daemon + count)
    else if IsStop("wallet_", key) then o.(wallet := o.wallet + count)
    else o
  }

  // ---------------------------------------------------------------- what a group expands to

  function Repeat(v: Value, count: int): (r: seq<Value>) {
    seq(Max(count, 0), i => v)
  }

  function BaseSeconds(v: Value): int {
    if v.Time? then v.seconds else 0
  }

  ghost function Expanded(v: Value, s: Stagger, count: int, offset: int): (r: Option<seq<Value>>)
    requires s.Batched? ==> Spawn.Ends(s.params, count)
    ensures r.Some? ==> |r.value| == Max(count, 0)
  {
    var n, base := Max(count, 0), BaseSeconds(v);
    match s
    case Same => Some(Repeat(v, count))
    case Linear(interval) => Some(seq(n, i => Time(base + (offset + i) * interval)))
    case Batched(p) =>
      Spawn.TimesLength(p, count);
      Some(seq(n, i requires 0 <= i < n => Time(base + Spawn.Times(p, count)[i])))
    case Listed(values) => if |values| == count then Some(values) else None
    case Drawn(draw) => Some(seq(n, i requires 0 <= i => draw(i)))
  }

  method ExpandStagger(v: Value, s: Stagger, count: int, offset: int) returns (r: Option<seq<Value>>)
    requires s.Batched? ==> Spawn.Ends(s.params, count)
    ensures r == Expanded(v, s, count, offset)
    ensures r.None? <==> s.Listed? && |s.values| != count
    ensures r.Some? ==> |r.value| == Max(count, 0)
    ensures s.Same? ==> forall x :: x in r.value ==> x == v
    ensures s.Linear? ==> forall i :: 0 <= i < |r.value| ==> r.value[i] == Time((if v.Time? then v.seconds else 0) + (offset + i) * s.interval)
    ensures s.Batched? ==> |r.value| == |Spawn.Times(s.params, count)|
    ensures s.Batched? ==> forall i :: 0 <= i < |r.value| ==> r.value[i] == Time((if v.Time? then v.seconds else 0) + Spawn.Times(s.params, count)[i])
    ensures s.Listed? && r.Some? ==> r.value == s.values
    ensures s.Drawn? ==> forall i :: 0 <= i < |r.value| ==> r.value[i] == s.draw(i)
  {
    var n, base := Max(count, 0), BaseSeconds(v);
    match s {
      case Same => r := Some(Repeat(v, count));
      case Linear(interval) => r := Some(seq(n, i => Time(base + (offset + i) * interval)));
      case Batched(p) =>
        var schedule := Spawn.CalculateBatchedSchedule(p, count);
        Spawn.TimesLength(p, count);
        r := Some(seq(n, i requires 0 <= i < n => Time(base + schedule[i])));
      case Listed(values) => r := if |values| == count then Some(values) else None;
      case Drawn(draw) => r := Some(seq(n, i requires 0 <= i => draw(i)));
    }
  }

  // The offsets after the first n fields of a group that begins with offsets o.
  function OffsetsAt(g: Group, o: Offsets, n: nat): Offsets
    requires n <= |g.fields|
  {
    if n == 0 then o
    else
      var key := g.fields[n - 1].key;
      if key in g.Effective() then AfterStop(key, g.count, OffsetsAt(g, o, n - 1)) else OffsetsAt(g, o, n - 1)
  }

  lemma {:induction false} EffectiveValid(g: Group, key: string)
    requires g.Valid() && key in g.Effective() && g.Effective()[key].Batched?
    ensures Spawn.Ends(g.Effective()[key].params, g.count)
  {
  }

  // The values of field k, one for each agent; none when the document is refused.
  ghost function Column(g: Group, o: Offsets, k: nat): (r: Option<seq<Value>>)
    requires g.Valid() && k < |g.fields|
    ensures r.Some? ==> |r.value| == |g.ids|
  {
    var Field(key, value) := g.fields[k];
    if key in g.Effective() then
      if g.Effective()[key].Batched? then
        EffectiveValid(g, key);
        Expanded(value, g.Effective()[key], g.count, OffsetFor(key, OffsetsAt(g, o, k)))
      else Expanded(value, g.Effective()[key], g.count, OffsetFor(key, OffsetsAt(g, o, k)))
    else if value.Many? && |value.values| == g.count then Some(value.values)
    else Some(Repeat(value, g.count))
  }

  ghost predicate ExpandsTo(g: Group, o: Offsets, n: nat)
    requires g.Valid() && n <= |g.fields|
  {
    forall k :: 0 <= k < n ==> Column(g, o, k).Some?
  }

  ghost predicate Expands(g: Group, o: Offsets) {
    g.Valid() && ExpandsTo(g, o, |g.fields|)
  }

  // The columns of the first n fields.
  ghost function Columns(g: Group, o: Offsets, n: nat): (r: map<string, seq<Value>>)
    requires g.Valid() && n <= |g.fields| && ExpandsTo(g, o, n)
    ensures forall key :: key in r ==> |r[key]| == |g.ids|
  {
    if n == 0 then map[]
    else Columns(g, o, n - 1)[g.fields[n - 1].key := Column(g, o, n - 1).value]
  }

  function Row(columns: map<string, seq<Value>>, i: nat): Config
    requires forall key :: key in columns ==> i < |columns[key]|
  {
    map key | key in columns :: columns[key][i]
  }

  ghost function AgentConfig(g: Group, o: Offsets, i: nat): Config
    requires Expands(g, o) && i < |g.ids|
  {
    Row(Columns(g, o, |g.fields|), i)
  }

  // The agents so far, and then the first m of a group.
  ghost function WithAgents(agents: map<string, Config>, g: Group, o: Offsets, m: nat): map<string, Config>
    requires Expands(g, o) && m <= |g.ids|
  {
    if m == 0 then agents
    else WithAgents(agents, g, o, m - 1)[g.ids[m - 1] := AgentConfig(g, o, m - 1)]
  }

  function OffsetsBefore(groups: seq<Group>, n: nat): Offsets
    requires n <= |groups|
  {
    if n == 0 then Offsets(0, 0)
    else OffsetsAt(groups[n - 1], OffsetsBefore(groups, n - 1), |groups[n - 1].fields|)
  }

  ghost predicate ExpandsAt(groups: seq<Group>, g: nat)
    requires g < |groups|
  {
    Expands(groups[g], OffsetsBefore(groups, g))
  }

  ghost predicate AllExpand(groups: seq<Group>, n: nat)
    requires n <= |groups|
  {
    forall g {:trigger ExpandsAt(groups, g)} :: 0 <= g < n ==> ExpandsAt(groups, g)
  }

  ghost function Agents(groups: seq<Group>, n: nat): map<string, Config>
    requires n <= |groups| && AllExpand(groups, n)
  {
    if n == 0 then map[]
    else
      assert ExpandsAt(groups, n - 1);
      WithAgents(Agents(groups, n - 1), groups[n - 1], OffsetsBefore(groups, n - 1), |groups[n - 1].ids|)
  }

  // ---------------------------------------------------------------- the expansion itself

  method ExpandField(g: Group, o: Offsets, k: nat, ghost start: Offsets) returns (values: Option<seq<Value>>, next: Offsets)
    requires g.Valid() && k < |g.fields| && o == OffsetsAt(g, start, k)
    ensures values == Column(g, start, k) && next == OffsetsAt(g, start, k + 1)
  {
    var Field(key, value) := g.fields[k];
    var staggers := g.Effective();
    next := o;
    if key in staggers {
      if staggers[key].Batched? {
        EffectiveValid(g, key);
      }
      values := ExpandStagger(value, staggers[key], g.count, OffsetFor(key, o));
      next := AfterStop(key, g.count, o);
    } else if value.Many? && |value.values| == g.count {
      values := Some(value.values);
    } else {
      values := Some(Repeat(value, g.count));
    }
  }

  method ExpandFields(g: Group, start: Offsets) returns (columns: Option<map<string, seq<Value>>>, o: Offsets)
    requires g.Valid()
    ensures columns.Some? <==> Expands(g, start)
    ensures columns.Some? ==> o == OffsetsAt(g, start, |g.fields|) && columns.value == Columns(g, start, |g.fields|)
  {
    o := start;
    var done: map<string, seq<Value>> := map[];
    for k := 0 to |g.fields|
      invariant o == OffsetsAt(g, start, k)
      invariant ExpandsTo(g, start, k) && done == Columns(g, start, k)
    {
      var values, next := ExpandField(g, o, k, start);
      if values.None? {
        return None, o;
      }
      done := done[g.fields[k].key := values.value];
      o := next;
    }
    columns := Some(done);
  }

  method AddAgents(agents: map<string, Config>, g: Group, columns: map<string, seq<Value>>, ghost o: Offsets)
    returns (r: map<string, Config>)
    requires Expands(g, o) && columns == Columns(g, o, |g.fields|)
    ensures r == WithAgents(agents, g, o, |g.ids|)
  {
    r := agents;
    for i := 0 to |g.ids|
      invariant r == WithAgents(agents, g, o, i)
    {
      r := r[g.ids[i] := Row(columns, i)];
    }
  }

  method ExpandGroup(agents: map<string, Config>, g: Group, o: Offsets)
    returns (r: Option<map<string, Config>>, next: Offsets)
    requires g.Valid()
    ensures r.Some? <==> Expands(g, o)
    ensures r.Some? ==> r.value == WithAgents(agents, g, o, |g.ids|) && next == OffsetsAt(g, o, |g.fields|)
  {
    var columns;
    columns, next := ExpandFields(g, o);
    if columns.None? {
      r := None;
    } else {
      var all := AddAgents(agents, g, columns.value, o);
      r := Some(all);
    }
  }

  // The state of the loop over the groups before group n.
  ghost predicate Reached(groups: seq<Group>, n: nat, agents: map<string, Config>, o: Offsets) {
    n <= |groups| && o == OffsetsBefore(groups, n) && AllExpand(groups, n) && agents == Agents(groups, n)
  }

  lemma {:induction false} OneMoreGroup(groups: seq<Group>, n: nat, agents: map<string, Config>, o: Offsets)
    requires Reached(groups, n, agents, o) && n < |groups|
    ensures if Expands(groups[n], o)
            then Reached(groups, n + 1, WithAgents(agents, groups[n], o, |groups[n].ids|), OffsetsAt(groups[n], o, |groups[n].fields|))
            else !AllExpand(groups, |groups|)
  {
    assert ExpandsAt(groups, n) <==> Expands(groups[n], o);
  }

  ghost predicate AllValid(groups: seq<Group>) {
    forall g {:trigger groups[g].Valid()} :: 0 <= g < |groups| ==> groups[g].Valid()
  }

  method ExpandAgentGroups(groups: seq<Group>) returns (agents: Option<map<string, Config>>)
    requires AllValid(groups)
    ensures agents.Some? <==> AllExpand(groups, |groups|)
    ensures agents.Some? ==> agents.value == Agents(groups, |groups|)
  {
    var o, all: map<string, Config> := Offsets(0, 0), map[];
    var n := 0;
    while n < |groups|
      invariant Reached(groups, n, all, o)
    {
      OneMoreGroup(groups, n, all, o);
      var expanded, next := ExpandGroup(all, groups[n], o);
      if expanded.None? {
        return None;
      }
      all, o, n := expanded.value, next, n + 1;
    }
    agents := Some(all);
  }

  // ---------------------------------------------------------------- automatic phase starts

  function StartOf(c: Config): Value {
    if "start_time" in c then c["start_time"] else Time(0)
  }

  // A restart a fixed gap after the stop; a missing stop reads as 0, one that is no time is refused.
  function Restart(c: Config, stop: string): Option<Value> {
    if stop !in c then Some(Time(DEFAULT_RESTART_GAP))
    else if c[stop].Time? then Some(Time(c[stop].seconds + DEFAULT_RESTART_GAP))
    else None
  }

  // What an agent's field becomes; only automatic phase starts change.
  function ResolvedField(c: Config, key: string): Option<Value>
    requires key in c
  {
    if c[key] != Auto then Some(c[key])
    else if key == "daemon_0_start" || key == "wallet_0_start" then Some(StartOf(c))
    else if key == "daemon_1_start" then Restart(c, "daemon_0_stop")
    else if key == "wallet_1_start" then Restart(c, "wallet_0_stop")
    else Some(Auto)
  }

  ghost predicate Resolves(c: Config, r: Config) {
    r.Keys == c.Keys && forall key :: key in c ==> ResolvedField(c, key) == Some(r[key])
  }

  // The fields that are resolved, in the order of the assignments.
  const PHASE_STARTS := ["daemon_0_start", "daemon_1_start", "wallet_0_start", "wallet_1_start"]

  // The first n assignments are done: r is c with those fields resolved.
  ghost predicate PartlyResolved(c: Config, r: Config, n: nat)
    requires n <= |PHASE_STARTS|
  {
    && r.Keys == c.Keys
    && forall key :: key in c ==> if key in PHASE_STARTS[..n] then ResolvedField(c, key) == Some(r[key]) else r[key] == c[key]
  }

  // No assignment reads what an earlier one wrote.
  lemma {:induction false} ReadsUntouched(c: Config, r: Config, n: nat)
    requires n < |PHASE_STARTS| && PartlyResolved(c, r, n)
    ensures PHASE_STARTS[n] in c ==> PHASE_STARTS[n] in r && r[PHASE_STARTS[n]] == c[PHASE_STARTS[n]]
    ensures PHASE_STARTS[n] in c ==> ResolvedField(r, PHASE_STARTS[n]) == ResolvedField(c, PHASE_STARTS[n])
  {
    assert forall key :: key in PHASE_STARTS[..n] ==> key != "start_time" && key != "daemon_0_stop" && key != "wallet_0_stop" && key != PHASE_STARTS[n];
  }

  lemma {:induction false} OneMoreResolved(c: Config, r: Config, n: nat)
    requires n < |PHASE_STARTS| && PartlyResolved(c, r, n)
    ensures PHASE_STARTS[n] !in c ==> PartlyResolved(c, r, n + 1)
    ensures forall v :: PHASE_STARTS[n] in c && ResolvedField(c, PHASE_STARTS[n]) == Some(v) ==> PartlyResolved(c, r[PHASE_STARTS[n] := v], n + 1)
  {
    assert PHASE_STARTS[..n + 1] == PHASE_STARTS[..n] + [PHASE_STARTS[n]];
  }

  method ResolvePhaseStarts(c: Config) returns (r: Option<Config>)
    ensures r.Some? ==> Resolves(c, r.value)
    ensures r.None? <==> exists key :: key in c && ResolvedField(c, key).None?
  {
    var now := c;
    for n := 0 to |PHASE_STARTS|
      invariant PartlyResolved(c, now, n)
    {
      var key := PHASE_STARTS[n];
      ReadsUntouched(c, now, n);
      OneMoreResolved(c, now, n);
      if key in now && now[key] == Auto {
        var v := ResolvedField(now, key);
        if v.None? {
          return None;
        }
        now := now[key := v.value];
      } else if key in now {
        assert now == now[key := c[key]];
      }
    }
    assert PHASE_STARTS[..|PHASE_STARTS|] == PHASE_STARTS;
    assert forall key :: key in c && key !in PHASE_STARTS ==> ResolvedField(c, key) == Some(c[key]);
    r := Some(now);
  }
}
