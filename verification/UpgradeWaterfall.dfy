// What the expansion of groups means for upgrades: the stops of daemons, and those of wallets, form
// one waterfall over the whole scenario, each followed by its automatic restart.
module UpgradeWaterfall {
  import opened Basics
  import opened GroupExpansion
  import Spawn = SpawnSchedule

  // ---------------------------------------------------------------- the waterfall

  // Daemons and wallets are upgraded in the same way, each with an offset of its own.
  datatype Kind = Daemon | Wallet

  function Prefix(kind: Kind): string {
    if kind == Daemon then "daemon_" else "wallet_"
  }

  function StopKey(kind: Kind): string {
    if kind == Daemon then "daemon_0_stop" else "wallet_0_stop"
  }

  function StartKey(kind: Kind): string {
    if kind == Daemon then "daemon_1_start" else "wallet_1_start"
  }

  function Of(o: Offsets, kind: Kind): int {
    if kind == Daemon then o.daemon else o.wallet
  }

  lemma {:induction false} PrefixesDiffer(key: string)
    ensures !(At(key, "daemon_", 0) && At(key, "wallet_", 0))
  {
    assert At(key, "daemon_", 0) ==> key[0] == 'd';
    assert At(key, "wallet_", 0) ==> key[0] == 'w';
  }

  // The phase fields of a kind take its offset, its stops advance it, and no other field has one.
  lemma {:induction false} OffsetOfPhase(kind: Kind, key: string, count: int, o: Offsets)
    ensures IsPhase(Prefix(kind), key) ==> OffsetFor(key, o) == Of(o, kind)
    ensures !IsPhase("daemon_", key) && !IsPhase("wallet_", key) ==> OffsetFor(key, o) == 0
    ensures Of(AfterStop(key, count, o), kind) == Of(o, kind) + if IsStop(Prefix(kind), key) then count else 0
  {
    PrefixesDiffer(key);
  }

  lemma {:induction false} StopRunsOn(kind: Kind)
    ensures IsStop(Prefix(kind), StopKey(kind)) && IsPhase(Prefix(kind), StopKey(kind)) && IsPhase(Prefix(kind), StartKey(kind))
  {
    assert At(StopKey(kind), "stop", 9) && At(StartKey(kind), "start", 9);
  }

  ghost predicate Upgrades(kind: Kind, g: Group) {
    g.Has(StopKey(kind)) && StopKey(kind) in g.Effective()
  }

  // Field k is a staggered stop of a daemon.
  ghost predicate StaggeredStop(kind: Kind, g: Group, k: nat)
    requires k < |g.fields|
  {
    g.fields[k].key in g.Effective() && IsStop(Prefix(kind), g.fields[k].key)
  }

  // Field k is the first stop, and staggered.
  ghost predicate FirstStop(kind: Kind, g: Group, k: nat)
    requires k < |g.fields|
  {
    g.fields[k].key == StopKey(kind) && StopKey(kind) in g.Effective()
  }

  ghost predicate OtherStop(kind: Kind, g: Group, k: nat)
    requires k < |g.fields|
  {
    StaggeredStop(kind, g, k) && !FirstStop(kind, g, k)
  }

  // What the staggered stops other than the first one add to the offset in the first n fields.
  ghost function OwnDrift(kind: Kind, g: Group, n: nat): int
    requires n <= |g.fields|
  {
    if n == 0 then 0 else OwnDrift(kind, g, n - 1) + if OtherStop(kind, g, n - 1) then g.count else 0
  }

  ghost predicate StopBefore(kind: Kind, g: Group, n: nat)
    requires n <= |g.fields|
  {
    exists k :: 0 <= k < n && FirstStop(kind, g, k)
  }

  lemma {:induction false} OffsetStep(kind: Kind, g: Group, o: Offsets, n: nat)
    requires 0 < n <= |g.fields|
    ensures Of(OffsetsAt(g, o, n), kind) == Of(OffsetsAt(g, o, n - 1), kind) + if StaggeredStop(kind, g, n - 1) then g.count else 0
  {
    OffsetOfPhase(kind, g.fields[n - 1].key, g.count, OffsetsAt(g, o, n - 1));
  }

  lemma {:induction false} FirstStopOnce(kind: Kind, g: Group, n: nat)
    requires g.Unique() && 0 < n <= |g.fields|
    ensures FirstStop(kind, g, n - 1) ==> StaggeredStop(kind, g, n - 1) && !StopBefore(kind, g, n - 1)
    ensures StopBefore(kind, g, n) <==> StopBefore(kind, g, n - 1) || FirstStop(kind, g, n - 1)
  {
    StopRunsOn(kind);
  }

  lemma {:induction false} OffsetInGroup(kind: Kind, g: Group, o: Offsets, n: nat)
    requires g.Unique() && n <= |g.fields|
    ensures Of(OffsetsAt(g, o, n), kind) == Of(o, kind) + OwnDrift(kind, g, n) + if StopBefore(kind, g, n) then g.count else 0
  {
    if n > 0 {
      OffsetInGroup(kind, g, o, n - 1);
      OffsetStep(kind, g, o, n);
      FirstStopOnce(kind, g, n);
    }
  }

  lemma {:induction false} UpgradesIsStop(kind: Kind, g: Group)
    ensures Upgrades(kind, g) <==> StopBefore(kind, g, |g.fields|)
  {
    if Upgrades(kind, g) {
      var k :| 0 <= k < |g.fields| && g.fields[k].key == StopKey(kind);
      assert FirstStop(kind, g, k);
    }
    if StopBefore(kind, g, |g.fields|) {
      var k :| 0 <= k < |g.fields| && FirstStop(kind, g, k);
      assert g.fields[k].key == StopKey(kind);
    }
  }

  // The number of agents upgraded in the first n groups.
  ghost function UpgradedBefore(kind: Kind, groups: seq<Group>, n: nat): int
    requires n <= |groups|
  {
    if n == 0 then 0 else UpgradedBefore(kind, groups, n - 1) + if Upgrades(kind, groups[n - 1]) then groups[n - 1].count else 0
  }

  // The same over the first n groups.
  ghost function Drift(kind: Kind, groups: seq<Group>, n: nat): int
    requires n <= |groups|
  {
    if n == 0 then 0 else Drift(kind, groups, n - 1) + OwnDrift(kind, groups[n - 1], |groups[n - 1].fields|)
  }

  lemma {:induction false} OffsetBeforeGroup(kind: Kind, groups: seq<Group>, n: nat)
    requires AllUnique(groups) && n <= |groups|
    ensures Of(OffsetsBefore(groups, n), kind) == UpgradedBefore(kind, groups, n) + Drift(kind, groups, n)
  {
    if n > 0 {
      OffsetBeforeGroup(kind, groups, n - 1);
      var g := groups[n - 1];
      OffsetInGroup(kind, g, OffsetsBefore(groups, n - 1), |g.fields|);
      UpgradesIsStop(kind, g);
    }
  }

  // ---- looking an agent's field up in the expanded scenario

  ghost predicate AllUnique(groups: seq<Group>) {
    forall g {:trigger groups[g].Unique()} :: 0 <= g < |groups| ==> groups[g].Unique()
  }

  lemma {:induction false} ColumnsHold(g: Group, o: Offsets, n: nat, k: nat)
    requires g.Valid() && g.Unique() && k < n <= |g.fields| && ExpandsTo(g, o, n)
    ensures g.fields[k].key in Columns(g, o, n) && Columns(g, o, n)[g.fields[k].key] == Column(g, o, k).value
  {
    if k < n - 1 {
      ColumnsHold(g, o, n - 1, k);
    }
  }

  lemma {:induction false} OthersKept(agents: map<string, Config>, g: Group, o: Offsets, m: nat, id: string)
    requires Expands(g, o) && m <= |g.ids| && id in agents && id !in g.ids[..m]
    ensures id in WithAgents(agents, g, o, m) && WithAgents(agents, g, o, m)[id] == agents[id]
  {
    if m > 0 {
      OthersKept(agents, g, o, m - 1, id);
      assert g.ids[..m] == g.ids[..m - 1] + [g.ids[m - 1]];
    }
  }

  lemma {:induction false} AgentAdded(agents: map<string, Config>, g: Group, o: Offsets, m: nat, i: nat)
    requires Expands(g, o) && g.Unique() && i < m <= |g.ids|
    ensures g.ids[i] in WithAgents(agents, g, o, m) && WithAgents(agents, g, o, m)[g.ids[i]] == AgentConfig(g, o, i)
  {
    if i < m - 1 {
      AgentAdded(agents, g, o, m - 1, i);
    }
  }

  // Agent i of group g is not named again by a group before group n.
  ghost predicate LastNamed(groups: seq<Group>, g: nat, i: nat, n: nat)
    requires g < n <= |groups| && i < |groups[g].ids|
  {
    forall h :: g < h < n ==> groups[g].ids[i] !in groups[h].ids
  }

  ghost predicate Shows(agents: map<string, Config>, id: string, key: string, v: Value) {
    id in agents && key in agents[id] && agents[id][key] == v
  }

  lemma {:induction false} ShownWhenAdded(agents: map<string, Config>, g: Group, o: Offsets, i: nat, k: nat)
    requires Expands(g, o) && g.Unique() && i < |g.ids| && k < |g.fields|
    ensures Column(g, o, k).Some?
    ensures Shows(WithAgents(agents, g, o, |g.ids|), g.ids[i], g.fields[k].key, Column(g, o, k).value[i])
  {
    ColumnsHold(g, o, |g.fields|, k);
    AgentAdded(agents, g, o, |g.ids|, i);
  }

  lemma {:induction false} ShownAfterwards(agents: map<string, Config>, g: Group, o: Offsets, id: string, key: string, v: Value)
    requires Expands(g, o) && Shows(agents, id, key, v) && id !in g.ids
    ensures Shows(WithAgents(agents, g, o, |g.ids|), id, key, v)
  {
    assert g.ids[..|g.ids|] == g.ids;
    OthersKept(agents, g, o, |g.ids|, id);
  }

  lemma {:induction false} LastGroup(groups: seq<Group>, n: nat)
    requires 0 < n <= |groups| && AllExpand(groups, n)
    ensures AllExpand(groups, n - 1) && Expands(groups[n - 1], OffsetsBefore(groups, n - 1))
    ensures var h := groups[n - 1]; Agents(groups, n) == WithAgents(Agents(groups, n - 1), h, OffsetsBefore(groups, n - 1), |h.ids|)
  {
    assert ExpandsAt(groups, n - 1);
  }

  // The value that field k of group g expands to for agent i.
  ghost function ValueOf(g: Group, o: Offsets, i: nat, k: nat): Value
    requires g.Valid() && i < |g.ids| && k < |g.fields| && Column(g, o, k).Some?
  {
    Column(g, o, k).value[i]
  }

  lemma {:induction false} NewlyShown(groups: seq<Group>, g: nat, i: nat, k: nat)
    requires g < |groups| && AllExpand(groups, g + 1) && groups[g].Unique() && i < |groups[g].ids| && k < |groups[g].fields|
    ensures groups[g].Valid() && Column(groups[g], OffsetsBefore(groups, g), k).Some?
    ensures Shows(Agents(groups, g + 1), groups[g].ids[i], groups[g].fields[k].key, ValueOf(groups[g], OffsetsBefore(groups, g), i, k))
  {
    LastGroup(groups, g + 1);
    ShownWhenAdded(Agents(groups, g), groups[g], OffsetsBefore(groups, g), i, k);
  }

  // What is shown stays, as long as later groups do not name the agent again.
  lemma {:induction false} StillShown(groups: seq<Group>, m: nat, n: nat, id: string, key: string, v: Value)
    requires m <= n <= |groups| && AllExpand(groups, m) && AllExpand(groups, n)
    requires forall h :: m <= h < n ==> id !in groups[h].ids
    requires Shows(Agents(groups, m), id, key, v)
    ensures Shows(Agents(groups, n), id, key, v)
    decreases n
  {
    if m < n {
      LastGroup(groups, n);
      StillShown(groups, m, n - 1, id, key, v);
      ShownAfterwards(Agents(groups, n - 1), groups[n - 1], OffsetsBefore(groups, n - 1), id, key, v);
    }
  }

  lemma {:induction false} AgentHas(groups: seq<Group>, g: nat, i: nat, k: nat, n: nat)
    requires g < n <= |groups| && AllExpand(groups, n) && groups[g].Unique() && i < |groups[g].ids| && k < |groups[g].fields| && LastNamed(groups, g, i, n)
    ensures groups[g].Valid() && Column(groups[g], OffsetsBefore(groups, g), k).Some?
    ensures Shows(Agents(groups, n), groups[g].ids[i], groups[g].fields[k].key, ValueOf(groups[g], OffsetsBefore(groups, g), i, k))
  {
    assert AllExpand(groups, g + 1);
    NewlyShown(groups, g, i, k);
    StillShown(groups, g + 1, n, groups[g].ids[i], groups[g].fields[k].key, ValueOf(groups[g], OffsetsBefore(groups, g), i, k));
  }

  // Agent i of group g, in a scenario that expands.
  ghost predicate Place(groups: seq<Group>, g: nat, i: nat) {
    && AllUnique(groups) && AllExpand(groups, |groups|)
    && g < |groups| && i < |groups[g].ids| && LastNamed(groups, g, i, |groups|)
  }

  // The expanded scenario shows value v under this key for that agent.
  ghost predicate ShownFor(groups: seq<Group>, g: nat, i: nat, key: string, v: Value)
    requires Place(groups, g, i)
  {
    Shows(Agents(groups, |groups|), groups[g].ids[i], key, v)
  }

  ghost predicate LinearField(g: Group, k: nat, key: string, v: Value, step: int) {
    k < |g.fields| && g.fields[k] == Field(key, v) && key in g.Effective() && g.Effective()[key] == Linear(step)
  }

  function Slot(v: Value, j: int, step: int): Value {
    Time(BaseSeconds(v) + j * step)
  }

  lemma {:induction false} LinearShows(groups: seq<Group>, g: nat, i: nat, k: nat, key: string, v: Value, step: int)
    requires Place(groups, g, i) && LinearField(groups[g], k, key, v, step)
    ensures ShownFor(groups, g, i, key, Slot(v, OffsetFor(key, OffsetsAt(groups[g], OffsetsBefore(groups, g), k)) + i, step))
  {
    AgentHas(groups, g, i, k, |groups|);
    LinearColumn(groups[g], OffsetsBefore(groups, g), k, key, v, step, i);
  }

  lemma {:induction false} LinearColumn(g: Group, o: Offsets, k: nat, key: string, v: Value, step: int, i: nat)
    requires g.Valid() && LinearField(g, k, key, v, step) && i < |g.ids|
    ensures Column(g, o, k).Some? && Column(g, o, k).value[i] == Slot(v, OffsetFor(key, OffsetsAt(g, o, k)) + i, step)
  {
  }

  // The offset the daemon fields of group g have reached at field k.
  lemma {:induction false} OffsetReached(kind: Kind, groups: seq<Group>, g: nat, k: nat)
    requires AllUnique(groups) && g < |groups| && k <= |groups[g].fields|
    ensures Of(OffsetsAt(groups[g], OffsetsBefore(groups, g), k), kind)
         == UpgradedBefore(kind, groups, g) + DriftAt(kind, groups, g, k) + if StopBefore(kind, groups[g], k) then groups[g].count else 0
  {
    OffsetBeforeGroup(kind, groups, g);
    OffsetInGroup(kind, groups[g], OffsetsBefore(groups, g), k);
  }

  ghost function DriftAt(kind: Kind, groups: seq<Group>, g: nat, k: nat): int
    requires g < |groups| && k <= |groups[g].fields|
  {
    Drift(kind, groups, g) + OwnDrift(kind, groups[g], k)
  }

  lemma {:induction false} StopOffset(kind: Kind, groups: seq<Group>, g: nat, k: nat)
    requires AllUnique(groups) && g < |groups| && groups[g].Unique() && k < |groups[g].fields| && FirstStop(kind, groups[g], k)
    ensures OffsetFor(StopKey(kind), OffsetsAt(groups[g], OffsetsBefore(groups, g), k)) == UpgradedBefore(kind, groups, g) + DriftAt(kind, groups, g, k)
  {
    OffsetReached(kind, groups, g, k);
    StopRunsOn(kind);
    OffsetOfPhase(kind, StopKey(kind), 0, OffsetsAt(groups[g], OffsetsBefore(groups, g), k));
    FirstStopOnce(kind, groups[g], k + 1);
  }

  // When any linearly staggered stop falls, whatever else is staggered.
  lemma {:induction false} StopTime(kind: Kind, groups: seq<Group>, g: nat, i: nat, k: nat, v: Value, step: int)
    requires Place(groups, g, i) && LinearField(groups[g], k, StopKey(kind), v, step)
    ensures ShownFor(groups, g, i, StopKey(kind), Slot(v, UpgradedBefore(kind, groups, g) + i + DriftAt(kind, groups, g, k), step))
  {
    LinearShows(groups, g, i, k, StopKey(kind), v, step);
    assert FirstStop(kind, groups[g], k) && groups[g].Unique();
    StopOffset(kind, groups, g, k);
  }

  // None of the first n fields is a staggered stop but the first one.
  ghost predicate NoOther(kind: Kind, g: Group, n: nat)
    requires n <= |g.fields|
  {
    n > 0 ==> NoOther(kind, g, n - 1) && !OtherStop(kind, g, n - 1)
  }

  // Nor in any of the first n groups.
  ghost predicate NoOthersBefore(kind: Kind, groups: seq<Group>, n: nat)
    requires n <= |groups|
  {
    n > 0 ==> NoOthersBefore(kind, groups, n - 1) && NoOther(kind, groups[n - 1], |groups[n - 1].fields|)
  }

  // No staggered stop but the first one has been expanded before field k of group g.
  ghost predicate OnlyFirstStops(kind: Kind, groups: seq<Group>, g: nat, k: nat)
    requires g < |groups| && k <= |groups[g].fields|
  {
    NoOthersBefore(kind, groups, g) && NoOther(kind, groups[g], k)
  }

  lemma {:induction false} OwnDriftSign(kind: Kind, g: Group, n: nat)
    requires g.count >= 1 && n <= |g.fields|
    ensures OwnDrift(kind, g, n) >= 0 && (OwnDrift(kind, g, n) == 0 <==> NoOther(kind, g, n))
  {
    if n > 0 {
      OwnDriftSign(kind, g, n - 1);
    }
  }

  lemma {:induction false} DriftSign(kind: Kind, groups: seq<Group>, n: nat)
    requires n <= |groups| && forall h :: 0 <= h < n ==> groups[h].count >= 1
    ensures Drift(kind, groups, n) >= 0
    ensures Drift(kind, groups, n) == 0 <==> NoOthersBefore(kind, groups, n)
  {
    if n > 0 {
      DriftSign(kind, groups, n - 1);
      OwnDriftSign(kind, groups[n - 1], |groups[n - 1].fields|);
    }
  }

  lemma {:induction false} DriftAtSign(kind: Kind, groups: seq<Group>, g: nat, k: nat)
    requires g < |groups| && k <= |groups[g].fields| && forall h :: 0 <= h <= g ==> groups[h].count >= 1
    ensures DriftAt(kind, groups, g, k) == 0 <==> OnlyFirstStops(kind, groups, g, k)
  {
    DriftSign(kind, groups, g);
    OwnDriftSign(kind, groups[g], k);
  }

  lemma {:induction false} ShowsOne(agents: map<string, Config>, id: string, key: string, v: Value, w: Value)
    requires Shows(agents, id, key, v)
    ensures Shows(agents, id, key, w) <==> v == w
  {
  }

  lemma {:induction false} SlotIsExact(v: Value, j: int, drift: int, step: int)
    requires step != 0
    ensures Slot(v, j + drift, step) == Slot(v, j, step) <==> drift == 0
  {
    assert (j + drift) * step == j * step + drift * step;
  }

  // A stop without a stagger of its own is 30 s behind the one before it in a group of several
  // agents, and shared by the agents in a group that has just one.
  lemma {:induction false} DefaultStagger(kind: Kind, g: Group, k: nat)
    requires k < |g.fields| && g.fields[k].key == StopKey(kind) && StopKey(kind) !in g.staggers
    ensures g.count > 1 ==> LinearField(g, k, StopKey(kind), g.fields[k].value, 30)
    ensures g.count <= 1 ==> StopKey(kind) !in g.Effective()
  {
    assert g.Has(StopKey(kind));
  }

  // A field that is no phase starts from its own base again in every group.
  lemma {:induction false} OtherFieldsRestart(groups: seq<Group>, g: nat, i: nat, k: nat, key: string, v: Value, step: int)
    requires Place(groups, g, i) && LinearField(groups[g], k, key, v, step)
    requires !IsPhase("daemon_", key) && !IsPhase("wallet_", key)
    ensures ShownFor(groups, g, i, key, Slot(v, i, step))
  {
    LinearShows(groups, g, i, k, key, v, step);
  }

  // So does the start of the first phase, although its key looks like that of a phase.
  lemma {:induction false} FirstStartsRestart(kind: Kind, groups: seq<Group>, g: nat, i: nat, k: nat, v: Value, step: int)
    requires Place(groups, g, i)
    requires LinearField(groups[g], k, if kind == Daemon then "daemon_0_start" else "wallet_0_start", v, step)
    ensures ShownFor(groups, g, i, if kind == Daemon then "daemon_0_start" else "wallet_0_start", Slot(v, i, step))
  {
    FirstStartIsNoPhase(kind);
    OtherFieldsRestart(groups, g, i, k, if kind == Daemon then "daemon_0_start" else "wallet_0_start", v, step);
  }

  lemma {:induction false} FirstStartIsNoPhase(kind: Kind)
    ensures var key := if kind == Daemon then "daemon_0_start" else "wallet_0_start"; !IsPhase("daemon_", key) && !IsPhase("wallet_", key)
  {
    var key := if kind == Daemon then "daemon_0_start" else "wallet_0_start";
    assert key[7] == '0';
    forall i: nat | i <= |key| ensures !At(key, "stop", i) {
      if i + 4 <= |key| {
        assert key[i..i + 4][0] == key[i] && key[i..i + 4][2] == key[i + 2];
        assert "stop"[0] == 's' && "stop"[2] == 'o';
      }
    }
  }

  // A field without a stagger is the same for all agents, or the list given for them.
  lemma {:induction false} UnstaggeredFieldIs(groups: seq<Group>, g: nat, i: nat, k: nat)
    requires Place(groups, g, i) && k < |groups[g].fields| && groups[g].fields[k].key !in groups[g].Effective()
    ensures var Field(key, v) := groups[g].fields[k];
            if v.Many? && |v.values| == groups[g].count && i < |v.values| then ShownFor(groups, g, i, key, v.values[i]) else ShownFor(groups, g, i, key, v)
  {
    AgentHas(groups, g, i, k, |groups|);
  }

  // With a common base and step, the j-th upgraded agent of the scenario stops at base + j * step
  // exactly when no other staggered stop of a daemon comes before it.
  lemma {:induction false} Waterfall(kind: Kind, groups: seq<Group>, g: nat, i: nat, k: nat, v: Value, step: int)
    requires Place(groups, g, i) && LinearField(groups[g], k, StopKey(kind), v, step)
    requires step != 0 && forall h :: 0 <= h <= g ==> groups[h].count >= 1
    ensures ShownFor(groups, g, i, StopKey(kind), Slot(v, UpgradedBefore(kind, groups, g) + i, step)) <==> OnlyFirstStops(kind, groups, g, k)
  {
    StopTime(kind, groups, g, i, k, v, step);
    DriftAtSign(kind, groups, g, k);
    var j, drift := UpgradedBefore(kind, groups, g) + i, DriftAt(kind, groups, g, k);
    SlotIsExact(v, j, drift, step);
    ShowsOne(Agents(groups, |groups|), groups[g].ids[i], StopKey(kind), Slot(v, j + drift, step), Slot(v, j, step));
  }

  // An automatic restart that is not staggered comes the fixed gap after the agent's own stop,
  // however that stop was written, and after 0 if there is none. A stop that is no time is refused.
  lemma {:induction false} RestartFollowsStop(kind: Kind, groups: seq<Group>, g: nat, i: nat, m: nat, r: Config)
    requires Place(groups, g, i)
    requires m < |groups[g].fields| && groups[g].fields[m] == Field(StartKey(kind), Auto) && StartKey(kind) !in groups[g].Effective()
    requires groups[g].ids[i] in Agents(groups, |groups|) && Resolves(Agents(groups, |groups|)[groups[g].ids[i]], r)
    ensures var c := Agents(groups, |groups|)[groups[g].ids[i]];
            && StartKey(kind) in r
            && if StopKey(kind) in c then c[StopKey(kind)].Time? && StopKey(kind) in r && r[StopKey(kind)] == c[StopKey(kind)] && r[StartKey(kind)] == Time(c[StopKey(kind)].seconds + 300)
               else StopKey(kind) !in r && r[StartKey(kind)] == Time(300)
  {
    AgentHas(groups, g, i, m, |groups|);
    AutoRestart(kind, Agents(groups, |groups|)[groups[g].ids[i]], r);
  }

  lemma {:induction false} AutoRestart(kind: Kind, c: Config, r: Config)
    requires StartKey(kind) in c && c[StartKey(kind)] == Auto && Resolves(c, r)
    ensures StartKey(kind) in r && if StopKey(kind) in c then c[StopKey(kind)].Time? && StopKey(kind) in r && r[StopKey(kind)] == c[StopKey(kind)] && r[StartKey(kind)] == Time(c[StopKey(kind)].seconds + 300)
                          else StopKey(kind) !in r && r[StartKey(kind)] == Time(300)
  {
    assert ResolvedField(c, StartKey(kind)) == Some(r[StartKey(kind)]);
  }

  // The first phase begins when the agent does, unless it says otherwise.
  lemma {:induction false} FirstPhaseStart(kind: Kind, c: Config, r: Config)
    requires Resolves(c, r)
    ensures var key := if kind == Daemon then "daemon_0_start" else "wallet_0_start";
            && (key in c && c[key] == Auto ==> key in r && r[key] == if "start_time" in c then c["start_time"] else Time(0))
            && (key in c && c[key] != Auto ==> key in r && r[key] == c[key])
  {
    var key := if kind == Daemon then "daemon_0_start" else "wallet_0_start";
    if key in c {
      assert ResolvedField(c, key) == Some(r[key]);
    }
  }

  // No other field of an agent changes.
  lemma {:induction false} OtherFieldsStay(c: Config, r: Config, key: string)
    requires Resolves(c, r) && key in c
    requires c[key] != Auto || (key != "daemon_0_start" && key != "daemon_1_start" && key != "wallet_0_start" && key != "wallet_1_start")
    ensures key in r && r[key] == c[key]
  {
    assert ResolvedField(c, key) == Some(r[key]);
  }

  // The offset after the first stop of a group counts the group itself.
  lemma {:induction false} OffsetAfterStop(kind: Kind, groups: seq<Group>, g: nat, k: nat, m: nat)
    requires AllUnique(groups) && g < |groups| && k < |groups[g].fields| && m <= |groups[g].fields| && FirstStop(kind, groups[g], k)
    ensures Of(OffsetsAt(groups[g], OffsetsBefore(groups, g), m), kind)
         == UpgradedBefore(kind, groups, g) + DriftAt(kind, groups, g, m) + if k < m then groups[g].count else 0
  {
    OffsetReached(kind, groups, g, m);
    assert groups[g].Unique();
    assert StopBefore(kind, groups[g], m) <==> k < m;
  }

  lemma {:induction false} StartOffset(kind: Kind, groups: seq<Group>, g: nat, k: nat, m: nat)
    requires AllUnique(groups) && g < |groups| && k < |groups[g].fields| && m <= |groups[g].fields| && FirstStop(kind, groups[g], k)
    ensures OffsetFor(StartKey(kind), OffsetsAt(groups[g], OffsetsBefore(groups, g), m))
         == UpgradedBefore(kind, groups, g) + DriftAt(kind, groups, g, m) + if k < m then groups[g].count else 0
  {
    OffsetAfterStop(kind, groups, g, k, m);
    StopRunsOn(kind);
    OffsetOfPhase(kind, StartKey(kind), 0, OffsetsAt(groups[g], OffsetsBefore(groups, g), m));
  }

  // When a linearly staggered restart falls. Listed after the stop, it counts its own group twice.
  lemma {:induction false} StartTime(kind: Kind, groups: seq<Group>, g: nat, i: nat, k: nat, m: nat, w: Value, step: int)
    requires Place(groups, g, i) && k < |groups[g].fields| && FirstStop(kind, groups[g], k) && LinearField(groups[g], m, StartKey(kind), w, step)
    ensures ShownFor(groups, g, i, StartKey(kind),
              Slot(w, UpgradedBefore(kind, groups, g) + DriftAt(kind, groups, g, m) + (if k < m then groups[g].count else 0) + i, step))
  {
    LinearShows(groups, g, i, m, StartKey(kind), w, step);
    StartOffset(kind, groups, g, k, m);
  }

  // A staggered restart takes its time from the offset as well: listed after the stop, it comes a
  // whole group later; an automatic base counts as 0 and loses its tie to the stop.
  lemma {:induction false} StaggeredRestart(kind: Kind, groups: seq<Group>, g: nat, i: nat, k: nat, m: nat, v: Value, w: Value, step: int)
    requires Place(groups, g, i) && LinearField(groups[g], k, StopKey(kind), v, step) && LinearField(groups[g], m, StartKey(kind), w, step)
    requires DriftAt(kind, groups, g, k) == 0 && DriftAt(kind, groups, g, m) == 0
    ensures var j := UpgradedBefore(kind, groups, g) + i;
            && ShownFor(groups, g, i, StopKey(kind), Slot(v, j, step))
            && ShownFor(groups, g, i, StartKey(kind), Slot(w, if k < m then j + groups[g].count else j, step))
  {
    StopTime(kind, groups, g, i, k, v, step);
    assert FirstStop(kind, groups[g], k);
    StartTime(kind, groups, g, i, k, m, w, step);
  }

  // ---------------------------------------------------------------- a waterfall that drifts

  function SecondKey(kind: Kind): string {
    if kind == Daemon then "daemon_1_stop" else "wallet_1_stop"
  }

  ghost predicate NoLists(g: Group) {
    forall key :: key in g.staggers ==> !g.staggers[key].Listed?
  }

  // Without per-agent lists no group is refused.
  lemma {:induction false} NoListsExpand(g: Group, o: Offsets)
    requires g.Valid() && NoLists(g)
    ensures Expands(g, o)
  {
    forall k | 0 <= k < |g.fields| ensures Column(g, o, k).Some? {
      var key := g.fields[k].key;
      assert key in g.Effective() ==> !g.Effective()[key].Listed?;
    }
  }

  ghost predicate TwoStops(kind: Kind, g: Group, v: Value, w: Value) {
    && g.fields == [Field(StopKey(kind), v), Field(SecondKey(kind), w)]
    && StopKey(kind) in g.staggers && SecondKey(kind) in g.staggers
  }

  lemma {:induction false} SecondRunsOn(kind: Kind)
    ensures IsStop(Prefix(kind), SecondKey(kind)) && SecondKey(kind) != StopKey(kind)
  {
    assert At(SecondKey(kind), "stop", 9);
    assert SecondKey(kind)[7] != StopKey(kind)[7];
  }

  lemma {:induction false} TwoFieldsDrift(kind: Kind, g: Group)
    requires |g.fields| == 2 && FirstStop(kind, g, 0) && OtherStop(kind, g, 1)
    ensures CountsTwice(kind, g)
  {
    assert OwnDrift(kind, g, 0) == 0 && OwnDrift(kind, g, 1) == 0;
    assert g.fields[0].key == StopKey(kind);
  }

  lemma {:induction false} TwoStopsDrift(kind: Kind, g: Group, v: Value, w: Value)
    requires TwoStops(kind, g, v, w)
    ensures CountsTwice(kind, g)
  {
    StopRunsOn(kind);
    SecondRunsOn(kind);
    assert g.fields[0].key == StopKey(kind) && g.fields[1].key == SecondKey(kind);
    TwoFieldsDrift(kind, g);
  }

  lemma {:induction false} AllNoListsExpand(groups: seq<Group>)
    requires AllValid(groups) && forall g :: 0 <= g < |groups| ==> NoLists(groups[g])
    ensures AllExpand(groups, |groups|)
  {
    forall g | 0 <= g < |groups| ensures ExpandsAt(groups, g) {
      NoListsExpand(groups[g], OffsetsBefore(groups, g));
    }
  }

  // A group that upgrades and adds its size to the offset once more.
  ghost predicate CountsTwice(kind: Kind, g: Group) {
    Upgrades(kind, g) && OwnDrift(kind, g, |g.fields|) == g.count && !NoOther(kind, g, |g.fields|)
  }

  lemma {:induction false} SecondOffsets(kind: Kind, groups: seq<Group>, g: nat)
    requires g == 1 && |groups| == g + 1 && |groups[g].fields| > 0 && CountsTwice(kind, groups[g - 1])
    ensures UpgradedBefore(kind, groups, g) == groups[g - 1].count && DriftAt(kind, groups, g, 0) == groups[g - 1].count
    ensures !OnlyFirstStops(kind, groups, g, 0)
  {
    assert !NoOthersBefore(kind, groups, g);
    assert UpgradedBefore(kind, groups, g - 1) == 0 && Drift(kind, groups, g - 1) == 0 && OwnDrift(kind, groups[g], 0) == 0;
  }

  // Every agent of the group behind such a group is late by the size of the first.
  lemma {:induction false} SecondStopDrifts(kind: Kind, groups: seq<Group>, g: nat, i: nat, v: Value, step: int)
    requires g == 1 && |groups| == g + 1 && Place(groups, g, i)
    requires CountsTwice(kind, groups[g - 1]) && LinearField(groups[g], 0, StopKey(kind), v, step)
    ensures !OnlyFirstStops(kind, groups, g, 0) && UpgradedBefore(kind, groups, g) == groups[g - 1].count
    ensures ShownFor(groups, g, i, StopKey(kind), Slot(v, groups[g - 1].count + i + groups[g - 1].count, step))
  {
    SecondOffsets(kind, groups, g);
    StopTime(kind, groups, g, i, 0, v, step);
  }

  lemma {:induction false} ScenarioIsPlaced()
    ensures Place(DRIFTING, 1, 0) && DRIFTING[1].Effective()["daemon_0_stop"] == Linear(30)
    ensures LinearField(DRIFTING[1], 0, "daemon_0_stop", Time(100), 30)
  {
    AllNoListsExpand(DRIFTING);
  }

  const DRIFTING: seq<Group> := [
    Group(["a"], 1, [Field("daemon_0_stop", Time(100)), Field("daemon_1_stop", Time(500))], map["daemon_0_stop" := Linear(30), "daemon_1_stop" := Linear(30)]),
    Group(["b"], 1, [Field("daemon_0_stop", Time(100))], map["daemon_0_stop" := Linear(30)])]

  // Agent b upgrades second, but stops at 160 instead of 130.
  lemma {:induction false} DriftingScenario()
    ensures Place(DRIFTING, 1, 0) && !OnlyFirstStops(Daemon, DRIFTING, 1, 0)
    ensures ShownFor(DRIFTING, 1, 0, "daemon_0_stop", Time(160)) && !ShownFor(DRIFTING, 1, 0, "daemon_0_stop", Time(130))
  {
    ScenarioIsPlaced();
    TwoStopsDrift(Daemon, DRIFTING[0], Time(100), Time(500));
    SecondStopDrifts(Daemon, DRIFTING, 1, 0, Time(100), 30);
    ShowsOne(Agents(DRIFTING, 2), "b", "daemon_0_stop", Time(160), Time(130));
  }
}
