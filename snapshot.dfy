/**
  What one refresh cycle publishes. The cycle walks the groups, each group's
  tokens, each group's projects and each project's tokens, and sets one
  gauge sample per token that has a day count. The gauge is keyed by its
  four labels, so setting a key again keeps only the last value.

  The data each API call returned is given as it came back; a call that
  failed returned an empty list. Everything here is stated for any way of
  counting days (`counter`); the exporter uses `calculate_days_left` at the
  cycle's clock reading, `DayCounter(now)`.
 */
module Snapshot {

  import opened Wrappers
  import opened Expiry

  /** The `scope` label: `"group"` for a group's token, `"project"` for a project's. */
  datatype Scope = GroupScope | ProjectScope

  /** An access token as the API lists it: its `name` and its `expires_at`. */
  datatype Token = Token(name: string, expiresAt: RawExpiry)

  /** A group: `id` for further calls, `full_path` for the `owner` label. */
  datatype Group = Group(id: int, fullPath: string)

  /** A project: `id` for further calls, `name_with_namespace` for the `owner` label. */
  datatype Project = Project(id: int, nameWithNamespace: string)

  /** A project and what listing its access tokens returned. */
  datatype ProjectFetch = ProjectFetch(project: Project, tokens: seq<Token>)

  /** A group, what listing its access tokens returned, and what listing its projects returned. */
  datatype GroupFetch = GroupFetch(group: Group, tokens: seq<Token>, projects: seq<ProjectFetch>)

  /** The labels `token_name`, `owner`, `scope` and `alert_level` of the gauge. */
  datatype SampleKey = SampleKey(tokenName: string, owner: string, scope: Scope, alertLevel: AlertLevel)

  /** One `.labels(...).set(value)` call. */
  datatype Sample = Sample(key: SampleKey, value: int)

  /** The gauge `gitlab_token_days_left`: a value per label set. */
  type Gauge = map<SampleKey, int>

  /** How a token's `expires_at` becomes a day count, or `None`. */
  type Counter = RawExpiry -> Option<int>

  /** `calculate_days_left` with the clock reading `now`. */
  function DayCounter(now: DateTime): Counter
    requires ValidDateTime(now)
  {
    raw => DaysLeft(raw, now)
  }

  /** A sample whose `alert_level` label is the tier of its own value. */
  predicate Consistent(smp: Sample) {
    smp.key.alertLevel == AlertLevelOf(Some(smp.value))
  }

  /**
    What one token contributes: nothing when its day count is `None`, and
    otherwise its count, labelled with its name, the owner, the scope and the
    tier of that count.
   */
  function TokenSample(t: Token, owner: string, scope: Scope, counter: Counter): (r: Option<Sample>)
    ensures r.Some? <==> counter(t.expiresAt).Some?
    ensures r.Some? ==> r.value.value == counter(t.expiresAt).value
    ensures r.Some? ==> Consistent(r.value) && r.value.key.alertLevel != Unknown
    ensures r.Some? ==> r.value.key.tokenName == t.name && r.value.key.owner == owner
                        && r.value.key.scope == scope
  {
    var days := counter(t.expiresAt);
    if days.None? then None
    else Some(Sample(SampleKey(t.name, owner, scope, AlertLevelOf(days)), days.value))
  }

  // ---------------------------------------------------------------------------
  // Which samples a cycle yields, stated as membership.

  predicate TokensYield(ts: seq<Token>, owner: string, scope: Scope, counter: Counter, smp: Sample)
  {
    exists j :: 0 <= j < |ts| && TokenSample(ts[j], owner, scope, counter) == Some(smp)
  }

  predicate ProjectsYield(ps: seq<ProjectFetch>, counter: Counter, smp: Sample)
  {
    exists p :: 0 <= p < |ps| &&
      TokensYield(ps[p].tokens, ps[p].project.nameWithNamespace, ProjectScope, counter, smp)
  }

  predicate GroupYields(g: GroupFetch, counter: Counter, smp: Sample)
  {
    TokensYield(g.tokens, g.group.fullPath, GroupScope, counter, smp) || ProjectsYield(g.projects, counter, smp)
  }

  /** `smp` is the sample of some group token or some project token of the cycle. */
  predicate CycleYields(gs: seq<GroupFetch>, counter: Counter, smp: Sample)
  {
    exists i :: 0 <= i < |gs| && GroupYields(gs[i], counter, smp)
  }

  // ---------------------------------------------------------------------------
  // The samples of a cycle, in the order the loops set them.

  /** The samples of a list of tokens, in list order. */
  function TokenSamples(ts: seq<Token>, owner: string, scope: Scope, counter: Counter): (r: seq<Sample>)
    ensures |r| <= |ts|
    decreases |ts|
  {
    if ts == [] then []
    else
      var last := ts[|ts| - 1];
      TokenSamples(ts[..|ts| - 1], owner, scope, counter)
      + match TokenSample(last, owner, scope, counter) case None => [] case Some(smp) => [smp]
  }

  /** One more token adds its sample, if it has one, at the end. */
  lemma TokenSamplesSnoc(ts: seq<Token>, t: Token, owner: string, scope: Scope, counter: Counter)
    ensures TokenSamples(ts + [t], owner, scope, counter)
            == TokenSamples(ts, owner, scope, counter)
               + match TokenSample(t, owner, scope, counter) case None => [] case Some(smp) => [smp]
  {
    assert (ts + [t])[..|ts|] == ts;
  }

  /** The samples of the projects' tokens, project by project. */
  function ProjectSamples(ps: seq<ProjectFetch>, counter: Counter): (r: seq<Sample>)
    decreases |ps|
  {
    if ps == [] then []
    else
      var last := ps[|ps| - 1];
      ProjectSamples(ps[..|ps| - 1], counter)
      + TokenSamples(last.tokens, last.project.nameWithNamespace, ProjectScope, counter)
  }

  /** A group's samples: its own tokens first, then its projects'. */
  function GroupSamples(g: GroupFetch, counter: Counter): (r: seq<Sample>)
  {
    TokenSamples(g.tokens, g.group.fullPath, GroupScope, counter) + ProjectSamples(g.projects, counter)
  }

  /** Every sample one cycle sets, group by group. */
  function CycleSamples(gs: seq<GroupFetch>, counter: Counter): (r: seq<Sample>)
    decreases |gs|
  {
    if gs == [] then []
    else CycleSamples(gs[..|gs| - 1], counter) + GroupSamples(gs[|gs| - 1], counter)
  }

  lemma {:induction false} TokenSamplesMembers(ts: seq<Token>, owner: string, scope: Scope, counter: Counter, smp: Sample)
    ensures smp in TokenSamples(ts, owner, scope, counter) <==> TokensYield(ts, owner, scope, counter, smp)
    decreases |ts|
  {
    if ts != [] {
      var init, last := ts[..|ts| - 1], ts[|ts| - 1];
      TokenSamplesMembers(init, owner, scope, counter, smp);
      if TokensYield(ts, owner, scope, counter, smp) {
        var j :| 0 <= j < |ts| && TokenSample(ts[j], owner, scope, counter) == Some(smp);
        if j < |ts| - 1 { assert init[j] == ts[j]; }
      }
      if TokensYield(init, owner, scope, counter, smp) {
        var j :| 0 <= j < |init| && TokenSample(init[j], owner, scope, counter) == Some(smp);
        assert ts[j] == init[j];
      }
      if TokenSample(last, owner, scope, counter) == Some(smp) {
        assert TokenSample(ts[|ts| - 1], owner, scope, counter) == Some(smp);
      }
    }
  }

  lemma {:induction false} ProjectSamplesMembers(ps: seq<ProjectFetch>, counter: Counter, smp: Sample)
    ensures smp in ProjectSamples(ps, counter) <==> ProjectsYield(ps, counter, smp)
    decreases |ps|
  {
    if ps != [] {
      var init, last := ps[..|ps| - 1], ps[|ps| - 1];
      ProjectSamplesMembers(init, counter, smp);
      TokenSamplesMembers(last.tokens, last.project.nameWithNamespace, ProjectScope, counter, smp);
      if ProjectsYield(ps, counter, smp) {
        var p :| 0 <= p < |ps| &&
          TokensYield(ps[p].tokens, ps[p].project.nameWithNamespace, ProjectScope, counter, smp);
        if p < |ps| - 1 { assert init[p] == ps[p]; }
      }
      if ProjectsYield(init, counter, smp) {
        var p :| 0 <= p < |init| &&
          TokensYield(init[p].tokens, init[p].project.nameWithNamespace, ProjectScope, counter, smp);
        assert ps[p] == init[p];
      }
    }
  }

  /**
    The samples a cycle sets are exactly those of its group tokens and its
    project tokens: nothing else, and none of them missing.
   */
  lemma {:induction false} CycleSamplesMembers(gs: seq<GroupFetch>, counter: Counter, smp: Sample)
    ensures smp in CycleSamples(gs, counter) <==> CycleYields(gs, counter, smp)
    decreases |gs|
  {
    if gs != [] {
      var init, last := gs[..|gs| - 1], gs[|gs| - 1];
      CycleSamplesMembers(init, counter, smp);
      TokenSamplesMembers(last.tokens, last.group.fullPath, GroupScope, counter, smp);
      ProjectSamplesMembers(last.projects, counter, smp);
      if CycleYields(gs, counter, smp) {
        var i :| 0 <= i < |gs| && GroupYields(gs[i], counter, smp);
        if i < |gs| - 1 { assert init[i] == gs[i]; }
      }
      if CycleYields(init, counter, smp) {
        var i :| 0 <= i < |init| && GroupYields(init[i], counter, smp);
        assert gs[i] == init[i];
      }
    }
  }

  // ---------------------------------------------------------------------------
  // Setting samples on the gauge.

  /** Some sample in `samples` carries the key `k`. */
  predicate SetsKey(samples: seq<Sample>, k: SampleKey) {
    exists i :: 0 <= i < |samples| && samples[i].key == k
  }

  /**
    The gauge after setting `samples` in order on `m`: a key is present when
    it was before or some sample sets it.
   */
  function SetAll(m: Gauge, samples: seq<Sample>): (r: Gauge)
    ensures forall k :: k in r <==> k in m || SetsKey(samples, k)
    decreases |samples|
  {
    if samples == [] then m
    else
      var init := samples[..|samples| - 1];
      var last := samples[|samples| - 1];
      assert forall k :: SetsKey(samples, k) <==> SetsKey(init, k) || last.key == k by {
        forall k ensures SetsKey(samples, k) <==> SetsKey(init, k) || last.key == k {
          if SetsKey(init, k) {
            var i :| 0 <= i < |init| && init[i].key == k;
            assert samples[i] == init[i];
          }
          if SetsKey(samples, k) {
            var i :| 0 <= i < |samples| && samples[i].key == k;
            if i < |samples| - 1 { assert init[i] == samples[i]; }
          }
        }
      }
      SetAll(m, init)[last.key := last.value]
  }

  /** The snapshot one cycle leaves: its samples set on an emptied gauge. */
  function CycleSnapshot(gs: seq<GroupFetch>, counter: Counter): Gauge
  {
    SetAll(map[], CycleSamples(gs, counter))
  }

  // ---------------------------------------------------------------------------
  // What the gauge holds after a cycle.

  lemma {:induction false} SetAllAppend(m: Gauge, a: seq<Sample>, b: seq<Sample>)
    ensures SetAll(m, a + b) == SetAll(SetAll(m, a), b)
    decreases |b|
  {
    if b == [] {
      assert a + b == a;
    } else {
      var init := b[..|b| - 1];
      assert (a + b)[..|a + b| - 1] == a + init;
      assert (a + b)[|a + b| - 1] == b[|b| - 1];
      SetAllAppend(m, a, init);
    }
  }

  /** Setting a key again overwrites it: a key holds the value of the last sample that set it. */
  lemma {:induction false} SetAllLastWins(m: Gauge, samples: seq<Sample>, i: int)
    requires 0 <= i < |samples|
    requires forall j :: i < j < |samples| ==> samples[j].key != samples[i].key
    ensures samples[i].key in SetAll(m, samples)
    ensures SetAll(m, samples)[samples[i].key] == samples[i].value
    decreases |samples|
  {
    if i < |samples| - 1 {
      var init := samples[..|samples| - 1];
      assert init[i] == samples[i];
      SetAllLastWins(m, init, i);
    }
  }

  /** A key no sample sets keeps its old value. */
  lemma {:induction false} SetAllKeepsUnset(m: Gauge, samples: seq<Sample>, k: SampleKey)
    requires k in m && !SetsKey(samples, k)
    ensures k in SetAll(m, samples) && SetAll(m, samples)[k] == m[k]
    decreases |samples|
  {
    if samples != [] {
      var init := samples[..|samples| - 1];
      assert samples[|samples| - 1].key != k;
      SetAllKeepsUnset(m, init, k);
    }
  }

  /**
    A key that some sample sets holds the value of the last sample, in
    setting order, that sets it.
   */
  lemma {:induction false} SetAllLastSetter(m: Gauge, samples: seq<Sample>, k: SampleKey)
    requires SetsKey(samples, k)
    ensures k in SetAll(m, samples)
    ensures exists i :: 0 <= i < |samples| && samples[i].key == k
                        && SetAll(m, samples)[k] == samples[i].value
                        && forall j :: i < j < |samples| ==> samples[j].key != k
    decreases |samples|
  {
    var n := |samples| - 1;
    if samples[n].key == k {
      assert SetAll(m, samples)[k] == samples[n].value;
    } else {
      var init := samples[..n];
      var w :| 0 <= w < |samples| && samples[w].key == k;
      assert init[w] == samples[w];
      SetAllLastSetter(m, init, k);
      var i :| 0 <= i < |init| && init[i].key == k && SetAll(m, init)[k] == init[i].value
               && forall j :: i < j < |init| ==> init[j].key != k;
      assert SetAll(m, samples)[k] == SetAll(m, init)[k];
      forall j | i < j < |samples| ensures samples[j].key != k {
        if j < n { assert samples[j] == init[j]; }
      }
      assert samples[i] == init[i];
    }
  }

  /** A gauge whose every sample has the tier of its own value. */
  predicate GaugeConsistent(g: Gauge) {
    forall k :: k in g ==> k.alertLevel == AlertLevelOf(Some(g[k]))
  }

  lemma {:induction false} SetAllConsistent(m: Gauge, samples: seq<Sample>)
    requires GaugeConsistent(m)
    requires forall i :: 0 <= i < |samples| ==> Consistent(samples[i])
    ensures GaugeConsistent(SetAll(m, samples))
    decreases |samples|
  {
    if samples != [] {
      var init := samples[..|samples| - 1];
      assert forall i :: 0 <= i < |init| ==> init[i] == samples[i];
      SetAllConsistent(m, init);
      assert Consistent(samples[|samples| - 1]);
    }
  }

  /**
    After a cycle the gauge holds a key exactly when some group token or
    project token of that cycle yields a sample with that key; nothing
    older survives the clear. Each value's `alert_level` is the tier of the
    value, never `UNKNOWN`, and a cycle over no groups leaves the gauge empty.
   */
  lemma SnapshotIsThisCycle(gs: seq<GroupFetch>, counter: Counter, k: SampleKey)
    ensures k in CycleSnapshot(gs, counter)
            <==> exists smp :: CycleYields(gs, counter, smp) && smp.key == k
    ensures k in CycleSnapshot(gs, counter) ==>
              k.alertLevel == AlertLevelOf(Some(CycleSnapshot(gs, counter)[k])) && k.alertLevel != Unknown
    ensures gs == [] ==> CycleSnapshot(gs, counter) == map[]
    ensures k in CycleSnapshot(gs, counter) ==>
              exists smp :: CycleYields(gs, counter, smp) && smp.key == k
                            && CycleSnapshot(gs, counter)[k] == smp.value
  {
    var samples := CycleSamples(gs, counter);
    if k in CycleSnapshot(gs, counter) {
      SetAllLastSetter(map[], samples, k);
      var i :| 0 <= i < |samples| && samples[i].key == k
               && CycleSnapshot(gs, counter)[k] == samples[i].value
               && forall j :: i < j < |samples| ==> samples[j].key != k;
      CycleSamplesMembers(gs, counter, samples[i]);
    }
    if SetsKey(samples, k) {
      var i :| 0 <= i < |samples| && samples[i].key == k;
      CycleSamplesMembers(gs, counter, samples[i]);
    }
    if exists smp :: CycleYields(gs, counter, smp) && smp.key == k {
      var smp :| CycleYields(gs, counter, smp) && smp.key == k;
      CycleSamplesMembers(gs, counter, smp);
      var i :| 0 <= i < |samples| && samples[i] == smp;
    }
    forall i | 0 <= i < |samples| ensures Consistent(samples[i]) {
      CycleSamplesMembers(gs, counter, samples[i]);
      var smp := samples[i];
      var g :| 0 <= g < |gs| && GroupYields(gs[g], counter, smp);
      if TokensYield(gs[g].tokens, gs[g].group.fullPath, GroupScope, counter, smp) {
        var j :| 0 <= j < |gs[g].tokens|
          && TokenSample(gs[g].tokens[j], gs[g].group.fullPath, GroupScope, counter) == Some(smp);
      } else {
        var ps := gs[g].projects;
        var p :| 0 <= p < |ps| && TokensYield(ps[p].tokens, ps[p].project.nameWithNamespace, ProjectScope, counter, smp);
        var j :| 0 <= j < |ps[p].tokens|
          && TokenSample(ps[p].tokens[j], ps[p].project.nameWithNamespace, ProjectScope, counter) == Some(smp);
      }
    }
    SetAllConsistent(map[], samples);
  }

  /**
    Every group token with a day count is published under its name, the
    group's full path, scope `group` and its tier, whatever other fetches
    of the cycle failed.
   */
  lemma GroupTokenPublished(gs: seq<GroupFetch>, counter: Counter, i: int, j: int)
    requires 0 <= i < |gs| && 0 <= j < |gs[i].tokens|
    requires counter(gs[i].tokens[j].expiresAt).Some?
    ensures SampleKey(gs[i].tokens[j].name, gs[i].group.fullPath, GroupScope,
                      AlertLevelOf(counter(gs[i].tokens[j].expiresAt))) in CycleSnapshot(gs, counter)
  {
    var t := gs[i].tokens[j];
    var smp := TokenSample(t, gs[i].group.fullPath, GroupScope, counter).value;
    assert GroupYields(gs[i], counter, smp);
    SnapshotIsThisCycle(gs, counter, smp.key);
  }

  /**
    Every project token with a day count is published under its name, the
    project's namespaced name, scope `project` and its tier.
   */
  lemma ProjectTokenPublished(gs: seq<GroupFetch>, counter: Counter, i: int, p: int, j: int)
    requires 0 <= i < |gs| && 0 <= p < |gs[i].projects| && 0 <= j < |gs[i].projects[p].tokens|
    requires counter(gs[i].projects[p].tokens[j].expiresAt).Some?
    ensures SampleKey(gs[i].projects[p].tokens[j].name, gs[i].projects[p].project.nameWithNamespace,
                      ProjectScope, AlertLevelOf(counter(gs[i].projects[p].tokens[j].expiresAt)))
            in CycleSnapshot(gs, counter)
  {
    var pf := gs[i].projects[p];
    var t := pf.tokens[j];
    var smp := TokenSample(t, pf.project.nameWithNamespace, ProjectScope, counter).value;
    assert TokensYield(pf.tokens, pf.project.nameWithNamespace, ProjectScope, counter, smp);
    assert ProjectsYield(gs[i].projects, counter, smp);
    assert GroupYields(gs[i], counter, smp);
    SnapshotIsThisCycle(gs, counter, smp.key);
  }
}
