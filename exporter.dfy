/**
  The exporter's shared state: the gauge `TOKEN_EXPIRY_GAUGE` and the flag
  `metrics_ready`. The background worker rebuilds the gauge once per cycle
  and the `/metrics` handler reads it. Both hold the same lock for their
  whole run, so each is modelled as one uninterrupted method call.
 */
module Exporter {

  import opened Wrappers
  import opened Expiry
  import opened Snapshot

  /** What `/metrics` answers: 503 with a plain message, or the gauge's samples. */
  datatype Response = NotReady(status: int, body: string) | Exposition(status: int, samples: Gauge)

  const NotReadyStatus := 503
  const NotReadyBody := "Metrics not ready yet"

  /** `SetAll` on one more sample is one more assignment. */
  lemma SetAllStep(m: Gauge, samples: seq<Sample>, smp: Sample)
    ensures SetAll(m, samples + [smp]) == SetAll(m, samples)[smp.key := smp.value]
  {
    assert (samples + [smp])[..|samples|] == samples;
  }

  class TokenExporter {

    var gauge: Gauge
    var ready: bool
    /** How many refresh cycles have completed. */
    ghost var cycles: nat

    /** `metrics_ready` is set exactly when some cycle has completed. */
    ghost predicate Valid()
      reads this
    {
      ready <==> cycles > 0
    }

    /** At start-up the gauge is empty and `metrics_ready` is false. */
    constructor ()
      ensures Valid()
      ensures gauge == map[] && !ready && cycles == 0
    {
      gauge := map[];
      ready := false;
      cycles := 0;
    }

    /**
      One pass of the worker loop: clear the gauge, set a sample for every
      group token and then every project token of every group whose day
      count at `now` is not `None`, and set `metrics_ready`. The gauge then
      holds exactly this cycle's snapshot, whatever it held before.
     */
    method RefreshCycle(groups: seq<GroupFetch>, now: DateTime)
      requires Valid() && ValidDateTime(now)
      modifies this
      ensures Valid()
      ensures gauge == CycleSnapshot(groups, DayCounter(now))
      ensures ready && cycles == old(cycles) + 1
    {
      ghost var counter := DayCounter(now);
      gauge := map[];
      for i := 0 to |groups|
        invariant gauge == SetAll(map[], CycleSamples(groups[..i], counter))
        invariant ready == old(ready) && cycles == old(cycles)
      {
        var group := groups[i];
        ghost var atGroup := gauge;
        SetTokens(group.tokens, group.group.fullPath, GroupScope, now);
        ghost var atProjects := gauge;
        for p := 0 to |group.projects|
          invariant gauge == SetAll(atProjects, ProjectSamples(group.projects[..p], counter))
          invariant ready == old(ready) && cycles == old(cycles)
        {
          var project := group.projects[p];
          SetTokens(project.tokens, project.project.nameWithNamespace, ProjectScope, now);
          assert group.projects[..p + 1][..p] == group.projects[..p];
          SetAllAppend(atProjects, ProjectSamples(group.projects[..p], counter),
                       TokenSamples(project.tokens, project.project.nameWithNamespace, ProjectScope, counter));
        }
        assert group.projects[..|group.projects|] == group.projects;
        assert groups[..i + 1][..i] == groups[..i];
        SetAllAppend(map[], CycleSamples(groups[..i], counter), GroupSamples(group, counter));
        SetAllAppend(atGroup, TokenSamples(group.tokens, group.group.fullPath, GroupScope, counter),
                     ProjectSamples(group.projects, counter));
      }
      assert groups[..|groups|] == groups;
      ready := true;
      cycles := cycles + 1;
    }

    /**
      The inner loop over one token list, shared by group tokens and project
      tokens: each token whose day count is not `None` sets the gauge at its
      labels to that count.
     */
    method SetTokens(tokens: seq<Token>, owner: string, scope: Scope, now: DateTime)
      requires ValidDateTime(now)
      modifies this`gauge
      ensures gauge == SetAll(old(gauge), TokenSamples(tokens, owner, scope, DayCounter(now)))
    {
      ghost var counter := DayCounter(now);
      for j := 0 to |tokens|
        invariant gauge == SetAll(old(gauge), TokenSamples(tokens[..j], owner, scope, counter))
      {
        var token := tokens[j];
        var daysLeft := DaysLeft(token.expiresAt, now);
        assert tokens[..j + 1] == tokens[..j] + [token];
        TokenSamplesSnoc(tokens[..j], token, owner, scope, counter);
        assert counter(token.expiresAt) == daysLeft;
        if daysLeft.Some? {
          var key := SampleKey(token.name, owner, scope, AlertLevelOf(daysLeft));
          assert TokenSample(token, owner, scope, counter) == Some(Sample(key, daysLeft.value));
          SetAllStep(old(gauge), TokenSamples(tokens[..j], owner, scope, counter), Sample(key, daysLeft.value));
          gauge := gauge[key := daysLeft.value];
        } else {
          assert TokenSample(token, owner, scope, counter) == None;
          assert TokenSamples(tokens[..j + 1], owner, scope, counter) == TokenSamples(tokens[..j], owner, scope, counter);
        }
      }
      assert tokens[..|tokens|] == tokens;
    }

    /**
      The `/metrics` handler: "not ready" with status 503 until the first
      cycle has completed, and from then on status 200 with the gauge as
      the last cycle left it.
     */
    method Metrics() returns (r: Response)
      requires Valid()
      ensures r.NotReady? <==> cycles == 0
      ensures r.NotReady? ==> r.status == NotReadyStatus && r.body == NotReadyBody
      ensures r.Exposition? ==> r.status == 200 && r.samples == gauge
    {
      if !ready {
        return NotReady(NotReadyStatus, NotReadyBody);
      }
      return Exposition(200, gauge);
    }
  }
}
