/**
 The load balancer's view of one record's health, driven by probe results, and the
 map of all of them.  Properties are stated over whole probe histories.
 */
module Health {
  import opened Text
  import opened Types
  import opened Serial

  datatype Group = Group(zoneId: string, name: string, rtype: RecordType)

  datatype RecordHealth = RecordHealth(
    status: HealthStatus,
    successes: u32,
    failures: u32,
    healthyThreshold: u32,
    unhealthyThreshold: u32,
    group: Group,
    lastCheckedAt: Option<nat>,
    lastStateChangeAt: Option<nat>,
    lastHealthyAt: Option<nat>)

  function NewHealth(healthyThreshold: u32, unhealthyThreshold: u32, group: Group): RecordHealth {
    RecordHealth(Unknown, 0, 0, healthyThreshold, unhealthyThreshold, group, None, None, None)
  }

  function SaturatingInc(n: u32): u32 {
    if n == U32_MAX then n else n + 1
  }

  function AtLeastOne(n: u32): u32 {
    if n == 0 then 1 else n
  }

  predicate ShouldBeEnabled(h: RecordHealth) {
    h.status != Unhealthy
  }

  /** The health after one probe. */
  function Observe(h: RecordHealth, success: bool, now: nat): RecordHealth {
    var successes := if success then SaturatingInc(h.successes) else 0;
    var failures := if success then 0 else SaturatingInc(h.failures);
    var status :=
      if success then
        if h.status == Unknown || (h.status == Unhealthy && successes >= h.healthyThreshold) then Healthy else h.status
      else if failures >= h.unhealthyThreshold then Unhealthy else h.status;
    h.(status := status, successes := successes, failures := failures,
       lastCheckedAt := Some(now),
       lastStateChangeAt := if status != h.status then Some(now) else h.lastStateChangeAt,
       lastHealthyAt := if success then Some(now) else h.lastHealthyAt)
  }

  // --- One record over a whole history ---

  datatype Probe = Probe(success: bool, at: nat)

  function After(h: RecordHealth, history: seq<Probe>): RecordHealth {
    if history == [] then h
    else
      var last := history[|history| - 1];
      Observe(After(h, history[..|history| - 1]), last.success, last.at)
  }

  /** How many of the latest of the first `n` probes had this result, without interruption. */
  function Run(history: seq<Probe>, n: nat, success: bool): nat
    requires n <= |history|
  {
    if n == 0 || history[n - 1].success != success then 0 else 1 + Run(history, n - 1, success)
  }

  function LatestRun(history: seq<Probe>, success: bool): nat {
    Run(history, |history|, success)
  }

  /** Some run of `down` failures was completed, and no run of `up` successes after it. */
  ghost predicate Down(history: seq<Probe>, down: nat, up: nat) {
    exists i :: 0 <= i <= |history| && Run(history, i, false) >= down && NotUpSince(history, i, up)
  }

  ghost predicate NotUpSince(history: seq<Probe>, i: nat, up: nat) {
    forall j :: i < j <= |history| ==> Run(history, j, true) < up
  }

  lemma {:induction false} RunOfPrefix(history: seq<Probe>, p: Probe, n: nat, success: bool)
    requires n <= |history|
    ensures Run(history + [p], n, success) == Run(history, n, success)
  {
    if n > 0 {
      RunOfPrefix(history, p, n - 1, success);
    }
  }

  lemma DownAfterOneMore(history: seq<Probe>, p: Probe, down: nat, up: nat)
    ensures Down(history + [p], down, up) <==>
            LatestRun(history + [p], false) >= down || (Down(history, down, up) && LatestRun(history + [p], true) < up)
  {
    var more := history + [p];
    forall i | 0 <= i <= |history|
      ensures Run(more, i, true) == Run(history, i, true)
      ensures Run(more, i, false) == Run(history, i, false)
    {
      RunOfPrefix(history, p, i, true);
      RunOfPrefix(history, p, i, false);
    }
    if Down(more, down, up) {
      var i :| 0 <= i <= |more| && Run(more, i, false) >= down && NotUpSince(more, i, up);
      if i <= |history| {
        assert Run(history, i, false) >= down && NotUpSince(history, i, up);
      }
    }
    if LatestRun(more, false) >= down {
      assert NotUpSince(more, |more|, up);
    } else if Down(history, down, up) && LatestRun(more, true) < up {
      var i :| 0 <= i <= |history| && Run(history, i, false) >= down && NotUpSince(history, i, up);
      assert Run(more, i, false) >= down && NotUpSince(more, i, up);
    }
  }

  lemma LatestRunOneMore(history: seq<Probe>, p: Probe, success: bool)
    ensures LatestRun(history + [p], success) == if p.success == success then LatestRun(history, success) + 1 else 0
  {
    RunOfPrefix(history, p, |history|, success);
  }

  /** Counters are the latest runs, cut off at 32 bits. */
  lemma {:induction false} CountersAreRuns(h: RecordHealth, history: seq<Probe>)
    requires h.successes == 0 && h.failures == 0
    ensures After(h, history).successes ==
            if LatestRun(history, true) < U32_MAX then LatestRun(history, true) else U32_MAX
    ensures After(h, history).failures ==
            if LatestRun(history, false) < U32_MAX then LatestRun(history, false) else U32_MAX
    ensures After(h, history).healthyThreshold == h.healthyThreshold
    ensures After(h, history).unhealthyThreshold == h.unhealthyThreshold
    ensures After(h, history).group == h.group
    ensures After(h, history).lastCheckedAt.None? <==> history == [] && h.lastCheckedAt.None?
    decreases |history|
  {
    if history != [] {
      var init, p := history[..|history| - 1], history[|history| - 1];
      assert history == init + [p];
      CountersAreRuns(h, init);
      LatestRunOneMore(init, p, true);
      LatestRunOneMore(init, p, false);
    }
  }

  /**
   For every history: Unhealthy exactly when a full run of failures came with no
   full run of successes since; Unknown exactly before the first success and the
   first full run of failures.  Saturation of the counters never shows.
   */
  lemma {:induction false} StatusOfHistory(ht: u32, ut: u32, group: Group, history: seq<Probe>)
    ensures var h := After(NewHealth(ht, ut, group), history);
            && (h.status == Unhealthy <==> Down(history, AtLeastOne(ut), AtLeastOne(ht)))
            && (h.status == Unknown <==>
                (forall i :: 0 <= i < |history| ==> !history[i].success) && |history| < AtLeastOne(ut))
    decreases |history|
  {
    if history != [] {
      var init, p := history[..|history| - 1], history[|history| - 1];
      assert history == init + [p];
      StatusOfHistory(ht, ut, group, init);
      CountersAreRuns(NewHealth(ht, ut, group), init);
      DownAfterOneMore(init, p, AtLeastOne(ut), AtLeastOne(ht));
      LatestRunOneMore(init, p, true);
      LatestRunOneMore(init, p, false);
      FailuresOnly(init);
    }
  }

  lemma {:induction false} FailuresOnly(history: seq<Probe>)
    ensures LatestRun(history, false) <= |history|
    ensures (forall i :: 0 <= i < |history| ==> !history[i].success) <==> LatestRun(history, false) == |history|
    decreases |history|
  {
    if history != [] {
      var init, p := history[..|history| - 1], history[|history| - 1];
      assert history == init + [p];
      FailuresOnly(init);
      LatestRunOneMore(init, p, false);
    }
  }

  ghost predicate LastSuccess(history: seq<Probe>, i: int) {
    0 <= i < |history| && history[i].success && forall j :: i < j < |history| ==> !history[j].success
  }

  /** The time of the last successful probe, or none if no probe was successful. */
  ghost predicate IsLastSuccess(history: seq<Probe>, at: Option<nat>) {
    match at
    case None => forall i :: 0 <= i < |history| ==> !history[i].success
    case Some(t) => exists i :: LastSuccess(history, i) && history[i].at == t
  }

  /** The status after the first `n` probes. */
  function StatusAt(h: RecordHealth, history: seq<Probe>, n: nat): HealthStatus
    requires n <= |history|
  {
    After(h, history[..n]).status
  }

  ghost predicate LastChange(h: RecordHealth, history: seq<Probe>, i: int) {
    && 0 <= i < |history| && StatusAt(h, history, i) != StatusAt(h, history, i + 1)
    && forall j :: i < j <= |history| ==> StatusAt(h, history, j) == StatusAt(h, history, i + 1)
  }

  lemma LastSuccessOneMore(history: seq<Probe>, p: Probe, at: Option<nat>)
    requires IsLastSuccess(history, at)
    ensures IsLastSuccess(history + [p], if p.success then Some(p.at) else at)
  {
    var more := history + [p];
    if p.success {
      assert LastSuccess(more, |history|);
    } else if at.Some? {
      var i :| LastSuccess(history, i) && history[i].at == at.value;
      assert LastSuccess(more, i);
    }
  }

  lemma StatusOfPrefix(h: RecordHealth, history: seq<Probe>, p: Probe)
    ensures forall n :: 0 <= n <= |history| ==> StatusAt(h, history + [p], n) == StatusAt(h, history, n)
    ensures StatusAt(h, history, |history|) == After(h, history).status
    ensures StatusAt(h, history + [p], |history| + 1) == After(h, history + [p]).status
  {
    var more := history + [p];
    assert history[..|history|] == history && more[..|more|] == more;
    forall n | 0 <= n <= |history|
      ensures StatusAt(h, more, n) == StatusAt(h, history, n)
    {
      assert more[..n] == history[..n];
    }
  }

  /** The time of a record's last change is that of the last probe that changed its status. */
  lemma {:induction false} ChangeOfHistory(h: RecordHealth, history: seq<Probe>)
    requires h.lastStateChangeAt.None?
    ensures match After(h, history).lastStateChangeAt
            case None => forall n :: 0 <= n <= |history| ==> StatusAt(h, history, n) == h.status
            case Some(t) => exists i :: LastChange(h, history, i) && history[i].at == t
    decreases |history|
  {
    if history == [] {
      assert history[..0] == [];
    } else {
      var init, p := history[..|history| - 1], history[|history| - 1];
      assert history == init + [p];
      assert After(h, history) == Observe(After(h, init), p.success, p.at);
      ChangeOfHistory(h, init);
      StatusOfPrefix(h, init, p);
      if After(h, history).status != After(h, init).status {
        assert LastChange(h, history, |init|);
      } else if After(h, init).lastStateChangeAt.Some? {
        var i :| LastChange(h, init, i) && init[i].at == After(h, init).lastStateChangeAt.value;
        ChangeStays(h, init, p, i);
      }
    }
  }

  lemma ChangeStays(h: RecordHealth, history: seq<Probe>, p: Probe, i: int)
    requires LastChange(h, history, i) && After(h, history + [p]).status == After(h, history).status
    ensures LastChange(h, history + [p], i)
  {
    StatusOfPrefix(h, history, p);
  }

  /** The times of a record: those of its last successful probe and of its last probe. */
  lemma {:induction false} TimesOfHistory(ht: u32, ut: u32, group: Group, history: seq<Probe>)
    ensures var h := After(NewHealth(ht, ut, group), history);
            && IsLastSuccess(history, h.lastHealthyAt)
            && h.lastCheckedAt == if history == [] then None else Some(history[|history| - 1].at)
    decreases |history|
  {
    if history != [] {
      var init, p := history[..|history| - 1], history[|history| - 1];
      assert history == init + [p];
      TimesOfHistory(ht, ut, group, init);
      LastSuccessOneMore(init, p, After(NewHealth(ht, ut, group), init).lastHealthyAt);
    }
  }

  // --- Restarts ---

  function ToPersisted(id: Uuid, h: RecordHealth): Option<PersistedHealth> {
    if h.lastCheckedAt.None? then None
    else
      var at := h.lastCheckedAt.value;
      Some(PersistedHealth(id, h.status, at,
                           if h.lastStateChangeAt.Some? then h.lastStateChangeAt.value else at,
                           h.lastHealthyAt, h.successes, h.failures))
  }

  function FromPersisted(row: PersistedHealth, healthyThreshold: u32, unhealthyThreshold: u32,
                         group: Group): RecordHealth {
    RecordHealth(row.status, row.consecutiveSuccesses, row.consecutiveFailures, healthyThreshold, unhealthyThreshold,
                 group, Some(row.lastCheckedAt), Some(row.lastStateChangeAt), row.lastHealthyAt)
  }

  /** A probed record comes back from its row as it was; one that never changed counts as changed at its last probe. */
  lemma RowRoundTrip(id: Uuid, h: RecordHealth)
    requires h.lastCheckedAt.Some?
    ensures var row := ToPersisted(id, h);
            && row.Some? && row.value.recordId == id
            && FromPersisted(row.value, h.healthyThreshold, h.unhealthyThreshold, h.group) ==
               if h.lastStateChangeAt.Some? then h else h.(lastStateChangeAt := h.lastCheckedAt)
  {
  }

  /** No difference any later decision can show. */
  predicate Alike(h: RecordHealth, k: RecordHealth) {
    && h.status == k.status && h.successes == k.successes && h.failures == k.failures
    && AtLeastOne(h.healthyThreshold) == AtLeastOne(k.healthyThreshold)
    && AtLeastOne(h.unhealthyThreshold) == AtLeastOne(k.unhealthyThreshold)
    && h.group == k.group && h.lastCheckedAt == k.lastCheckedAt && h.lastHealthyAt == k.lastHealthyAt
  }

  /** A record that was never probed is as it was registered. */
  predicate Unprobed(h: RecordHealth) {
    h.lastCheckedAt.None? ==> h.status == Unknown && h.successes == 0 && h.failures == 0 && h.lastHealthyAt.None?
  }

  datatype Event = Event(id: string, success: bool, at: nat)

  /** All records after a sequence of probe results, in order of arrival. */
  function Observed(m: map<string, RecordHealth>, events: seq<Event>): map<string, RecordHealth> {
    if events == [] then m
    else
      var e := events[|events| - 1];
      var before := Observed(m, events[..|events| - 1]);
      if e.id in before then before[e.id := Observe(before[e.id], e.success, e.at)] else before
  }

  /** The probes of one record among all results. */
  function ProbesOf(events: seq<Event>, id: string): seq<Probe> {
    if events == [] then []
    else
      var rest, e := ProbesOf(events[..|events| - 1], id), events[|events| - 1];
      if e.id == id then rest + [Probe(e.success, e.at)] else rest
  }

  /** A record's health depends on its own probes only. */
  lemma {:induction false} ObservedIsAfter(m: map<string, RecordHealth>, events: seq<Event>, id: string)
    ensures id in Observed(m, events) <==> id in m
    ensures id in m ==> Observed(m, events)[id] == After(m[id], ProbesOf(events, id))
    decreases |events|
  {
    if events != [] {
      ObservedIsAfter(m, events[..|events| - 1], id);
    }
  }

  ghost predicate LastGood(events: seq<Event>, id: string, i: int) {
    && 0 <= i < |events| && events[i].id == id && events[i].success
    && forall j :: i < j < |events| && events[j].id == id ==> !events[j].success
  }

  /** A record was last healthy when the last good result for it arrived, and never if none did. */
  lemma {:induction false} LastHealthyOfEvents(m: map<string, RecordHealth>, events: seq<Event>, id: string)
    requires id in m && m[id].lastHealthyAt.None?
    ensures id in Observed(m, events)
    ensures match Observed(m, events)[id].lastHealthyAt
            case None => forall i :: 0 <= i < |events| && events[i].id == id ==> !events[i].success
            case Some(t) => exists i :: LastGood(events, id, i) && events[i].at == t
    decreases |events|
  {
    if events != [] {
      var init, last := events[..|events| - 1], |events| - 1;
      LastHealthyOfEvents(m, init, id);
      if events[last].id == id && events[last].success {
        assert LastGood(events, id, last);
      } else if Observed(m, init)[id].lastHealthyAt.Some? {
        var i :| LastGood(init, id, i) && init[i].at == Observed(m, init)[id].lastHealthyAt.value;
        assert LastGood(events, id, i) && events[i].at == init[i].at;
      }
    }
  }

  predicate AllAlike(m: map<string, RecordHealth>, n: map<string, RecordHealth>) {
    m.Keys == n.Keys && forall id :: id in m ==> Alike(m[id], n[id])
  }

  lemma {:induction false} AlikeForever(m: map<string, RecordHealth>, n: map<string, RecordHealth>, events: seq<Event>)
    requires AllAlike(m, n)
    ensures AllAlike(Observed(m, events), Observed(n, events))
    decreases |events|
  {
    if events != [] {
      AlikeForever(m, n, events[..|events| - 1]);
    }
  }

  // --- The failsafe ---

  /** Two or more members, all of them Unhealthy. */
  ghost predicate GroupDown(m: map<string, RecordHealth>, g: Group) {
    && (exists id, id' :: id in m && id' in m && id != id' && m[id].group == g && m[id'].group == g)
    && forall id :: id in m && m[id].group == g ==> m[id].status == Unhealthy
  }

  ghost predicate EverAlive(m: map<string, RecordHealth>, g: Group) {
    exists id :: id in m && m[id].group == g && m[id].lastHealthyAt.Some?
  }

  predicate NoLater(a: Option<nat>, b: Option<nat>) {
    a.None? || (b.Some? && a.value <= b.value)
  }

  /** No member of the group was healthy later than this one. */
  ghost predicate LastAlive(m: map<string, RecordHealth>, id: string) {
    && id in m && m[id].lastHealthyAt.Some?
    && forall x :: x in m && m[x].group == m[id].group ==> NoLater(m[x].lastHealthyAt, m[id].lastHealthyAt)
  }

  /** The records the failsafe may keep enabled. */
  ghost predicate Candidate(m: map<string, RecordHealth>, id: string) {
    id in m && GroupDown(m, m[id].group) && LastAlive(m, id)
  }

  // --- The same from the probes ---

  /** All probes of a record so far. */
  function Past(past: map<string, seq<Probe>>, id: string): seq<Probe> {
    if id in past then past[id] else []
  }

  /** The state is what these probes make of records registered with the same settings. */
  ghost predicate Recalls(m: map<string, RecordHealth>, past: map<string, seq<Probe>>) {
    && (forall id :: id in m ==> Alike(m[id], Replayed(m[id], Past(past, id))))
    && forall id :: id in past && id !in m ==> past[id] == []
  }

  function Replayed(h: RecordHealth, history: seq<Probe>): RecordHealth {
    After(NewHealth(h.healthyThreshold, h.unhealthyThreshold, h.group), history)
  }

  /** The probes leave a record down. */
  ghost predicate DownBy(h: RecordHealth, history: seq<Probe>) {
    Down(history, AtLeastOne(h.unhealthyThreshold), AtLeastOne(h.healthyThreshold))
  }

  lemma RecalledHealth(m: map<string, RecordHealth>, past: map<string, seq<Probe>>, id: string)
    requires Recalls(m, past) && id in m
    ensures m[id].status == Unhealthy <==> DownBy(m[id], Past(past, id))
    ensures IsLastSuccess(Past(past, id), m[id].lastHealthyAt)
  {
    var h := m[id];
    StatusOfHistory(h.healthyThreshold, h.unhealthyThreshold, h.group, Past(past, id));
    TimesOfHistory(h.healthyThreshold, h.unhealthyThreshold, h.group, Past(past, id));
  }

  /** Two or more members, all of them left down by their probes. */
  ghost predicate AllDown(m: map<string, RecordHealth>, past: map<string, seq<Probe>>, g: Group) {
    && (exists id, id' :: id in m && id' in m && id != id' && m[id].group == g && m[id'].group == g)
    && forall id :: id in m && m[id].group == g ==> DownBy(m[id], Past(past, id))
  }

  /** Some member had a successful probe. */
  ghost predicate EverUp(m: map<string, RecordHealth>, past: map<string, seq<Probe>>, g: Group) {
    exists id :: id in m && m[id].group == g && exists i :: LastSuccess(Past(past, id), i)
  }

  /** The record had a successful probe, and no member of its group has one as its last that is later. */
  ghost predicate UpLast(m: map<string, RecordHealth>, past: map<string, seq<Probe>>, id: string) {
    && id in m
    && exists i :: LastSuccess(Past(past, id), i) && NoneLater(m, past, m[id].group, Past(past, id)[i].at)
  }

  ghost predicate NoneLater(m: map<string, RecordHealth>, past: map<string, seq<Probe>>, g: Group, at: nat) {
    forall x, j :: x in m && m[x].group == g && LastSuccess(Past(past, x), j) ==> Past(past, x)[j].at <= at
  }

  lemma OneLastSuccess(history: seq<Probe>, i: int, j: int)
    requires LastSuccess(history, i) && LastSuccess(history, j)
    ensures i == j
  {
  }

  lemma AllDownIsGroupDown(m: map<string, RecordHealth>, past: map<string, seq<Probe>>, g: Group)
    requires Recalls(m, past)
    ensures AllDown(m, past, g) <==> GroupDown(m, g)
    ensures EverUp(m, past, g) <==> EverAlive(m, g)
  {
    forall id | id in m
      ensures m[id].status == Unhealthy <==> DownBy(m[id], Past(past, id))
      ensures m[id].lastHealthyAt.Some? <==> exists i :: LastSuccess(Past(past, id), i)
    {
      RecalledHealth(m, past, id);
    }
  }

  lemma LastAliveIsUpLast(m: map<string, RecordHealth>, past: map<string, seq<Probe>>, id: string)
    requires Recalls(m, past) && LastAlive(m, id)
    ensures UpLast(m, past, id)
  {
    RecalledHealth(m, past, id);
    var i :| LastSuccess(Past(past, id), i) && Past(past, id)[i].at == m[id].lastHealthyAt.value;
    forall x, j | x in m && m[x].group == m[id].group && LastSuccess(Past(past, x), j)
      ensures Past(past, x)[j].at <= Past(past, id)[i].at
    {
      RecalledHealth(m, past, x);
      var k :| LastSuccess(Past(past, x), k) && Some(Past(past, x)[k].at) == m[x].lastHealthyAt;
      OneLastSuccess(Past(past, x), j, k);
    }
  }

  lemma {:induction false} AlikeAfter(h: RecordHealth, k: RecordHealth, history: seq<Probe>)
    requires Alike(h, k)
    ensures Alike(After(h, history), After(k, history))
    decreases |history|
  {
    if history != [] {
      AlikeAfter(h, k, history[..|history| - 1]);
    }
  }

  lemma {:induction false} AfterConcat(h: RecordHealth, a: seq<Probe>, b: seq<Probe>)
    ensures After(After(h, a), b) == After(h, a + b)
    decreases |b|
  {
    if b == [] {
      assert a + b == a;
    } else {
      AfterConcat(h, a, b[..|b| - 1]);
      assert (a + b)[..|a + b| - 1] == a + b[..|b| - 1];
    }
  }

  /** A state that replays some probes goes on to replay those and all that follow. */
  lemma ReplayedOn(h: RecordHealth, a: seq<Probe>, b: seq<Probe>)
    requires Alike(h, Replayed(h, a))
    ensures Alike(After(h, b), Replayed(After(h, b), a + b))
  {
    var start := NewHealth(h.healthyThreshold, h.unhealthyThreshold, h.group);
    AlikeAfter(h, After(start, a), b);
    AfterConcat(start, a, b);
    SettingsStay(h, b);
  }

  lemma {:induction false} SettingsStay(h: RecordHealth, history: seq<Probe>)
    ensures After(h, history).healthyThreshold == h.healthyThreshold
    ensures After(h, history).unhealthyThreshold == h.unhealthyThreshold
    ensures After(h, history).group == h.group
    decreases |history|
  {
    if history != [] {
      SettingsStay(h, history[..|history| - 1]);
    }
  }

  lemma AlikeCandidates(m: map<string, RecordHealth>, n: map<string, RecordHealth>, id: string)
    requires AllAlike(m, n)
    ensures Candidate(m, id) <==> Candidate(n, id)
  {
  }

  // --- The map of all monitored records ---

  class HealthState {
    var records: map<string, RecordHealth>

    constructor ()
      ensures records == map[]
    {
      records := map[];
    }

    /** Starts monitoring a record unless it is monitored already. */
    method Register(id: Uuid, healthyThreshold: u32, unhealthyThreshold: u32, group: Group)
      modifies this
      ensures records == if id in old(records) then old(records)
                         else old(records)[id := NewHealth(healthyThreshold, unhealthyThreshold, group)]
    {
      if id !in records {
        records := records[id := NewHealth(healthyThreshold, unhealthyThreshold, group)];
      }
    }

    method Hydrate(id: Uuid, h: RecordHealth)
      modifies this
      ensures records == old(records)[id := h]
    {
      records := records[id := h];
    }

    /** Drops what is no longer live and says what was dropped. */
    method RetainOnly(live: set<string>) returns (dropped: set<string>)
      modifies this
      ensures records == map id | id in old(records) && id in live :: old(records)[id]
      ensures dropped == old(records).Keys - live
    {
      dropped := records.Keys - live;
      records := records - dropped;
    }

    /** Applies a probe result; the answer is the new status if it changed. */
    method RecordResult(id: string, success: bool, now: nat) returns (change: Option<HealthStatus>)
      modifies this
      ensures id !in old(records) ==> records == old(records) && change == None
      ensures id in old(records) ==>
                var before, after := old(records)[id], Observe(old(records)[id], success, now);
                && records == old(records)[id := after]
                && change == if after.status != before.status then Some(after.status) else None
    {
      if id !in records {
        return None;
      }
      var h := records[id];
      var prev := h.status;
      if success {
        h := h.(successes := SaturatingInc(h.successes), failures := 0, lastHealthyAt := Some(now));
        match h.status {
          case Unknown => h := h.(status := Healthy);
          case Unhealthy =>
            if h.successes >= h.healthyThreshold {
              h := h.(status := Healthy);
            }
          case Healthy =>
        }
      } else {
        h := h.(failures := SaturatingInc(h.failures), successes := 0);
        if h.failures >= h.unhealthyThreshold && h.status != Unhealthy {
          h := h.(status := Unhealthy);
        }
      }
      h := h.(lastCheckedAt := Some(now));
      change := None;
      if prev != h.status {
        h := h.(lastStateChangeAt := Some(now));
        change := Some(h.status);
      }
      records := records[id := h];
    }

    /** The ids under each group. */
    method Grouped() returns (groups: map<Group, seq<string>>)
      ensures forall id :: id in records ==> records[id].group in groups
      ensures forall g :: g in groups ==> MembersList(records, g, groups[g])
    {
      groups := map[];
      var ids := InOrder(records.Keys);
      for i := 0 to |ids|
        invariant GroupsOf(records, ids[..i], groups)
      {
        var g := records[ids[i]].group;
        GroupsSnoc(records, ids, i, groups);
        groups := groups[g := (if g in groups then groups[g] else []) + [ids[i]]];
      }
      assert ids[..|ids|] == ids;
      GroupsAreMembers(records, ids, groups);
    }

    /** The member alive last, if the group has two or more members, all Unhealthy, and one was ever alive. */
    method LastAliveOf(g: Group, members: seq<string>) returns (pick: Option<string>)
      requires MembersList(records, g, members)
      ensures pick.Some? <==> GroupDown(records, g) && EverAlive(records, g)
      ensures pick.Some? ==> pick.value in records && records[pick.value].group == g && Candidate(records, pick.value)
    {
      if |members| < 2 {
        return None;
      }
      assert members[0] in records && members[1] in records && members[0] != members[1];
      for i := 0 to |members|
        invariant forall k :: 0 <= k < i ==> records[members[k]].status == Unhealthy
      {
        if records[members[i]].status != Unhealthy {
          return None;
        }
      }
      assert GroupDown(records, g);
      var best := members[0];
      for i := 1 to |members|
        invariant best in members
        invariant forall k :: 0 <= k < i ==> NoLater(records[members[k]].lastHealthyAt, records[best].lastHealthyAt)
      {
        if NoLater(records[best].lastHealthyAt, records[members[i]].lastHealthyAt) {
          best := members[i];
        }
      }
      pick := if records[best].lastHealthyAt.Some? then Some(best) else None;
    }

    /** One record of every group that is down and was ever alive: one that was alive last. */
    method FailsafeRecords() returns (picks: seq<string>)
      ensures forall id :: id in picks ==> Candidate(records, id)
      ensures forall g :: GroupDown(records, g) && EverAlive(records, g) ==> PickedFor(records, picks, g)
      ensures OnePerGroup(records, picks)
    {
      var groups := Grouped();
      picks := [];
      var todo := groups.Keys;
      while todo != {}
        invariant todo <= groups.Keys
        invariant PickedSoFar(records, picks, groups.Keys - todo)
      {
        var g :| g in todo;
        var pick := LastAliveOf(g, groups[g]);
        PickedOneMore(records, picks, groups.Keys - todo, g, pick);
        if pick.Some? {
          picks := picks + [pick.value];
        }
        assert groups.Keys - (todo - {g}) == groups.Keys - todo + {g};
        todo := todo - {g};
      }
    }
  }

  /** Every member of the group, once. */
  ghost predicate MembersList(m: map<string, RecordHealth>, g: Group, members: seq<string>) {
    NoDup(members) && forall id :: id in members <==> id in m && m[id].group == g
  }

  /** The ids of one group, in the order given. */
  ghost function MembersIn(m: map<string, RecordHealth>, ids: seq<string>, g: Group): seq<string> {
    if ids == [] then []
    else
      var last := ids[|ids| - 1];
      MembersIn(m, ids[..|ids| - 1], g) + if last in m && m[last].group == g then [last] else []
  }

  lemma {:induction false} MembersInContents(m: map<string, RecordHealth>, ids: seq<string>, g: Group)
    requires NoDup(ids)
    ensures NoDup(MembersIn(m, ids, g))
    ensures forall id :: id in MembersIn(m, ids, g) <==> id in ids && id in m && m[id].group == g
    decreases |ids|
  {
    if ids != [] {
      var init, last := ids[..|ids| - 1], ids[|ids| - 1];
      MembersInContents(m, init, g);
      assert ids == init + [last] && last !in init;
    }
  }

  ghost predicate GroupsOf(m: map<string, RecordHealth>, ids: seq<string>, groups: map<Group, seq<string>>) {
    forall g :: MembersIn(m, ids, g) == if g in groups then groups[g] else []
  }

  lemma GroupsSnoc(m: map<string, RecordHealth>, ids: seq<string>, i: nat, groups: map<Group, seq<string>>)
    requires i < |ids| && ids[i] in m && GroupsOf(m, ids[..i], groups)
    ensures var g := m[ids[i]].group;
            GroupsOf(m, ids[..i + 1], groups[g := (if g in groups then groups[g] else []) + [ids[i]]])
  {
    assert ids[..i + 1][..i] == ids[..i];
  }

  lemma GroupsAreMembers(m: map<string, RecordHealth>, ids: seq<string>, groups: map<Group, seq<string>>)
    requires GroupsOf(m, ids, groups) && NoDup(ids) && forall id :: id in ids <==> id in m
    ensures forall id :: id in m ==> m[id].group in groups
    ensures forall g :: g in groups ==> MembersList(m, g, groups[g])
  {
    forall g
      ensures MembersList(m, g, MembersIn(m, ids, g))
    {
      MembersInContents(m, ids, g);
    }
    forall id | id in m
      ensures m[id].group in groups
    {
      assert id in MembersIn(m, ids, m[id].group);
    }
  }

  ghost predicate PickedFor(m: map<string, RecordHealth>, picks: seq<string>, g: Group) {
    exists id :: id in picks && id in m && m[id].group == g
  }

  ghost predicate OnePerGroup(m: map<string, RecordHealth>, picks: seq<string>) {
    forall i, j :: 0 <= i < j < |picks| ==> picks[i] in m && picks[j] in m && m[picks[i]].group != m[picks[j]].group
  }

  /** Right picks for the groups done, and for no other. */
  ghost predicate PickedSoFar(m: map<string, RecordHealth>, picks: seq<string>, done: set<Group>) {
    && (forall id :: id in picks ==> Candidate(m, id) && m[id].group in done)
    && (forall g :: g in done && GroupDown(m, g) && EverAlive(m, g) ==> PickedFor(m, picks, g))
    && OnePerGroup(m, picks)
  }

  lemma PickedOneMore(m: map<string, RecordHealth>, picks: seq<string>, done: set<Group>, g: Group,
                      pick: Option<string>)
    requires PickedSoFar(m, picks, done) && g !in done
    requires pick.Some? <==> GroupDown(m, g) && EverAlive(m, g)
    requires pick.Some? ==> pick.value in m && m[pick.value].group == g && Candidate(m, pick.value)
    ensures PickedSoFar(m, if pick.Some? then picks + [pick.value] else picks, done + {g})
  {
    if pick.Some? {
      var more := picks + [pick.value];
      assert pick.value in more;
      assert PickedFor(m, more, g);
      forall i, j | 0 <= i < j < |more|
        ensures more[i] in m && more[j] in m && m[more[i]].group != m[more[j]].group
      {
        assert more[i] == picks[i] && picks[i] in picks;
        assert j < |picks| ==> more[j] == picks[j];
      }
      forall h | PickedFor(m, picks, h)
        ensures PickedFor(m, more, h)
      {
        var id :| id in picks && id in m && m[id].group == h;
        assert id in more;
      }
    }
  }

}
