/**
 Pull replication from one peer, as a state machine.  Writers on the primary change
 records in one transaction and bump the serial in a later one; the agent lists all
 zones, then fetches, upserts, replaces and notes the serial zone by zone, each in
 its own step.  Anything may happen in between, including a failure of the sync.
 */
module Replication {
  import opened Text
  import opened Types
  import opened Serial

  type Content = map<string, Record>

  /**
   A zone on the primary: the contents after every write so far, and for each write
   the serial its writer bumped to, if it has done so.
   */
  datatype Primary = Primary(log: seq<Content>, bumps: seq<Option<u32>>, serial: u32)

  /** The copy: its records, the write they include last, the serial it serves, and the serial noted for the source. */
  datatype Copy = Copy(records: Content, version: Option<nat>, zoneSerial: Option<u32>, sourceSerial: Option<u32>)

  datatype Phase =
    | Start
    | Fetched(records: Content, version: nat)
    | Upserted(records: Content, version: nat)
    | Replaced

  datatype Agent = Idle | Syncing(listing: seq<(string, u32)>, i: nat, phase: Phase)

  datatype State = State(primary: map<string, Primary>, replica: map<string, Copy>, agent: Agent)

  /** What a record becomes on its way: health check, source and origin are not carried over. */
  function Mirrored(r: Record): Record {
    r.(healthCheck := None, source := Manual, origin := None)
  }

  /** The same records with the primary's id, zone, name, TTL, data and enabled flag, and nothing else of theirs. */
  ghost predicate Mirrors(m: Content, c: Content) {
    && m.Keys == c.Keys
    && forall id :: id in m ==>
        && m[id].id == c[id].id && m[id].zoneId == c[id].zoneId && m[id].name == c[id].name
        && m[id].ttl == c[id].ttl && m[id].data == c[id].data && m[id].enabled == c[id].enabled
        && m[id].healthCheck.None? && m[id].source == Manual && m[id].origin.None?
  }

  function Mirror(c: Content): (m: Content)
    ensures Mirrors(m, c)
  {
    map id | id in c :: Mirrored(c[id])
  }

  // --- Steps ---

  datatype Step =
    | Write(zone: string, content: Content)
    | BumpFor(zone: string, write: nat, stamp: nat)
    | List
    | Skip
    | Fetch
    | Upsert
    | ReplaceRecords
    | Note
    | Finish
    | Fail

  predicate IsPrimaryStep(step: Step) {
    step.Write? || step.BumpFor?
  }

  function Listing(primary: map<string, Primary>, order: seq<string>): (l: seq<(string, u32)>)
    requires forall z :: z in order ==> z in primary
    ensures |l| == |order|
    ensures forall k :: 0 <= k < |order| ==> l[k] == (order[k], primary[order[k]].serial)
  {
    seq(|order|, k requires 0 <= k < |order| => (order[k], primary[order[k]].serial))
  }

  predicate AtZone(s: State) {
    && s.agent.Syncing? && s.agent.i < |s.agent.listing|
    && s.agent.listing[s.agent.i].0 in s.primary && s.agent.listing[s.agent.i].0 in s.replica
  }

  predicate NeedsSync(c: Copy, remote: u32) {
    c.sourceSerial.None? || c.sourceSerial.value < remote
  }

  predicate Enabled(s: State, step: Step) {
    match step
    case Write(z, _) => z in s.primary
    case BumpFor(z, w, _) =>
      && z in s.primary && s.primary[z].serial < U32_MAX
      && w < |s.primary[z].bumps| && s.primary[z].bumps[w].None?
    case List => s.agent.Idle?
    case Skip => AtZone(s) && s.agent.phase.Start? && !NeedsSync(s.replica[Zone(s)], Remote(s))
    case Fetch =>
      && AtZone(s) && s.agent.phase.Start? && NeedsSync(s.replica[Zone(s)], Remote(s))
      && s.primary[Zone(s)].log != []
    case Upsert => AtZone(s) && s.agent.phase.Fetched?
    case ReplaceRecords => AtZone(s) && s.agent.phase.Upserted?
    case Note => AtZone(s) && s.agent.phase.Replaced?
    case Finish => s.agent.Syncing? && s.agent.i == |s.agent.listing| && s.agent.phase.Start?
    case Fail => s.agent.Syncing?
  }

  function Zone(s: State): string
    requires AtZone(s)
  {
    s.agent.listing[s.agent.i].0
  }

  function Remote(s: State): u32
    requires AtZone(s)
  {
    s.agent.listing[s.agent.i].1
  }

  function Next(s: State, step: Step): State
    requires Enabled(s, step)
  {
    match step
    case Write(z, content) =>
      var p := s.primary[z];
      s.(primary := s.primary[z := p.(log := p.log + [content], bumps := p.bumps + [None])])
    case BumpFor(z, w, stamp) =>
      var p := s.primary[z];
      var serial := Bump(p.serial, stamp);
      s.(primary := s.primary[z := p.(serial := serial, bumps := p.bumps[w := Some(serial)])])
    case List => s.(agent := Syncing(Listing(s.primary, InOrder(s.primary.Keys)), 0, Start))
    case Skip => s.(agent := s.agent.(i := s.agent.i + 1))
    case Fetch =>
      var log := s.primary[Zone(s)].log;
      s.(agent := s.agent.(phase := Fetched(Mirror(log[|log| - 1]), |log| - 1)))
    case Upsert =>
      s.(replica := s.replica[Zone(s) := s.replica[Zone(s)].(zoneSerial := Some(Remote(s)))],
         agent := s.agent.(phase := Upserted(s.agent.phase.records, s.agent.phase.version)))
    case ReplaceRecords =>
      var p := s.agent.phase;
      s.(replica := s.replica[Zone(s) := s.replica[Zone(s)].(records := p.records, version := Some(p.version))],
         agent := s.agent.(phase := Replaced))
    case Note =>
      s.(replica := s.replica[Zone(s) := s.replica[Zone(s)].(sourceSerial := Some(Remote(s)))],
         agent := s.agent.(i := s.agent.i + 1, phase := Start))
    case Finish => s.(agent := Idle)
    case Fail => s.(agent := Idle)
  }

  // --- The invariant ---

  /** The log is not empty, and no bump exceeds the serial. */
  ghost predicate PrimaryOk(p: Primary) {
    && p.log != [] && |p.bumps| == |p.log|
    && forall j :: 0 <= j < |p.bumps| && p.bumps[j].Some? ==> p.bumps[j].value <= p.serial
  }

  /** Every write whose bump is at most `serial` is among the first ones, up to `version`. */
  ghost predicate Includes(p: Primary, version: nat, serial: u32) {
    && serial <= p.serial
    && forall j :: 0 <= j < |p.bumps| && p.bumps[j].Some? && p.bumps[j].value <= serial ==> j <= version
  }

  /** The records are the mirror of a version of the primary that has everything up to the noted serial. */
  ghost predicate CopyOk(p: Primary, c: Copy) {
    && (c.version.Some? ==> c.version.value < |p.log| && c.records == Mirror(p.log[c.version.value]))
    && (c.version.None? ==> c.sourceSerial.None?)
    && (c.sourceSerial.Some? ==> Includes(p, c.version.value, c.sourceSerial.value))
    && (c.zoneSerial.Some? ==> c.zoneSerial.value <= p.serial)
    && (c.sourceSerial.Some? ==> c.zoneSerial.Some? && c.sourceSerial.value <= c.zoneSerial.value)
  }

  /** A fetched snapshot is no older than the copy and has everything up to the listed serial. */
  ghost predicate SnapshotOk(p: Primary, c: Copy, records: Content, version: nat, remote: u32) {
    && version < |p.log| && records == Mirror(p.log[version])
    && (c.version.Some? ==> c.version.value <= version)
    && Includes(p, version, remote)
  }

  ghost predicate ListingOk(primary: map<string, Primary>, listing: seq<(string, u32)>) {
    forall k :: 0 <= k < |listing| ==> listing[k].0 in primary && listing[k].1 <= primary[listing[k].0].serial
  }

  ghost predicate AgentOk(s: State) {
    s.agent.Syncing? ==>
      && s.agent.i <= |s.agent.listing| && ListingOk(s.primary, s.agent.listing)
      && (!s.agent.phase.Start? ==> AtZone(s))
      && (AtZone(s) ==> PhaseOk(s.primary[Zone(s)], s.replica[Zone(s)], s.agent.phase, Remote(s)))
  }

  ghost predicate PhaseOk(p: Primary, c: Copy, phase: Phase, remote: u32) {
    match phase
    case Start => true
    case Fetched(records, version) => SnapshotOk(p, c, records, version, remote) && NeedsSync(c, remote)
    case Upserted(records, version) => SnapshotOk(p, c, records, version, remote) && c.zoneSerial == Some(remote)
    case Replaced => c.version.Some? && Includes(p, c.version.value, remote) && c.zoneSerial == Some(remote)
  }

  ghost predicate ZonesOk(primary: map<string, Primary>, replica: map<string, Copy>) {
    && replica.Keys == primary.Keys
    && forall z :: z in primary ==> PrimaryOk(primary[z]) && CopyOk(primary[z], replica[z])
  }

  ghost predicate Inv(s: State) {
    ZonesOk(s.primary, s.replica) && AgentOk(s)
  }

  lemma ZonesOkCopy(primary: map<string, Primary>, replica: map<string, Copy>, z: string, c: Copy)
    requires ZonesOk(primary, replica) && z in primary && CopyOk(primary[z], c)
    ensures ZonesOk(primary, replica[z := c])
  {
  }

  lemma ZonesOkPrimary(primary: map<string, Primary>, replica: map<string, Copy>, z: string, p: Primary)
    requires ZonesOk(primary, replica) && z in primary && PrimaryOk(p) && CopyOk(p, replica[z])
    ensures ZonesOk(primary[z := p], replica)
  {
  }

  lemma ListingOkPrimary(primary: map<string, Primary>, listing: seq<(string, u32)>, z: string, p: Primary)
    requires ListingOk(primary, listing) && z in primary && primary[z].serial <= p.serial
    ensures ListingOk(primary[z := p], listing)
  {
  }

  // --- Every step keeps it ---

  lemma WriteOk(p: Primary, content: Content)
    requires PrimaryOk(p)
    ensures var p' := p.(log := p.log + [content], bumps := p.bumps + [None]);
            && PrimaryOk(p')
            && (forall c :: CopyOk(p, c) ==> CopyOk(p', c))
            && (forall c, phase, remote :: PhaseOk(p, c, phase, remote) ==> PhaseOk(p', c, phase, remote))
  {
  }

  lemma BumpOk(p: Primary, w: nat, stamp: nat)
    requires PrimaryOk(p) && p.serial < U32_MAX && w < |p.bumps| && p.bumps[w].None?
    ensures var p' := p.(serial := Bump(p.serial, stamp), bumps := p.bumps[w := Some(Bump(p.serial, stamp))]);
            && PrimaryOk(p') && p'.serial > p.serial
            && (forall c :: CopyOk(p, c) ==> CopyOk(p', c))
            && (forall c, phase, remote :: PhaseOk(p, c, phase, remote) ==> PhaseOk(p', c, phase, remote))
  {
  }

  lemma PrimaryChangeKeepsInv(s: State, z: string, p: Primary)
    requires Inv(s) && z in s.primary && PrimaryOk(p) && s.primary[z].serial <= p.serial
    requires forall c :: CopyOk(s.primary[z], c) ==> CopyOk(p, c)
    requires forall c, phase, remote :: PhaseOk(s.primary[z], c, phase, remote) ==> PhaseOk(p, c, phase, remote)
    ensures Inv(s.(primary := s.primary[z := p]))
  {
    assert CopyOk(s.primary[z], s.replica[z]);
    ZonesOkPrimary(s.primary, s.replica, z, p);
    if s.agent.Syncing? {
      ListingOkPrimary(s.primary, s.agent.listing, z, p);
    }
  }

  lemma PrimaryStepKeepsInv(s: State, step: Step)
    requires Inv(s) && Enabled(s, step) && IsPrimaryStep(step)
    ensures Inv(Next(s, step))
  {
    var z := step.zone;
    var p := s.primary[z];
    assert PrimaryOk(p);
    match step
    case Write(_, content) =>
      WriteOk(p, content);
      PrimaryChangeKeepsInv(s, z, p.(log := p.log + [content], bumps := p.bumps + [None]));
    case BumpFor(_, w, stamp) =>
      BumpOk(p, w, stamp);
      PrimaryChangeKeepsInv(s, z,
                            p.(serial := Bump(p.serial, stamp), bumps := p.bumps[w := Some(Bump(p.serial, stamp))]));
  }

  lemma FetchOk(p: Primary, c: Copy, remote: u32)
    requires PrimaryOk(p) && CopyOk(p, c) && remote <= p.serial
    ensures SnapshotOk(p, c, Mirror(p.log[|p.log| - 1]), |p.log| - 1, remote)
  {
  }

  lemma UpsertOk(p: Primary, c: Copy, records: Content, version: nat, remote: u32)
    requires CopyOk(p, c) && PhaseOk(p, c, Fetched(records, version), remote)
    ensures var c' := c.(zoneSerial := Some(remote));
            CopyOk(p, c') && PhaseOk(p, c', Upserted(records, version), remote)
  {
  }

  lemma ReplaceOk(p: Primary, c: Copy, records: Content, version: nat, remote: u32)
    requires CopyOk(p, c) && PhaseOk(p, c, Upserted(records, version), remote)
    ensures var c' := c.(records := records, version := Some(version));
            CopyOk(p, c') && PhaseOk(p, c', Replaced, remote)
  {
  }

  lemma NoteOk(p: Primary, c: Copy, remote: u32)
    requires CopyOk(p, c) && PhaseOk(p, c, Replaced, remote)
    ensures CopyOk(p, c.(sourceSerial := Some(remote)))
  {
  }

  lemma AgentStepKeepsInv(s: State, step: Step)
    requires Inv(s) && Enabled(s, step) && !IsPrimaryStep(step)
    ensures Inv(Next(s, step))
  {
    if AtZone(s) {
      var p, c := s.primary[Zone(s)], s.replica[Zone(s)];
      assert PrimaryOk(p) && CopyOk(p, c);
      match step
      case Fetch => FetchOk(p, c, Remote(s));
      case Upsert =>
        UpsertOk(p, c, s.agent.phase.records, s.agent.phase.version, Remote(s));
        ZonesOkCopy(s.primary, s.replica, Zone(s), c.(zoneSerial := Some(Remote(s))));
      case ReplaceRecords =>
        var phase := s.agent.phase;
        ReplaceOk(p, c, phase.records, phase.version, Remote(s));
        ZonesOkCopy(s.primary, s.replica, Zone(s), c.(records := phase.records, version := Some(phase.version)));
      case Note =>
        NoteOk(p, c, Remote(s));
        ZonesOkCopy(s.primary, s.replica, Zone(s), c.(sourceSerial := Some(Remote(s))));
      case _ =>
    }
  }

  lemma StepKeepsInv(s: State, step: Step)
    requires Inv(s) && Enabled(s, step)
    ensures Inv(Next(s, step))
  {
    if IsPrimaryStep(step) {
      PrimaryStepKeepsInv(s, step);
    } else {
      AgentStepKeepsInv(s, step);
    }
  }

  // --- Whole runs ---

  predicate Legal(s: State, steps: seq<Step>)
    decreases |steps|
  {
    steps == [] || (Enabled(s, steps[0]) && Legal(Next(s, steps[0]), steps[1..]))
  }

  function Run(s: State, steps: seq<Step>): State
    requires Legal(s, steps)
    decreases |steps|
  {
    if steps == [] then s else Run(Next(s, steps[0]), steps[1..])
  }

  /** One version of each zone, an empty replica, an idle agent. */
  ghost predicate Init(s: State) {
    && s.replica.Keys == s.primary.Keys && s.agent.Idle?
    && forall z :: z in s.primary ==>
         && |s.primary[z].log| == 1 && s.primary[z].bumps == [Some(s.primary[z].serial)]
         && s.replica[z] == Copy(map[], None, None, None)
  }

  lemma {:induction false} RunKeepsInv(s: State, steps: seq<Step>)
    requires Inv(s) && Legal(s, steps)
    ensures Inv(Run(s, steps))
    decreases |steps|
  {
    if steps != [] {
      StepKeepsInv(s, steps[0]);
      RunKeepsInv(Next(s, steps[0]), steps[1..]);
    }
  }

  /** The copy is the mirror of one version, which includes every write bumped to at most the noted serial. */
  ghost predicate HasWhatItNoted(p: Primary, c: Copy) {
    c.sourceSerial.Some? ==>
      exists v :: 0 <= v < |p.log| && Mirrors(c.records, p.log[v]) && NothingMissed(p, c.sourceSerial.value, v)
  }

  ghost predicate NothingMissed(p: Primary, serial: u32, version: nat) {
    forall j :: 0 <= j < |p.bumps| && p.bumps[j].Some? && p.bumps[j].value <= serial ==> j <= version
  }

  lemma CopyHasWhatItNoted(p: Primary, c: Copy)
    requires CopyOk(p, c)
    ensures HasWhatItNoted(p, c)
  {
  }

  /** In every state of every run, each replica has what it noted. */
  lemma ReplicasHaveWhatTheyNoted(s: State, steps: seq<Step>, z: string)
    requires Init(s) && Legal(s, steps) && z in s.primary
    ensures var end := Run(s, steps);
            && z in end.primary && |end.primary[z].bumps| == |end.primary[z].log|
            && z in end.replica && HasWhatItNoted(end.primary[z], end.replica[z])
  {
    InitIsInv(s);
    RunKeepsInv(s, steps);
    RunKeepsZones(s, steps);
    var end := Run(s, steps);
    assert PrimaryOk(end.primary[z]);
    CopyHasWhatItNoted(end.primary[z], end.replica[z]);
  }

  /** The copy has every change bumped to at most the serial it serves. */
  ghost predicate HasWhatItServes(p: Primary, c: Copy) {
    c.zoneSerial.Some? ==>
      exists v :: 0 <= v < |p.log| && Mirrors(c.records, p.log[v]) && NothingMissed(p, c.zoneSerial.value, v)
  }

  /**
   The serial a replica serves never runs ahead of the primary's, never falls
   behind the one noted, and once the two agree the records have all it stands for.
   */
  lemma ServedSerialIsBetween(s: State, steps: seq<Step>, z: string)
    requires Init(s) && Legal(s, steps) && z in s.primary
    ensures var end := Run(s, steps);
            && z in end.primary && z in end.replica && |end.primary[z].bumps| == |end.primary[z].log|
            && var p, c := end.primary[z], end.replica[z];
               && (c.zoneSerial.Some? ==> c.zoneSerial.value <= p.serial)
               && (c.sourceSerial.Some? ==> c.zoneSerial.Some? && c.sourceSerial.value <= c.zoneSerial.value)
               && (c.sourceSerial == c.zoneSerial ==> HasWhatItServes(p, c))
  {
    ReplicasHaveWhatTheyNoted(s, steps, z);
    InitIsInv(s);
    RunKeepsInv(s, steps);
    assert CopyOk(Run(s, steps).primary[z], Run(s, steps).replica[z]);
  }

  lemma OneZoneListing(z: string, p: Primary)
    ensures Listing(map[z := p], InOrder({z})) == [(z, p.serial)]
  {
    assert LexLeast({z}) == z && {z} - {z} == {};
    assert InOrder({z}) == [z] + InOrder({});
  }

  const FAILING := [List, Fetch, Upsert, Fail]

  /** One zone with one version, bumped to serial 1, and a replica that has served nothing but a serial. */
  function OneZone(z: string, content: Content, served: Option<u32>, agent: Agent): State {
    State(map[z := Primary([content], [Some(1)], 1)], map[z := Copy(map[], None, served, None)], agent)
  }

  lemma FailingRun(z: string, content: Content)
    ensures Legal(OneZone(z, content, None, Idle), FAILING)
    ensures Run(OneZone(z, content, None, Idle), FAILING) == OneZone(z, content, Some(1), Idle)
  {
    var listing := [(z, 1)];
    var s := OneZone(z, content, None, Idle);
    OneZoneListing(z, Primary([content], [Some(1)], 1));
    assert s.primary.Keys == {z};
    var listed := OneZone(z, content, None, Syncing(listing, 0, Start));
    assert Next(s, List) == listed;
    var fetched := OneZone(z, content, None, Syncing(listing, 0, Fetched(Mirror(content), 0)));
    assert Next(listed, Fetch) == fetched;
    var upserted := OneZone(z, content, Some(1), Syncing(listing, 0, Upserted(Mirror(content), 0)));
    assert Next(fetched, Upsert) == upserted;
    FourSteps(s, listed, fetched, upserted, OneZone(z, content, Some(1), Idle));
  }

  /** A sync that fails between upsert and replace serves the new serial over the old records. */
  lemma FailedSyncServesAhead(z: string, content: Content)
    requires content != map[]
    ensures var s := OneZone(z, content, None, Idle);
            && Init(s) && Legal(s, FAILING)
            && !HasWhatItServes(Run(s, FAILING).primary[z], Run(s, FAILING).replica[z])
  {
    FailingRun(z, content);
    MirrorIsNotEmpty(content);
  }

  lemma MirrorIsNotEmpty(content: Content)
    requires content != map[]
    ensures Mirror(content) != map[]
  {
    var id :| id in content;
    assert id in Mirror(content);
  }

  lemma FourSteps(s: State, a: State, b: State, c: State, d: State)
    requires Enabled(s, List) && Next(s, List) == a && Enabled(a, Fetch) && Next(a, Fetch) == b
    requires Enabled(b, Upsert) && Next(b, Upsert) == c && Enabled(c, Fail) && Next(c, Fail) == d
    ensures Legal(s, [List, Fetch, Upsert, Fail]) && Run(s, [List, Fetch, Upsert, Fail]) == d
  {
    assert [List, Fetch, Upsert, Fail][1..] == [Fetch, Upsert, Fail];
    assert [Fetch, Upsert, Fail][1..] == [Upsert, Fail];
    assert [Upsert, Fail][1..] == [Fail];
    assert [Fail][1..] == [];
    assert Legal(d, []) && Run(d, []) == d;
    assert Legal(c, [Fail]) && Run(c, [Fail]) == d;
    assert Legal(b, [Upsert, Fail]) && Run(b, [Upsert, Fail]) == d;
    assert Legal(a, [Fetch, Upsert, Fail]) && Run(a, [Fetch, Upsert, Fail]) == d;
  }

  lemma InitIsInv(s: State)
    requires Init(s)
    ensures Inv(s)
  {
  }

  lemma {:induction false} RunKeepsZones(s: State, steps: seq<Step>)
    requires Inv(s) && Legal(s, steps)
    ensures Run(s, steps).primary.Keys == s.primary.Keys
    decreases |steps|
  {
    if steps != [] {
      StepKeepsInv(s, steps[0]);
      RunKeepsZones(Next(s, steps[0]), steps[1..]);
    }
  }

  // --- Convergence ---

  /** Every write has been bumped. */
  ghost predicate Quiet(p: Primary) {
    forall j :: 0 <= j < |p.bumps| ==> p.bumps[j].Some?
  }

  ghost predicate Equal(p: Primary, c: Copy) {
    p.log != [] && Mirrors(c.records, p.log[|p.log| - 1])
  }

  ghost predicate FreshPhase(p: Primary, c: Copy, phase: Phase) {
    match phase
    case Start => true
    case Fetched(records, _) => p.log != [] && records == Mirror(p.log[|p.log| - 1])
    case Upserted(records, _) => p.log != [] && records == Mirror(p.log[|p.log| - 1])
    case Replaced => Equal(p, c)
  }

  /** The listing names every zone once, with its current serial. */
  ghost predicate ExactListing(primary: map<string, Primary>, listing: seq<(string, u32)>) {
    && (forall z :: z in primary ==> exists k :: 0 <= k < |listing| && listing[k].0 == z)
    && (forall k :: 0 <= k < |listing| ==> listing[k].0 in primary && listing[k].1 == primary[listing[k].0].serial)
    && forall k, l :: 0 <= k < l < |listing| ==> listing[k].0 != listing[l].0
  }

  ghost predicate AllQuiet(primary: map<string, Primary>) {
    forall z :: z in primary ==> Quiet(primary[z])
  }

  ghost predicate EqualUpTo(primary: map<string, Primary>, replica: map<string, Copy>, listing: seq<(string, u32)>,
                            n: nat) {
    && n <= |listing|
    && forall k :: 0 <= k < n ==>
        listing[k].0 in primary && listing[k].0 in replica && Equal(primary[listing[k].0], replica[listing[k].0])
  }

  lemma EqualUpToCopy(primary: map<string, Primary>, replica: map<string, Copy>, listing: seq<(string, u32)>, n: nat,
                      c: Copy)
    requires EqualUpTo(primary, replica, listing, n) && ExactListing(primary, listing) && n < |listing|
    ensures EqualUpTo(primary, replica[listing[n].0 := c], listing, n)
  {
  }

  /** During a sync of a quiet primary the zones done are equal, and the one in hand is fresh. */
  ghost predicate Catching(s: State) {
    && s.replica.Keys == s.primary.Keys && s.agent.Syncing?
    && AllQuiet(s.primary) && ExactListing(s.primary, s.agent.listing)
    && EqualUpTo(s.primary, s.replica, s.agent.listing, s.agent.i)
    && (AtZone(s) ==> FreshPhase(s.primary[Zone(s)], s.replica[Zone(s)], s.agent.phase))
  }

  /** A quiet zone that needs no sync is equal already. */
  lemma UpToDateIsEqual(p: Primary, c: Copy)
    requires PrimaryOk(p) && CopyOk(p, c) && Quiet(p) && !NeedsSync(c, p.serial)
    ensures Equal(p, c)
  {
    var last := |p.log| - 1;
    assert p.bumps[last].Some? && p.bumps[last].value <= c.sourceSerial.value;
  }

  predicate IsWorkStep(step: Step) {
    step.Skip? || step.Fetch? || step.Upsert? || step.ReplaceRecords? || step.Note?
  }

  /** The zone in hand moves to its next phase. */
  lemma PhaseKeepsCatching(s: State, c: Copy, phase: Phase)
    requires Catching(s) && AtZone(s) && FreshPhase(s.primary[Zone(s)], c, phase)
    ensures Catching(State(s.primary, s.replica[Zone(s) := c], s.agent.(phase := phase)))
  {
    EqualUpToCopy(s.primary, s.replica, s.agent.listing, s.agent.i, c);
  }

  /** The zone in hand is equal and the next one follows. */
  lemma ZoneDoneKeepsCatching(s: State, c: Copy)
    requires Catching(s) && AtZone(s) && Equal(s.primary[Zone(s)], c)
    ensures Catching(State(s.primary, s.replica[Zone(s) := c], s.agent.(i := s.agent.i + 1, phase := Start)))
  {
    EqualUpToCopy(s.primary, s.replica, s.agent.listing, s.agent.i, c);
  }

  lemma WorkKeepsCatching(s: State, step: Step)
    requires Inv(s) && Catching(s) && Enabled(s, step) && IsWorkStep(step)
    ensures Catching(Next(s, step)) && Next(s, step).primary == s.primary
  {
    var p, c := s.primary[Zone(s)], s.replica[Zone(s)];
    assert s.replica[Zone(s) := c] == s.replica;
    match step
    case Skip =>
      assert PrimaryOk(p) && CopyOk(p, c) && Quiet(p);
      UpToDateIsEqual(p, c);
      ZoneDoneKeepsCatching(s, c);
    case Fetch => PhaseKeepsCatching(s, c, Next(s, step).agent.phase);
    case Upsert => PhaseKeepsCatching(s, c.(zoneSerial := Some(Remote(s))), Next(s, step).agent.phase);
    case ReplaceRecords =>
      PhaseKeepsCatching(s, c.(records := s.agent.phase.records, version := Some(s.agent.phase.version)), Replaced);
    case Note => ZoneDoneKeepsCatching(s, c.(sourceSerial := Some(Remote(s))));
  }

  lemma {:induction false} WorkCatchesUp(s: State, steps: seq<Step>)
    requires Inv(s) && Catching(s) && Legal(s, steps) && forall i :: 0 <= i < |steps| ==> IsWorkStep(steps[i])
    ensures var end := Run(s, steps);
            Inv(end) && Catching(end) && end.primary == s.primary
    decreases |steps|
  {
    if steps != [] {
      StepKeepsInv(s, steps[0]);
      WorkKeepsCatching(s, steps[0]);
      WorkCatchesUp(Next(s, steps[0]), steps[1..]);
    }
  }

  lemma ListingIsExact(primary: map<string, Primary>)
    ensures ExactListing(primary, Listing(primary, InOrder(primary.Keys)))
  {
  }

  lemma ListStartsCatching(s: State)
    requires Inv(s) && s.agent.Idle? && AllQuiet(s.primary)
    ensures Inv(Next(s, List)) && Catching(Next(s, List))
  {
    StepKeepsInv(s, List);
    ListingIsExact(s.primary);
  }

  lemma CaughtUp(s: State, z: string)
    requires Catching(s) && s.agent.i == |s.agent.listing| && z in s.primary
    ensures Equal(s.primary[z], s.replica[z])
  {
  }

  /** One complete sync of a quiet primary makes every zone equal, from any state a run can reach. */
  lemma OneSyncCatchesUp(s: State, work: seq<Step>)
    requires Inv(s) && s.agent.Idle? && AllQuiet(s.primary)
    requires forall i :: 0 <= i < |work| ==> IsWorkStep(work[i])
    requires Legal(Next(s, List), work) && Enabled(Run(Next(s, List), work), Finish)
    ensures var end := Next(Run(Next(s, List), work), Finish);
            && end.agent.Idle? && end.primary == s.primary && end.replica.Keys == s.primary.Keys
            && forall z :: z in s.primary ==> Equal(s.primary[z], end.replica[z])
  {
    ListStartsCatching(s);
    WorkCatchesUp(Next(s, List), work);
    forall z | z in s.primary
      ensures Equal(s.primary[z], Run(Next(s, List), work).replica[z])
    {
      CaughtUp(Run(Next(s, List), work), z);
    }
  }

  // --- A sync always gets through ---

  function PhaseWork(phase: Phase): nat {
    match phase
    case Start => 4
    case Fetched(_, _) => 3
    case Upserted(_, _) => 2
    case Replaced => 1
  }

  function Remaining(s: State): int {
    if s.agent.Idle? then 0 else 4 * (|s.agent.listing| - s.agent.i) + PhaseWork(s.agent.phase)
  }

  /** While syncing, some step other than a failure is possible, and each one brings the end nearer. */
  lemma SyncGetsThrough(s: State) returns (step: Step)
    requires Inv(s) && s.agent.Syncing?
    ensures (IsWorkStep(step) || step == Finish) && Enabled(s, step)
    ensures 0 <= Remaining(Next(s, step)) < Remaining(s)
  {
    if s.agent.i == |s.agent.listing| {
      step := Finish;
    } else {
      assert AtZone(s);
      assert PrimaryOk(s.primary[Zone(s)]);
      match s.agent.phase
      case Start => step := if NeedsSync(s.replica[Zone(s)], Remote(s)) then Fetch else Skip;
      case Fetched(_, _) => step := Upsert;
      case Upserted(_, _) => step := ReplaceRecords;
      case Replaced => step := Note;
    }
  }
}
