/**
 One zone, several writers.  The instance that holds the zone writes its own
 database; every other instance reports to it over the network.  Each of them
 reads the zone, plans a list of writes, and then carries them out one at a
 time while the others, and operators, do the same.  A step here is one read,
 one write, one lost or late request, one crash or one operator's edit.
 */
module Sharing {
  import opened Text
  import opened Types
  import opened Store
  import opened Publish

  datatype Role = Holder | Reporter

  datatype Write =
    | Add(want: DesiredRecord)
    | Put(r: Record)
    | Del(id: Uuid)

  /** Who a record belongs to; it never changes while the record lives. */
  datatype Stamp = Stamp(source: RecordSource, origin: Option<string>)

  function StampOf(r: Record): Stamp {
    Stamp(r.source, r.origin)
  }

  /** An instance owns what carries its stamp; the holder also what carries none. */
  predicate Owns(role: Role, who: string, stamp: Stamp) {
    stamp.source == Mdns && (stamp.origin == Some(who) || (role.Holder? && stamp.origin.None?))
  }

  // --- What a pass plans to write ---

  function OwnedIn(role: Role, who: string, seen: seq<Record>): (own: seq<Record>)
    ensures forall r :: r in own <==> r in seen && Owns(role, who, StampOf(r))
  {
    if seen == [] then []
    else
      var rest := OwnedIn(role, who, seen[1..]);
      if Owns(role, who, StampOf(seen[0])) then [seen[0]] + rest else rest
  }

  function FirstMatch(mine: seq<Record>, want: DesiredRecord): (r: Option<Record>)
    ensures r.None? ==> forall m :: m in mine ==> !Matches(m, want)
    ensures r.Some? ==> r.value in mine && Matches(r.value, want)
  {
    if mine == [] then None
    else if Matches(mine[0], want) then Some(mine[0])
    else FirstMatch(mine[1..], want)
  }

  predicate Curated(seen: seq<Record>, want: DesiredRecord) {
    exists r :: r in seen && Curates(r, want)
  }

  /** What the holder writes, if anything, for one wanted entry. */
  function WriteFor(who: string, seen: seq<Record>, want: DesiredRecord): seq<Write> {
    if Curated(seen, want) then []
    else
      match FirstMatch(OwnedIn(Holder, who, seen), want)
      case None => [Add(want)]
      case Some(r) => if r.ttl != want.ttl || !r.enabled then [Put(r.(ttl := want.ttl, enabled := true))] else []
  }

  /** The holder's publishing loop. */
  function HolderWrites(who: string, seen: seq<Record>, desired: seq<DesiredRecord>): seq<Write> {
    if desired == [] then [] else WriteFor(who, seen, desired[0]) + HolderWrites(who, seen, desired[1..])
  }

  /** The entry is kept in a record the holder already owns. */
  predicate KeptFor(who: string, seen: seq<Record>, want: DesiredRecord, id: string) {
    && !Curated(seen, want)
    && var m := FirstMatch(OwnedIn(Holder, who, seen), want);
       m.Some? && m.value.id == id
  }

  predicate HolderKeeps(who: string, seen: seq<Record>, desired: seq<DesiredRecord>, r: Record) {
    exists k :: 0 <= k < |desired| && KeptFor(who, seen, desired[k], r.id)
  }

  /** A reporter's idea of the same record: names compared without case. */
  predicate SameKey(r: Record, want: DesiredRecord) {
    Lower(r.name) == Lower(want.name) && r.data == want.data
  }

  /** A reporter's publishing loop. */
  function ReporterWrites(seen: seq<Record>, desired: seq<DesiredRecord>): seq<Write> {
    if desired == [] then []
    else
      var want, rest := desired[0], ReporterWrites(seen, desired[1..]);
      if (exists r :: r in seen && SameKey(r, want)) || Curated(seen, want) then rest
      else [Add(want)] + rest
  }

  predicate Kept(role: Role, who: string, seen: seq<Record>, desired: seq<DesiredRecord>, r: Record) {
    match role
    case Holder => HolderKeeps(who, seen, desired, r)
    case Reporter => exists want :: want in desired && SameKey(r, want)
  }

  /** The pruning loop: what is ours and was not kept. */
  function Deletes(role: Role, who: string, seen: seq<Record>, desired: seq<DesiredRecord>,
                   mine: seq<Record>): seq<Write> {
    if mine == [] then []
    else
      var rest := Deletes(role, who, seen, desired, mine[1..]);
      if Kept(role, who, seen, desired, mine[0]) then rest else [Del(mine[0].id)] + rest
  }

  function Plan(role: Role, who: string, seen: seq<Record>, desired: seq<DesiredRecord>, prune: bool): seq<Write> {
    (if role.Holder? then HolderWrites(who, seen, desired) else ReporterWrites(seen, desired))
    + if prune then Deletes(role, who, seen, desired, OwnedIn(role, who, seen)) else []
  }

  // --- The shared zone ---

  /** `late` are the requests given up by their sender that may yet arrive. */
  datatype Instance = Instance(role: Role, pending: seq<Write>, late: seq<Write>)

  datatype Fate = Arrives | IsLost | IsLate

  /** `births` remembers the stamp of every record there ever was. */
  datatype State = State(
    zoneId: Uuid,
    records: map<string, Record>,
    births: map<string, Stamp>,
    instances: map<string, Instance>)

  datatype Step =
    | Read(who: string, desired: seq<DesiredRecord>, prune: bool, seen: seq<Record>)
    | Execute(who: string, id: Uuid, fate: Fate)
    | ArrivesLate(who: string, k: nat, id: Uuid)
    | Crash(who: string)
    | OperatorAdds(r: Record)
    | OperatorEdits(r: Record)
    | OperatorDeletes(id: Uuid)

  /** A listing shows stored records; the holder sees them all, a reporter perhaps not. */
  ghost predicate Listing(s: State, role: Role, seen: seq<Record>) {
    && (forall r :: r in seen ==> r.id in s.records && s.records[r.id] == r)
    && (role.Holder? ==> NoDup(seen) && forall id :: id in s.records ==> s.records[id] in seen)
  }

  ghost predicate Enabled(s: State, step: Step) {
    match step
    case Read(who, desired, prune, seen) => who in s.instances && Listing(s, s.instances[who].role, seen)
    case Execute(who, id, fate) =>
      && who in s.instances && s.instances[who].pending != [] && id !in s.births
      && (s.instances[who].role.Holder? ==> fate.Arrives?)
    case ArrivesLate(who, k, id) => who in s.instances && k < |s.instances[who].late| && id !in s.births
    case Crash(who) => who in s.instances
    case OperatorAdds(r) => r.id !in s.births && r.source != Mdns && r.zoneId == s.zoneId
    case OperatorEdits(r) => r.id in s.records && StampOf(r) == StampOf(s.records[r.id]) && r.zoneId == s.zoneId
    case OperatorDeletes(id) => true
  }

  function WithPending(s: State, who: string, pending: seq<Write>): State
    requires who in s.instances
  {
    s.(instances := s.instances[who := s.instances[who].(pending := pending)])
  }

  function WithLate(s: State, who: string, late: seq<Write>): State
    requires who in s.instances
  {
    s.(instances := s.instances[who := s.instances[who].(late := late)])
  }

  /** The holder's interface answers a duplicate with the record it already has. */
  predicate Duplicate(records: map<string, Record>, want: DesiredRecord) {
    exists id :: id in records && records[id].enabled && Matches(records[id], want)
  }

  /** The effect of a write on the table, once it arrives. */
  function Written(s: State, who: string, role: Role, w: Write, id: Uuid): State {
    match w
    case Add(want) =>
      if role.Reporter? && Duplicate(s.records, want) then s
      else
        var r := Writer(s.zoneId, who).Stamped(id, want);
        s.(records := s.records[id := r], births := s.births[id := StampOf(r)])
    case Put(r) => if r.id in s.records then s.(records := s.records[r.id := r]) else s
    case Del(x) => s.(records := s.records - {x})
  }

  /** The holder gives up its pass when the record it writes to has gone. */
  predicate Fails(s: State, role: Role, w: Write) {
    match w
    case Add(_) => false
    case Put(r) => r.id !in s.records
    case Del(x) => role.Holder? && x !in s.records
  }

  function Next(s: State, step: Step): State
    requires Enabled(s, step)
  {
    match step
    case Read(who, desired, prune, seen) =>
      WithPending(s, who, Plan(s.instances[who].role, who, seen, desired, prune))
    case Execute(who, id, fate) =>
      var i := s.instances[who];
      match fate {
        case Arrives =>
          var left := if Fails(s, i.role, i.pending[0]) then [] else i.pending[1..];
          WithPending(Written(s, who, i.role, i.pending[0], id), who, left)
        case IsLost => WithPending(s, who, i.pending[1..])
        case IsLate => WithPending(WithLate(s, who, i.late + [i.pending[0]]), who, i.pending[1..])
      }
    case ArrivesLate(who, k, id) =>
      var i := s.instances[who];
      WithLate(Written(s, who, i.role, i.late[k], id), who, i.late[..k] + i.late[k + 1..])
    case Crash(who) => WithPending(s, who, [])
    case OperatorAdds(r) => s.(records := s.records[r.id := r], births := s.births[r.id := StampOf(r)])
    case OperatorEdits(r) => s.(records := s.records[r.id := r])
    case OperatorDeletes(id) => s.(records := s.records - {id})
  }

  // --- What every step keeps ---

  /** A planned write aims only at records the instance owns. */
  ghost predicate Aimed(births: map<string, Stamp>, role: Role, who: string, w: Write) {
    match w
    case Add(_) => true
    case Put(r) => r.id in births && births[r.id] == StampOf(r) && Owns(role, who, births[r.id])
    case Del(id) => id in births && Owns(role, who, births[id])
  }

  ghost predicate AllAimed(births: map<string, Stamp>, role: Role, who: string, ws: seq<Write>) {
    forall k :: 0 <= k < |ws| ==> Aimed(births, role, who, ws[k])
  }

  ghost predicate Stamps(s: State) {
    forall id :: id in s.records ==> s.records[id].id == id && id in s.births && s.births[id] == StampOf(s.records[id])
  }

  ghost predicate OneHolder(instances: map<string, Instance>) {
    forall a, b :: a in instances && b in instances && instances[a].role.Holder? && instances[b].role.Holder? ==> a == b
  }

  ghost predicate Inv(s: State) {
    && Stamps(s)
    && OneHolder(s.instances)
    && forall who :: who in s.instances ==> InstanceOk(s.births, who, s.instances[who])
  }

  ghost predicate InstanceOk(births: map<string, Stamp>, who: string, i: Instance) {
    AllAimed(births, i.role, who, i.pending) && AllAimed(births, i.role, who, i.late)
  }

  /** The seen records are owned as their stamps say. */
  ghost predicate Known(births: map<string, Stamp>, seen: seq<Record>) {
    forall r :: r in seen ==> r.id in births && births[r.id] == StampOf(r)
  }

  lemma AimedConcat(births: map<string, Stamp>, role: Role, who: string, a: seq<Write>, b: seq<Write>)
    requires AllAimed(births, role, who, a) && AllAimed(births, role, who, b)
    ensures AllAimed(births, role, who, a + b)
  {
  }

  lemma {:induction false} HolderWritesAimed(births: map<string, Stamp>, who: string, seen: seq<Record>,
                                             desired: seq<DesiredRecord>)
    requires Known(births, seen)
    ensures AllAimed(births, Holder, who, HolderWrites(who, seen, desired))
  {
    if desired != [] {
      HolderWritesAimed(births, who, seen, desired[1..]);
      assert AllAimed(births, Holder, who, WriteFor(who, seen, desired[0]));
      AimedConcat(births, Holder, who, WriteFor(who, seen, desired[0]), HolderWrites(who, seen, desired[1..]));
    }
  }

  lemma {:induction false} ReporterWritesAimed(births: map<string, Stamp>, who: string, seen: seq<Record>,
                                               desired: seq<DesiredRecord>)
    ensures AllAimed(births, Reporter, who, ReporterWrites(seen, desired))
  {
    if desired != [] {
      ReporterWritesAimed(births, who, seen, desired[1..]);
      AimedConcat(births, Reporter, who, [Add(desired[0])], ReporterWrites(seen, desired[1..]));
    }
  }

  lemma {:induction false} DeletesAimed(births: map<string, Stamp>, role: Role, who: string, seen: seq<Record>,
                                        desired: seq<DesiredRecord>, mine: seq<Record>)
    requires Known(births, mine) && forall r :: r in mine ==> Owns(role, who, StampOf(r))
    ensures AllAimed(births, role, who, Deletes(role, who, seen, desired, mine))
  {
    if mine != [] {
      DeletesAimed(births, role, who, seen, desired, mine[1..]);
      assert mine[0] in mine;
      AimedConcat(births, role, who, [Del(mine[0].id)], Deletes(role, who, seen, desired, mine[1..]));
    }
  }

  /** Whatever is wanted, a pass plans to write only where its instance owns. */
  lemma PlanIsAimed(births: map<string, Stamp>, role: Role, who: string, seen: seq<Record>,
                    desired: seq<DesiredRecord>, prune: bool)
    requires Known(births, seen)
    ensures AllAimed(births, role, who, Plan(role, who, seen, desired, prune))
  {
    var adds := if role.Holder? then HolderWrites(who, seen, desired) else ReporterWrites(seen, desired);
    var mine := OwnedIn(role, who, seen);
    var dels := if prune then Deletes(role, who, seen, desired, mine) else [];
    if role.Holder? {
      HolderWritesAimed(births, who, seen, desired);
    } else {
      ReporterWritesAimed(births, who, seen, desired);
    }
    DeletesAimed(births, role, who, seen, desired, mine);
    AimedConcat(births, role, who, adds, dels);
  }

  lemma MoreBirthsAimed(births: map<string, Stamp>, id: string, stamp: Stamp, role: Role, who: string, ws: seq<Write>)
    requires id !in births && AllAimed(births, role, who, ws)
    ensures AllAimed(births[id := stamp], role, who, ws)
  {
  }

  lemma PendingKeepsInv(s: State, who: string, pending: seq<Write>)
    requires Inv(s) && who in s.instances && AllAimed(s.births, s.instances[who].role, who, pending)
    ensures Inv(WithPending(s, who, pending))
  {
    assert InstanceOk(s.births, who, s.instances[who]);
  }

  lemma LateKeepsInv(s: State, who: string, late: seq<Write>)
    requires Inv(s) && who in s.instances && AllAimed(s.births, s.instances[who].role, who, late)
    ensures Inv(WithLate(s, who, late))
  {
    assert InstanceOk(s.births, who, s.instances[who]);
  }

  lemma BirthKeepsInv(s: State, r: Record)
    requires Inv(s) && r.id !in s.births
    ensures Inv(s.(records := s.records[r.id := r], births := s.births[r.id := StampOf(r)]))
  {
    var births := s.births[r.id := StampOf(r)];
    forall who | who in s.instances
      ensures InstanceOk(births, who, s.instances[who])
    {
      var i := s.instances[who];
      assert InstanceOk(s.births, who, i);
      MoreBirthsAimed(s.births, r.id, StampOf(r), i.role, who, i.pending);
      MoreBirthsAimed(s.births, r.id, StampOf(r), i.role, who, i.late);
    }
  }

  lemma WrittenKeepsInv(s: State, who: string, role: Role, w: Write, id: Uuid)
    requires Inv(s) && Aimed(s.births, role, who, w) && id !in s.births
    ensures Inv(Written(s, who, role, w, id))
  {
    if w.Add? {
      BirthKeepsInv(s, Writer(s.zoneId, who).Stamped(id, w.want));
    }
  }

  /** A write leaves other plans aimed. */
  lemma WrittenKeepsAimed(s: State, who: string, role: Role, w: Write, id: Uuid, ws: seq<Write>)
    requires id !in s.births && AllAimed(s.births, role, who, ws)
    ensures AllAimed(Written(s, who, role, w, id).births, role, who, ws)
  {
    var t := Written(s, who, role, w, id);
    if t.births != s.births {
      MoreBirthsAimed(s.births, id, t.births[id], role, who, ws);
    }
  }

  lemma AimedPart(births: map<string, Stamp>, role: Role, who: string, ws: seq<Write>, k: nat)
    requires AllAimed(births, role, who, ws) && k < |ws|
    ensures Aimed(births, role, who, ws[k]) && AllAimed(births, role, who, ws[..k] + ws[k + 1..])
  {
  }

  lemma ExecuteKeepsInv(s: State, who: string, id: Uuid, fate: Fate)
    requires Inv(s) && Enabled(s, Execute(who, id, fate))
    ensures Inv(Next(s, Execute(who, id, fate)))
  {
    var i := s.instances[who];
    var w, rest := i.pending[0], i.pending[1..];
    assert InstanceOk(s.births, who, i);
    AimedPart(s.births, i.role, who, i.pending, 0);
    assert i.pending[..0] + rest == rest;
    match fate
    case Arrives =>
      var left := if Fails(s, i.role, w) then [] else rest;
      WrittenKeepsInv(s, who, i.role, w, id);
      WrittenKeepsAimed(s, who, i.role, w, id, left);
      PendingKeepsInv(Written(s, who, i.role, w, id), who, left);
    case IsLost => PendingKeepsInv(s, who, rest);
    case IsLate =>
      AimedConcat(s.births, i.role, who, i.late, [w]);
      LateKeepsInv(s, who, i.late + [w]);
      PendingKeepsInv(WithLate(s, who, i.late + [w]), who, rest);
  }

  lemma ArrivalKeepsInv(s: State, who: string, k: nat, id: Uuid)
    requires Inv(s) && Enabled(s, ArrivesLate(who, k, id))
    ensures Inv(Next(s, ArrivesLate(who, k, id)))
  {
    var i := s.instances[who];
    assert InstanceOk(s.births, who, i);
    AimedPart(s.births, i.role, who, i.late, k);
    WrittenKeepsInv(s, who, i.role, i.late[k], id);
    WrittenKeepsAimed(s, who, i.role, i.late[k], id, i.late[..k] + i.late[k + 1..]);
    LateKeepsInv(Written(s, who, i.role, i.late[k], id), who, i.late[..k] + i.late[k + 1..]);
  }

  lemma StepKeepsInv(s: State, step: Step)
    requires Inv(s) && Enabled(s, step)
    ensures Inv(Next(s, step))
  {
    match step
    case Read(who, desired, prune, seen) =>
      var role := s.instances[who].role;
      PlanIsAimed(s.births, role, who, seen, desired, prune);
      PendingKeepsInv(s, who, Plan(role, who, seen, desired, prune));
    case Execute(who, id, fate) => ExecuteKeepsInv(s, who, id, fate);
    case ArrivesLate(who, k, id) => ArrivalKeepsInv(s, who, k, id);
    case Crash(who) => PendingKeepsInv(s, who, []);
    case OperatorAdds(r) => BirthKeepsInv(s, r);
    case OperatorEdits(r) =>
    case OperatorDeletes(id) =>
  }

  // --- Whole runs ---

  ghost predicate Legal(s: State, steps: seq<Step>)
    decreases |steps|
  {
    steps == [] || (Enabled(s, steps[0]) && Legal(Next(s, steps[0]), steps[1..]))
  }

  ghost function Run(s: State, steps: seq<Step>): State
    requires Legal(s, steps)
    decreases |steps|
  {
    if steps == [] then s else Run(Next(s, steps[0]), steps[1..])
  }

  /** Any table with its stamps, one holder at most, and nothing planned yet. */
  ghost predicate Init(s: State) {
    && Stamps(s) && OneHolder(s.instances)
    && forall who :: who in s.instances ==> s.instances[who].pending == [] && s.instances[who].late == []
  }

  /** Whatever has happened since the start, stamps are true and planned writes are aimed. */
  lemma {:induction false} RunKeepsInv(s: State, steps: seq<Step>)
    requires (Init(s) || Inv(s)) && Legal(s, steps)
    ensures Inv(Run(s, steps))
    decreases |steps|
  {
    if steps != [] {
      StepKeepsInv(s, steps[0]);
      RunKeepsInv(Next(s, steps[0]), steps[1..]);
    }
  }

  /** The steps that may touch a record with this stamp: operators' on it, and its owner's. */
  ghost predicate MayTouch(instances: map<string, Instance>, step: Step, id: string, stamp: Stamp) {
    match step
    case Read(_, _, _, _) => false
    case Execute(who, _, _) => who in instances && Owns(instances[who].role, who, stamp)
    case ArrivesLate(who, _, _) => who in instances && Owns(instances[who].role, who, stamp)
    case Crash(_) => false
    case OperatorAdds(r) => r.id == id
    case OperatorEdits(r) => r.id == id
    case OperatorDeletes(x) => x == id
  }

  /** No other step deletes or alters the record. */
  lemma StepRespectsOwner(s: State, step: Step, id: string)
    requires Inv(s) && Enabled(s, step) && id in s.records
    requires !MayTouch(s.instances, step, id, StampOf(s.records[id]))
    ensures id in Next(s, step).records && Next(s, step).records[id] == s.records[id]
  {
    if step.Execute? || step.ArrivesLate? {
      var i := s.instances[step.who];
      assert InstanceOk(s.births, step.who, i);
      var w := if step.Execute? then i.pending[0] else i.late[step.k];
      assert Aimed(s.births, i.role, step.who, w);
    }
  }

  ghost predicate SameRoles(a: map<string, Instance>, b: map<string, Instance>) {
    a.Keys == b.Keys && forall who :: who in a ==> a[who].role == b[who].role
  }

  lemma WithKeepsRoles(s: State, t: State, who: string, ws: seq<Write>)
    requires t.instances == s.instances && who in s.instances
    ensures SameRoles(s.instances, WithPending(t, who, ws).instances)
    ensures SameRoles(s.instances, WithLate(t, who, ws).instances)
  {
  }

  lemma StepKeepsRoles(s: State, step: Step)
    requires Enabled(s, step)
    ensures SameRoles(s.instances, Next(s, step).instances)
  {
    if step.Execute? && step.fate.IsLate? {
      var i := s.instances[step.who];
      WithKeepsRoles(s, s, step.who, i.late + [i.pending[0]]);
      WithKeepsRoles(s, s, step.who, i.pending[1..]);
    } else if step.Execute? && step.fate.Arrives? {
      var i := s.instances[step.who];
      WithKeepsRoles(s, Written(s, step.who, i.role, i.pending[0], step.id), step.who,
                     Next(s, step).instances[step.who].pending);
    } else if step.ArrivesLate? {
      var i := s.instances[step.who];
      WithKeepsRoles(s, Written(s, step.who, i.role, i.late[step.k], step.id), step.who,
                     Next(s, step).instances[step.who].late);
    }
  }

  /**
   Over every interleaving in which neither an operator nor its owner acts on
   it, a record stays exactly as it was.
   */
  lemma {:induction false} RunRespectsOwner(s: State, steps: seq<Step>, id: string)
    requires Inv(s) && Legal(s, steps) && id in s.records
    requires forall step :: step in steps ==> !MayTouch(s.instances, step, id, StampOf(s.records[id]))
    ensures id in Run(s, steps).records && Run(s, steps).records[id] == s.records[id]
    decreases |steps|
  {
    if steps != [] {
      var next, stamp := Next(s, steps[0]), StampOf(s.records[id]);
      StepRespectsOwner(s, steps[0], id);
      StepKeepsInv(s, steps[0]);
      StepKeepsRoles(s, steps[0]);
      forall step | step in steps[1..]
        ensures !MayTouch(next.instances, step, id, stamp)
      {
        assert step in steps && !MayTouch(s.instances, step, id, stamp);
      }
      RunRespectsOwner(next, steps[1..], id);
    }
  }

  ghost predicate ByOperator(step: Step) {
    step.OperatorAdds? || step.OperatorEdits? || step.OperatorDeletes?
  }

  /** Instances alone never delete or alter what an operator, DHCP or Kubernetes put there. */
  lemma CuratedIsUntouched(s: State, steps: seq<Step>, id: string)
    requires Inv(s) && Legal(s, steps) && id in s.records && s.records[id].source != Mdns
    requires forall step :: step in steps ==> !ByOperator(step)
    ensures id in Run(s, steps).records && Run(s, steps).records[id] == s.records[id]
  {
    RunRespectsOwner(s, steps, id);
  }

  ghost predicate WritesFor(step: Step, who: string) {
    (step.Execute? || step.ArrivesLate?) && step.who == who
  }

  /** No other instance ever deletes or alters what one instance registered. */
  lemma ForeignIsUntouched(s: State, steps: seq<Step>, id: string, owner: string)
    requires Inv(s) && Legal(s, steps) && id in s.records && s.records[id].origin == Some(owner)
    requires forall step :: step in steps ==> !ByOperator(step) && !WritesFor(step, owner)
    ensures id in Run(s, steps).records && Run(s, steps).records[id] == s.records[id]
  {
    RunRespectsOwner(s, steps, id);
  }

  /** A stamp has at most one owner. */
  lemma OneOwner(s: State, a: string, b: string, stamp: Stamp)
    requires Inv(s) && a in s.instances && b in s.instances
    requires Owns(s.instances[a].role, a, stamp) && Owns(s.instances[b].role, b, stamp)
    ensures a == b
  {
  }

  // --- A pass that nobody disturbs ---

  function CarryOne(role: Role, w: Writer, records: map<string, Record>, write: Write, id: Uuid): map<string, Record> {
    match write
    case Add(want) =>
      if role.Reporter? && Duplicate(records, want) then records else records[id := w.Stamped(id, want)]
    case Put(r) => if r.id in records then records[r.id := r] else records
    case Del(x) => records - {x}
  }

  /** The writes of an instance carried out one after the other. */
  function Carry(role: Role, w: Writer, records: map<string, Record>, ws: seq<Write>,
                 ids: seq<Uuid>): map<string, Record>
    requires |ids| == |ws|
    decreases |ws|
  {
    if ws == [] then records else Carry(role, w, CarryOne(role, w, records, ws[0], ids[0]), ws[1..], ids[1..])
  }

  /** Every record added is under an id not in use at that moment. */
  predicate FreshAlong(role: Role, w: Writer, records: map<string, Record>, ws: seq<Write>, ids: seq<Uuid>)
    requires |ids| == |ws|
    decreases |ws|
  {
    || ws == []
    || (ids[0] !in records && FreshAlong(role, w, CarryOne(role, w, records, ws[0], ids[0]), ws[1..], ids[1..]))
  }

  /** A run of one instance's own writes. */
  ghost predicate OwnWrites(who: string, steps: seq<Step>, ids: seq<Uuid>) {
    |ids| == |steps| && forall k :: 0 <= k < |steps| ==> steps[k] == Execute(who, ids[k], Arrives)
  }

  /** One write of the instance; its next one is possible only if this one did not fail. */
  lemma OneCarry(s: State, who: string, id: Uuid)
    requires who in s.instances && Enabled(s, Execute(who, id, Arrives))
    ensures var next, pending := Next(s, Execute(who, id, Arrives)), s.instances[who].pending;
            && next.records == CarryOne(s.instances[who].role, Writer(s.zoneId, who), s.records, pending[0], id)
            && next.zoneId == s.zoneId && who in next.instances && next.instances[who].role == s.instances[who].role
            && (next.instances[who].pending == [] || next.instances[who].pending == pending[1..])
  {
  }

  lemma {:induction false} RunIsCarry(s: State, who: string, steps: seq<Step>, ids: seq<Uuid>)
    requires Inv(s) && who in s.instances
    requires Legal(s, steps) && OwnWrites(who, steps, ids) && |steps| == |s.instances[who].pending|
    ensures var role, w, ws := s.instances[who].role, Writer(s.zoneId, who), s.instances[who].pending;
            FreshAlong(role, w, s.records, ws, ids) && Run(s, steps).records == Carry(role, w, s.records, ws, ids)
    decreases |steps|
  {
    if steps != [] {
      var pending, next := s.instances[who].pending, Next(s, steps[0]);
      assert steps[0] == Execute(who, ids[0], Arrives);
      OneCarry(s, who, ids[0]);
      StepKeepsInv(s, steps[0]);
      assert ids[0] !in s.records;
      if |steps| > 1 {
        assert steps[1..][0] == Execute(who, ids[1], Arrives) && Enabled(next, steps[1..][0]);
      }
      assert next.instances[who].pending == pending[1..];
      assert OwnWrites(who, steps[1..], ids[1..]);
      RunIsCarry(next, who, steps[1..], ids[1..]);
    }
  }

  lemma {:induction false} CarryConcat(role: Role, w: Writer, records: map<string, Record>, a: seq<Write>,
                                       b: seq<Write>, ids: seq<Uuid>)
    requires |ids| == |a| + |b|
    ensures var mid := Carry(role, w, records, a, ids[..|a|]);
            && Carry(role, w, records, a + b, ids) == Carry(role, w, mid, b, ids[|a|..])
            && (FreshAlong(role, w, records, a + b, ids) <==>
                FreshAlong(role, w, records, a, ids[..|a|]) && FreshAlong(role, w, mid, b, ids[|a|..]))
    decreases |a|
  {
    if a == [] {
      assert a + b == b && ids[|a|..] == ids;
    } else {
      assert (a + b)[1..] == a[1..] + b && ids[..|a|][1..] == ids[1..][..|a| - 1] && ids[|a|..] == ids[1..][|a| - 1..];
      CarryConcat(role, w, CarryOne(role, w, records, a[0], ids[0]), a[1..], b, ids[1..]);
    }
  }

  /** What the holder saw is the whole zone. */
  ghost predicate SeesAll(w: Writer, before: map<string, Record>, seen: seq<Record>) {
    && (forall id :: id in before ==> before[id].id == id && before[id].zoneId == w.zoneId && before[id] in seen)
    && (forall r :: r in seen ==> r.id in before && before[r.id] == r)
  }

  /** The record an entry ends up in. */
  function PlaceOf(who: string, seen: seq<Record>, want: DesiredRecord, ids: seq<Uuid>): Option<string> {
    if Curated(seen, want) then None
    else
      var m := FirstMatch(OwnedIn(Holder, who, seen), want);
      if m.Some? then Some(m.value.id) else if ids == [] then None else Some(ids[0])
  }

  lemma SeenShadows(w: Writer, before: map<string, Record>, seen: seq<Record>, want: DesiredRecord)
    requires SeesAll(w, before, seen)
    ensures Curated(seen, want) <==> w.Shadowed(before, want)
    ensures forall r :: r in OwnedIn(Holder, w.instance, seen) <==>
              r.id in before && before[r.id] == r && w.Mine(before, r.id)
  {
    if w.Shadowed(before, want) {
      var id :| id in before && before[id].zoneId == w.zoneId && Curates(before[id], want);
      assert before[id] in seen;
    }
    if Curated(seen, want) {
      var r :| r in seen && Curates(r, want);
      assert r.id in before && before[r.id] == r;
    }
  }

  /** The holder's write for an entry is the publisher's placing of it. */
  lemma WritePlaces(w: Writer, before: map<string, Record>, now: map<string, Record>, seen: seq<Record>,
                    want: DesiredRecord,
                    ids: seq<Uuid>)
    requires SeesAll(w, before, seen) && forall id :: id in before ==> id in now
    requires |ids| == |WriteFor(w.instance, seen, want)|
    requires FreshAlong(Holder, w, now, WriteFor(w.instance, seen, want), ids)
    ensures Places(w, before, now, Carry(Holder, w, now, WriteFor(w.instance, seen, want), ids), want,
                   PlaceOf(w.instance, seen, want, ids))
  {
    SeenShadows(w, before, seen, want);
    var ws := WriteFor(w.instance, seen, want);
    if !Curated(seen, want) {
      var mine := OwnedIn(Holder, w.instance, seen);
      var m := FirstMatch(mine, want);
      if m.None? {
        assert ws == [Add(want)];
        assert ws[1..] == [] && ids[1..] == [];
        forall y | w.Mine(before, y)
          ensures !Matches(before[y], want)
        {
          assert before[y] in mine;
        }
      } else if ws != [] {
        assert ws == [Put(m.value.(ttl := want.ttl, enabled := true))];
        assert ws[1..] == [] && ids[1..] == [];
      }
    }
  }

  /** The ledger lists an older record exactly if some entry before `i` is kept in it. */
  ghost predicate ListsKept(who: string, seen: seq<Record>, before: map<string, Record>, desired: seq<DesiredRecord>,
                            i: nat,
                            ledger: map<int, string>)
    requires i <= |desired|
  {
    forall id :: id in before ==>
      (Listed(ledger, id) <==> exists k :: 0 <= k < i && KeptFor(who, seen, desired[k], id))
  }

  lemma ListsOneMore(who: string, seen: seq<Record>, before: map<string, Record>, desired: seq<DesiredRecord>, i: nat,
                     ledger: map<int, string>, ids: seq<Uuid>)
    requires i < |desired| && i !in ledger && ListsKept(who, seen, before, desired, i, ledger)
    requires var m := FirstMatch(OwnedIn(Holder, who, seen), desired[i]);
             m.None? && ids != [] ==> ids[0] !in before
    ensures ListsKept(who, seen, before, desired, i + 1, Noted(ledger, i, PlaceOf(who, seen, desired[i], ids)))
  {
    var place := PlaceOf(who, seen, desired[i], ids);
    var more := Noted(ledger, i, place);
    forall id | id in before
      ensures Listed(more, id) <==> exists k :: 0 <= k < i + 1 && KeptFor(who, seen, desired[k], id)
    {
      assert Listed(more, id) <==> Listed(ledger, id) || place == Some(id) by {
        NotedLists(ledger, i, place, id);
      }
      assert place == Some(id) <==> KeptFor(who, seen, desired[i], id);
      assert (exists k :: 0 <= k < i + 1 && KeptFor(who, seen, desired[k], id)) <==>
             (exists k :: 0 <= k < i && KeptFor(who, seen, desired[k], id)) || KeptFor(who, seen, desired[i], id);
    }
  }

  lemma NotedLists(ledger: map<int, string>, i: int, place: Option<string>, id: string)
    requires i !in ledger
    ensures Listed(Noted(ledger, i, place), id) <==> Listed(ledger, id) || place == Some(id)
  {
    if place.Some? {
      NotedListed(ledger, i, place.value);
      if Listed(ledger[i := place.value], id) && id != place.value {
        var j :| j in ledger[i := place.value] && ledger[i := place.value][j] == id;
        assert j in ledger && ledger[j] == id;
      }
    }
  }

  /** Carrying out the holder's writes places every wanted entry as the publisher does. */
  lemma {:induction false} CarryPlaces(w: Writer, seen: seq<Record>, before: map<string, Record>,
                                       now: map<string, Record>,
                                       desired: seq<DesiredRecord>, i: nat, ledger: map<int, string>, ids: seq<Uuid>)
    returns (whole: map<int, string>)
    requires SeesAll(w, before, seen) && Placed(w, before, now, desired, i, ledger)
    requires ListsKept(w.instance, seen, before, desired, i, ledger)
    requires |ids| == |HolderWrites(w.instance, seen, desired[i..])|
    requires FreshAlong(Holder, w, now, HolderWrites(w.instance, seen, desired[i..]), ids)
    requires Distinct(desired) && w.Converged(before, desired) ==> now == before
    ensures var after := Carry(Holder, w, now, HolderWrites(w.instance, seen, desired[i..]), ids);
            && Placed(w, before, after, desired, |desired|, whole)
            && (Distinct(desired) && w.Converged(before, desired) ==> after == before)
    ensures ListsKept(w.instance, seen, before, desired, |desired|, whole)
    decreases |desired| - i
  {
    if i == |desired| {
      whole := ledger;
    } else {
      var one, rest := WriteFor(w.instance, seen, desired[i]), HolderWrites(w.instance, seen, desired[i + 1..]);
      assert desired[i..][1..] == desired[i + 1..];
      CarryConcat(Holder, w, now, one, rest, ids);
      var mine := ids[..|one|];
      var next := Carry(Holder, w, now, one, mine);
      whole := CarryNext(w, seen, before, now, next, desired, i, ledger, mine);
      whole := CarryPlaces(w, seen, before, next, desired, i + 1, whole, ids[|one|..]);
    }
  }

  lemma CarryNext(w: Writer, seen: seq<Record>, before: map<string, Record>, now: map<string, Record>,
                  next: map<string, Record>,
                  desired: seq<DesiredRecord>, i: nat, ledger: map<int, string>, ids: seq<Uuid>)
    returns (more: map<int, string>)
    requires SeesAll(w, before, seen) && i < |desired| && Placed(w, before, now, desired, i, ledger)
    requires ListsKept(w.instance, seen, before, desired, i, ledger)
    requires |ids| == |WriteFor(w.instance, seen, desired[i])|
    requires FreshAlong(Holder, w, now, WriteFor(w.instance, seen, desired[i]), ids)
    requires next == Carry(Holder, w, now, WriteFor(w.instance, seen, desired[i]), ids)
    requires Distinct(desired) && w.Converged(before, desired) ==> now == before
    ensures Placed(w, before, next, desired, i + 1, more) && ListsKept(w.instance, seen, before, desired, i + 1, more)
    ensures Distinct(desired) && w.Converged(before, desired) ==> next == before
  {
    var place := PlaceOf(w.instance, seen, desired[i], ids);
    PlacedKeepsKeys(w, before, now, desired, i, ledger);
    WritePlaces(w, before, now, seen, desired[i], ids);
    PlacesOneMore(w, before, now, next, desired, i, ledger, place);
    ListsOneMore(w.instance, seen, before, desired, i, ledger, ids);
    more := Noted(ledger, i, place);
    if Distinct(desired) && w.Converged(before, desired) {
      ConvergedPlacesNothing(w, before, now, next, desired, i, place);
    }
  }

  ghost function DelIds(ws: seq<Write>): set<string> {
    set k | 0 <= k < |ws| && ws[k].Del? :: ws[k].id
  }

  lemma DelIdsCons(ws: seq<Write>)
    requires ws != [] && ws[0].Del?
    ensures DelIds(ws) == {ws[0].id} + DelIds(ws[1..])
  {
    var rest := ws[1..];
    forall k | 0 <= k < |ws| && ws[k].Del?
      ensures ws[k].id in {ws[0].id} + DelIds(rest)
    {
      assert k > 0 ==> ws[k] == rest[k - 1];
    }
    forall k | 0 <= k < |rest| && rest[k].Del?
      ensures rest[k].id in DelIds(ws)
    {
      assert rest[k] == ws[k + 1];
    }
    assert ws[0].id in DelIds(ws);
  }

  lemma {:induction false} CarryDeletes(role: Role, w: Writer, records: map<string, Record>, ws: seq<Write>,
                                        ids: seq<Uuid>)
    requires |ids| == |ws| && forall k :: 0 <= k < |ws| ==> ws[k].Del?
    ensures Carry(role, w, records, ws, ids) == records - DelIds(ws)
    decreases |ws|
  {
    if ws != [] {
      CarryDeletes(role, w, records - {ws[0].id}, ws[1..], ids[1..]);
      DelIdsCons(ws);
    }
  }

  lemma {:induction false} DeletesAre(role: Role, who: string, seen: seq<Record>, desired: seq<DesiredRecord>,
                                      mine: seq<Record>)
    ensures var ws := Deletes(role, who, seen, desired, mine);
            && (forall k :: 0 <= k < |ws| ==> ws[k].Del?)
            && DelIds(ws) == set r | r in mine && !Kept(role, who, seen, desired, r) :: r.id
  {
    if mine != [] {
      DeletesAre(role, who, seen, desired, mine[1..]);
      var rest := Deletes(role, who, seen, desired, mine[1..]);
      var ws := Deletes(role, who, seen, desired, mine);
      assert forall r :: r in mine <==> r == mine[0] || r in mine[1..];
      if !Kept(role, who, seen, desired, mine[0]) {
        assert ws == [Del(mine[0].id)] + rest && ws[1..] == rest;
        DelIdsCons(ws);
      }
    }
  }

  lemma DeletesAreStale(w: Writer, before: map<string, Record>, seen: seq<Record>, desired: seq<DesiredRecord>,
                        ledger: map<int, string>)
    requires SeesAll(w, before, seen) && ListsKept(w.instance, seen, before, desired, |desired|, ledger)
    ensures DelIds(Deletes(Holder, w.instance, seen, desired, OwnedIn(Holder, w.instance, seen))) ==
              Stale(w, before, ledger)
  {
    var mine := OwnedIn(Holder, w.instance, seen);
    DeletesAre(Holder, w.instance, seen, desired, mine);
    forall id | id in before && w.Mine(before, id)
      ensures before[id] in mine && (HolderKeeps(w.instance, seen, desired, before[id]) <==> Listed(ledger, id))
    {
      assert before[id] in seen;
    }
  }

  /** Carrying out the holder's whole plan reconciles the zone as the publisher promises. */
  lemma PlanReconciles(w: Writer, before: map<string, Record>, seen: seq<Record>, desired: seq<DesiredRecord>,
                       prune: bool,
                       ids: seq<Uuid>)
    requires SeesAll(w, before, seen) && |ids| == |Plan(Holder, w.instance, seen, desired, prune)|
    requires FreshAlong(Holder, w, before, Plan(Holder, w.instance, seen, desired, prune), ids)
    ensures Reconciled(w, before, Carry(Holder, w, before, Plan(Holder, w.instance, seen, desired, prune), ids),
                       desired, prune)
  {
    var adds, mine := HolderWrites(w.instance, seen, desired), OwnedIn(Holder, w.instance, seen);
    var dels := if prune then Deletes(Holder, w.instance, seen, desired, mine) else [];
    CarryConcat(Holder, w, before, adds, dels, ids);
    assert desired[0..] == desired;
    var ledger := CarryPlaces(w, seen, before, before, desired, 0, map[], ids[..|adds|]);
    var now := Carry(Holder, w, before, adds, ids[..|adds|]);
    PassReconciles(w, before, now, desired, ledger, prune);
    DeletesAre(Holder, w.instance, seen, desired, mine);
    DeletesAreStale(w, before, seen, desired, ledger);
    CarryDeletes(Holder, w, now, dels, ids[|adds|..]);
    assert !prune ==> DelIds(dels) == {};
  }

  /** A pass of the holder that nobody disturbs ends as one call of the publisher does. */
  lemma UndisturbedPassReconciles(s: State, who: string, desired: seq<DesiredRecord>, prune: bool, seen: seq<Record>,
                                  steps: seq<Step>, ids: seq<Uuid>)
    requires Inv(s) && Enabled(s, Read(who, desired, prune, seen)) && s.instances[who].role.Holder?
    requires forall id :: id in s.records ==> s.records[id].zoneId == s.zoneId
    requires var read := Next(s, Read(who, desired, prune, seen));
             Legal(read, steps) && OwnWrites(who, steps, ids) && |steps| == |read.instances[who].pending|
    ensures var read := Next(s, Read(who, desired, prune, seen));
            Reconciled(Writer(s.zoneId, who), s.records, Run(read, steps).records, desired, prune)
  {
    var read := Next(s, Read(who, desired, prune, seen));
    StepKeepsInv(s, Read(who, desired, prune, seen));
    RunIsCarry(read, who, steps, ids);
    PlanReconciles(Writer(s.zoneId, who), s.records, seen, desired, prune, ids);
  }

  // --- What a reporter's pass achieves ---

  /** Nothing in the zone says the same under any spelling of the name, and no other source has the name and type. */
  ghost predicate Missing(records: map<string, Record>, want: DesiredRecord) {
    forall id :: id in records ==>
        && !(Lower(records[id].name) == Lower(want.name) && records[id].data == want.data)
        && !(records[id].name == want.name && records[id].data.Type() == want.data.Type() && records[id].source != Mdns)
  }

  /** The record says what is wanted, on behalf of this instance. */
  predicate Registers(w: Writer, r: Record, want: DesiredRecord) {
    && r.zoneId == w.zoneId && r.name == want.name && r.data == want.data && r.ttl == want.ttl
    && r.enabled && r.healthCheck.None? && r.source == Mdns && r.origin == Some(w.instance)
  }

  /** No earlier entry has the same name and data. */
  ghost predicate FirstOf(desired: seq<DesiredRecord>, k: int) {
    && 0 <= k < |desired|
    && forall j :: 0 <= j < k ==> desired[j].name != desired[k].name || desired[j].data != desired[k].data
  }

  /** The record was registered by this instance, and it wants no entry of that name and data any more. */
  ghost predicate Withdrawn(w: Writer, r: Record, desired: seq<DesiredRecord>) {
    && r.source == Mdns && r.origin == Some(w.instance)
    && forall want :: want in desired ==> Lower(r.name) != Lower(want.name) || r.data != want.data
  }

  ghost predicate IsNew(before: map<string, Record>, now: map<string, Record>, id: string) {
    id in now && id !in before
  }

  /** The entry is missing no longer: a new record says what it says. */
  ghost predicate NowThere(w: Writer, before: map<string, Record>, now: map<string, Record>, want: DesiredRecord) {
    exists id :: && IsNew(before, now, id) && now[id].name == want.name && now[id].data == want.data
                 && now[id].enabled && now[id].source == Mdns && now[id].origin == Some(w.instance)
  }

  /** The record was registered for the first of the missing entries that say the same. */
  ghost predicate RegisteredFor(w: Writer, before: map<string, Record>, r: Record, desired: seq<DesiredRecord>,
                                n: int) {
    exists k :: FirstOf(desired, k) && k < n && Missing(before, desired[k]) && Registers(w, r, desired[k])
  }

  /** What is new in the zone once the first `n` entries were dealt with. */
  ghost predicate Registered(w: Writer, before: map<string, Record>, now: map<string, Record>,
                             desired: seq<DesiredRecord>, n: int) {
    && n <= |desired|
    && (forall k :: 0 <= k < n && Missing(before, desired[k]) ==> NowThere(w, before, now, desired[k]))
    && (forall id :: IsNew(before, now, id) ==> RegisteredFor(w, before, now[id], desired, n))
    && forall id, x :: IsNew(before, now, id) && IsNew(before, now, x) && id != x ==> !Publish.Alike(now[id], now[x])
  }

  ghost predicate StillThere(before: map<string, Record>, now: map<string, Record>) {
    forall id :: id in before ==> id in now && now[id] == before[id]
  }

  lemma MissingIsUnseen(w: Writer, before: map<string, Record>, seen: seq<Record>, want: DesiredRecord)
    requires SeesAll(w, before, seen)
    ensures Missing(before, want) <==> !(exists r :: r in seen && SameKey(r, want)) && !Curated(seen, want)
  {
    if r :| r in seen && (SameKey(r, want) || Curates(r, want)) {
      assert before[r.id] == r;
    }
    if id :| id in before && (SameKey(before[id], want) || Curates(before[id], want)) {
      assert before[id] in seen;
    }
  }

  /** A missing entry that repeats an earlier one is there already. */
  lemma SameSaid(w: Writer, before: map<string, Record>, now: map<string, Record>, desired: seq<DesiredRecord>,
                 i: nat, j: nat)
    requires j < i < |desired| && Missing(before, desired[i]) && Registered(w, before, now, desired, i)
    requires desired[j].name == desired[i].name && desired[j].data == desired[i].data
    ensures Duplicate(now, desired[i])
  {
    assert Missing(before, desired[j]);
    assert NowThere(w, before, now, desired[j]);
  }

  lemma RegisterFirst(w: Writer, before: map<string, Record>, now: map<string, Record>, desired: seq<DesiredRecord>,
                      i: nat)
    requires i < |desired| && Missing(before, desired[i]) && !Duplicate(now, desired[i])
    requires Registered(w, before, now, desired, i)
    ensures FirstOf(desired, i)
  {
    forall j | 0 <= j < i
      ensures desired[j].name != desired[i].name || desired[j].data != desired[i].data
    {
      if desired[j].name == desired[i].name && desired[j].data == desired[i].data {
        SameSaid(w, before, now, desired, i, j);
      }
    }
  }

  /** An enabled record that says what is missing was registered in this pass. */
  lemma DuplicateIsNew(w: Writer, before: map<string, Record>, now: map<string, Record>, desired: seq<DesiredRecord>,
                       i: nat, x: string)
    requires i < |desired| && Missing(before, desired[i]) && StillThere(before, now)
    requires Registered(w, before, now, desired, i) && x in now && now[x].enabled && Matches(now[x], desired[i])
    ensures NowThere(w, before, now, desired[i])
  {
    assert IsNew(before, now, x);
    assert RegisteredFor(w, before, now[x], desired, i);
  }

  lemma LaterIsFine(w: Writer, before: map<string, Record>, r: Record, desired: seq<DesiredRecord>, n: int)
    requires RegisteredFor(w, before, r, desired, n)
    ensures RegisteredFor(w, before, r, desired, n + 1)
  {
  }

  /** An entry that is there, from before or since, leaves nothing to register. */
  lemma RegisteredAlready(w: Writer, before: map<string, Record>, now: map<string, Record>,
                          desired: seq<DesiredRecord>, i: nat)
    requires i < |desired| && Registered(w, before, now, desired, i)
    requires Missing(before, desired[i]) ==> NowThere(w, before, now, desired[i])
    ensures Registered(w, before, now, desired, i + 1)
  {
    forall id | IsNew(before, now, id)
      ensures RegisteredFor(w, before, now[id], desired, i + 1)
    {
      LaterIsFine(w, before, now[id], desired, i);
    }
  }

  lemma StaysThere(w: Writer, before: map<string, Record>, now: map<string, Record>, next: map<string, Record>,
                   want: DesiredRecord)
    requires NowThere(w, before, now, want) && StillThere(now, next)
    ensures NowThere(w, before, next, want)
  {
    var x :| && IsNew(before, now, x) && now[x].name == want.name && now[x].data == want.data
             && now[x].enabled && now[x].source == Mdns && now[x].origin == Some(w.instance);
    assert IsNew(before, next, x);
  }

  /** The new record says something else than every other new one. */
  lemma FreshIsOther(w: Writer, before: map<string, Record>, now: map<string, Record>, desired: seq<DesiredRecord>,
                     i: nat, x: string, r: Record)
    requires i < |desired| && !Duplicate(now, desired[i]) && Registered(w, before, now, desired, i)
    requires IsNew(before, now, x) && Matches(r, desired[i])
    ensures !Publish.Alike(now[x], r) && !Publish.Alike(r, now[x])
  {
    assert RegisteredFor(w, before, now[x], desired, i);
  }

  /** The next entry is registered under a new id. */
  ghost predicate Adds(w: Writer, before: map<string, Record>, now: map<string, Record>, desired: seq<DesiredRecord>,
                       i: int, id: Uuid, next: map<string, Record>) {
    && FirstOf(desired, i) && Missing(before, desired[i]) && !Duplicate(now, desired[i]) && id !in now
    && StillThere(before, now) && Registered(w, before, now, desired, i)
    && next == now[id := w.Stamped(id, desired[i])]
  }

  lemma AddedIsThere(w: Writer, before: map<string, Record>, now: map<string, Record>, desired: seq<DesiredRecord>,
                     i: int, id: Uuid, next: map<string, Record>, k: nat)
    requires Adds(w, before, now, desired, i, id, next) && k <= i && Missing(before, desired[k])
    ensures NowThere(w, before, next, desired[k])
  {
    if k < i {
      StaysThere(w, before, now, next, desired[k]);
    } else {
      assert IsNew(before, next, id);
    }
  }

  lemma AddedIsFor(w: Writer, before: map<string, Record>, now: map<string, Record>, desired: seq<DesiredRecord>,
                   i: int, id: Uuid, next: map<string, Record>, x: string)
    requires Adds(w, before, now, desired, i, id, next) && IsNew(before, next, x)
    ensures RegisteredFor(w, before, next[x], desired, i + 1)
  {
    if x == id {
      assert Registers(w, next[x], desired[i]);
    } else {
      assert IsNew(before, now, x);
      LaterIsFine(w, before, now[x], desired, i);
    }
  }

  lemma AddedIsOther(w: Writer, before: map<string, Record>, now: map<string, Record>, desired: seq<DesiredRecord>,
                     i: int, id: Uuid, next: map<string, Record>, x: string, y: string)
    requires Adds(w, before, now, desired, i, id, next) && IsNew(before, next, x) && IsNew(before, next, y) && x != y
    ensures !Publish.Alike(next[x], next[y])
  {
    if x != id {
      assert IsNew(before, now, x);
      FreshIsOther(w, before, now, desired, i, x, next[id]);
    }
    if y != id {
      assert IsNew(before, now, y);
      FreshIsOther(w, before, now, desired, i, y, next[id]);
    }
  }

  lemma RegisterFresh(w: Writer, before: map<string, Record>, now: map<string, Record>, desired: seq<DesiredRecord>,
                      i: int, id: Uuid, next: map<string, Record>)
    requires Adds(w, before, now, desired, i, id, next)
    ensures Registered(w, before, next, desired, i + 1)
  {
    forall k | 0 <= k < i + 1 && Missing(before, desired[k])
      ensures NowThere(w, before, next, desired[k])
    {
      AddedIsThere(w, before, now, desired, i, id, next, k);
    }
    forall x | IsNew(before, next, x)
      ensures RegisteredFor(w, before, next[x], desired, i + 1)
    {
      AddedIsFor(w, before, now, desired, i, id, next, x);
    }
    forall x, y | IsNew(before, next, x) && IsNew(before, next, y) && x != y
      ensures !Publish.Alike(next[x], next[y])
    {
      AddedIsOther(w, before, now, desired, i, id, next, x, y);
    }
  }

  /** An entry that is missing is registered unless an earlier one that says the same was. */
  lemma RegisterOne(w: Writer, before: map<string, Record>, now: map<string, Record>, desired: seq<DesiredRecord>,
                    i: nat, id: Uuid)
    requires i < |desired| && Missing(before, desired[i]) && id !in now
    requires StillThere(before, now) && Registered(w, before, now, desired, i)
    ensures var next := CarryOne(Reporter, w, now, Add(desired[i]), id);
            StillThere(before, next) && Registered(w, before, next, desired, i + 1)
  {
    var next := CarryOne(Reporter, w, now, Add(desired[i]), id);
    if Duplicate(now, desired[i]) {
      var x :| x in now && now[x].enabled && Matches(now[x], desired[i]);
      DuplicateIsNew(w, before, now, desired, i, x);
      RegisteredAlready(w, before, now, desired, i);
    } else {
      RegisterFirst(w, before, now, desired, i);
      RegisterFresh(w, before, now, desired, i, id, next);
    }
  }

  /** Carrying out a reporter's writes registers what was missing, once each, and nothing else. */
  lemma {:induction false} CarryRegisters(w: Writer, seen: seq<Record>, before: map<string, Record>,
                                          now: map<string, Record>, desired: seq<DesiredRecord>, i: nat,
                                          ids: seq<Uuid>)
    requires i <= |desired| && SeesAll(w, before, seen) && |ids| == |ReporterWrites(seen, desired[i..])|
    requires FreshAlong(Reporter, w, now, ReporterWrites(seen, desired[i..]), ids)
    requires StillThere(before, now) && Registered(w, before, now, desired, i)
    ensures var after := Carry(Reporter, w, now, ReporterWrites(seen, desired[i..]), ids);
            StillThere(before, after) && Registered(w, before, after, desired, |desired|)
    decreases |desired| - i
  {
    if i < |desired| {
      var want := desired[i];
      assert desired[i..][0] == want && desired[i..][1..] == desired[i + 1..];
      MissingIsUnseen(w, before, seen, want);
      if Missing(before, want) {
        var rest := ReporterWrites(seen, desired[i + 1..]);
        assert ReporterWrites(seen, desired[i..]) == [Add(want)] + rest && ([Add(want)] + rest)[1..] == rest;
        RegisterOne(w, before, now, desired, i, ids[0]);
        CarryRegisters(w, seen, before, CarryOne(Reporter, w, now, Add(want), ids[0]), desired, i + 1, ids[1..]);
      } else {
        RegisteredAlready(w, before, now, desired, i);
        CarryRegisters(w, seen, before, now, desired, i + 1, ids);
      }
    }
  }

  /** The zone after a reporter's pass, from the zone before it and what is wanted. */
  ghost predicate Reported(w: Writer, before: map<string, Record>, after: map<string, Record>,
                           desired: seq<DesiredRecord>, prune: bool) {
    && Registered(w, before, after, desired, |desired|)
    && (forall id :: id in before ==> (id in after <==> !(prune && Withdrawn(w, before[id], desired))))
    && forall id :: id in before && id in after ==> after[id] == before[id]
  }

  lemma DeletesWithdraw(w: Writer, before: map<string, Record>, seen: seq<Record>, desired: seq<DesiredRecord>)
    requires SeesAll(w, before, seen)
    ensures var gone := DelIds(Deletes(Reporter, w.instance, seen, desired, OwnedIn(Reporter, w.instance, seen)));
            forall id :: id in gone <==> id in before && Withdrawn(w, before[id], desired)
  {
    var mine := OwnedIn(Reporter, w.instance, seen);
    DeletesAre(Reporter, w.instance, seen, desired, mine);
    forall id | id in before
      ensures before[id] in mine <==> before[id].source == Mdns && before[id].origin == Some(w.instance)
      ensures Kept(Reporter, w.instance, seen, desired, before[id]) <==>
              exists want :: want in desired && SameKey(before[id], want)
    {
      assert before[id] in seen;
    }
  }

  lemma PruneLeaves(w: Writer, before: map<string, Record>, now: map<string, Record>, desired: seq<DesiredRecord>,
                    prune: bool, gone: set<string>)
    requires StillThere(before, now) && Registered(w, before, now, desired, |desired|)
    requires forall id :: id in gone <==> prune && id in before && Withdrawn(w, before[id], desired)
    ensures Reported(w, before, now - gone, desired, prune)
  {
    var after := now - gone;
    assert forall id :: IsNew(before, after, id) <==> IsNew(before, now, id);
    forall k | 0 <= k < |desired| && Missing(before, desired[k])
      ensures NowThere(w, before, after, desired[k])
    {
      assert NowThere(w, before, now, desired[k]);
    }
    forall id | IsNew(before, after, id)
      ensures RegisteredFor(w, before, after[id], desired, |desired|)
    {
      assert RegisteredFor(w, before, now[id], desired, |desired|);
    }
  }

  lemma PlanReports(w: Writer, before: map<string, Record>, seen: seq<Record>, desired: seq<DesiredRecord>,
                    prune: bool, ids: seq<Uuid>)
    requires SeesAll(w, before, seen) && |ids| == |Plan(Reporter, w.instance, seen, desired, prune)|
    requires FreshAlong(Reporter, w, before, Plan(Reporter, w.instance, seen, desired, prune), ids)
    ensures Reported(w, before, Carry(Reporter, w, before, Plan(Reporter, w.instance, seen, desired, prune), ids),
                     desired, prune)
  {
    var adds, mine := ReporterWrites(seen, desired), OwnedIn(Reporter, w.instance, seen);
    var dels := if prune then Deletes(Reporter, w.instance, seen, desired, mine) else [];
    CarryConcat(Reporter, w, before, adds, dels, ids);
    assert desired[0..] == desired;
    CarryRegisters(w, seen, before, before, desired, 0, ids[..|adds|]);
    var now := Carry(Reporter, w, before, adds, ids[..|adds|]);
    DeletesAre(Reporter, w.instance, seen, desired, mine);
    CarryDeletes(Reporter, w, now, dels, ids[|adds|..]);
    DeletesWithdraw(w, before, seen, desired);
    PruneLeaves(w, before, now, desired, prune, DelIds(dels));
  }

  /**
   A reporter that sees the whole zone and is not disturbed registers exactly what was
   missing and, when pruning, withdraws exactly its own records that nothing wants;
   every other record stays as it was.
   */
  lemma UndisturbedReport(s: State, who: string, desired: seq<DesiredRecord>, prune: bool, seen: seq<Record>,
                          steps: seq<Step>, ids: seq<Uuid>)
    requires Inv(s) && Enabled(s, Read(who, desired, prune, seen)) && s.instances[who].role.Reporter?
    requires forall id :: id in s.records ==> s.records[id].zoneId == s.zoneId && s.records[id] in seen
    requires var read := Next(s, Read(who, desired, prune, seen));
             Legal(read, steps) && OwnWrites(who, steps, ids) && |steps| == |read.instances[who].pending|
    ensures var read := Next(s, Read(who, desired, prune, seen));
            Reported(Writer(s.zoneId, who), s.records, Run(read, steps).records, desired, prune)
  {
    var read := Next(s, Read(who, desired, prune, seen));
    StepKeepsInv(s, Read(who, desired, prune, seen));
    RunIsCarry(read, who, steps, ids);
    PlanReports(Writer(s.zoneId, who), s.records, seen, desired, prune, ids);
  }

  /** A write to a record that has gone changes nothing: a holder gives up its pass, a reporter's deletion passes. */
  lemma GoneTarget(s: State, who: string, id: Uuid)
    requires Enabled(s, Execute(who, id, Arrives))
    requires var w := s.instances[who].pending[0]; !w.Add? && (if w.Put? then w.r.id else w.id) !in s.records
    ensures var i, next := s.instances[who], Next(s, Execute(who, id, Arrives));
            && next.records == s.records
            && next.instances[who].pending == if i.role.Reporter? && i.pending[0].Del? then i.pending[1..] else []
  {
  }
}
