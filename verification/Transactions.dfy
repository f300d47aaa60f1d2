/** The journaled multi-file transaction of the governance store: staging, a
    write-ahead journal, replacement of the targets, and recovery after a crash.
    Single-file writes are atomic; a crash may fall between any two of them. */
module Transactions {
  import opened Text

  type Path = string
  type Content = string
  type Hash = string

  datatype PlannedWrite = PlannedWrite(path: Path, content: Content, before: Option<Hash>)

  datatype Plan = Plan(writes: seq<PlannedWrite>, events: seq<PlannedWrite>) {
    function All(): seq<PlannedWrite> { writes + events }
  }

  datatype Entry = Entry(path: Path, before: Option<Hash>, after: Hash)
  datatype Status = Prepared | Committed
  datatype Journal = Journal(status: Status, writes: seq<Entry>, events: seq<Entry>)
  datatype Slot = WriteSlot(n: nat) | EventSlot(n: nat)

  datatype Disk = Disk(files: map<Path, Content>, staging: map<Slot, Content>, journal: Option<Journal>)

  function Entries(hash: Content -> Hash, planned: seq<PlannedWrite>): seq<Entry> {
    seq(|planned|, i requires 0 <= i < |planned| =>
      Entry(planned[i].path, planned[i].before, hash(planned[i].content)))
  }

  function JournalOf(hash: Content -> Hash, plan: Plan, status: Status): Journal {
    Journal(status, Entries(hash, plan.writes), Entries(hash, plan.events))
  }

  // ---------------------------------------------- the atomic writes of commit

  datatype Op = Stage(slot: Slot, data: Content) | Replace(path: Path, data: Content) | Log(journal: Journal)

  function Do(d: Disk, op: Op): Disk {
    match op
    case Stage(slot, data) => d.(staging := d.staging[slot := data])
    case Replace(path, data) => d.(files := d.files[path := data])
    case Log(journal) => d.(journal := Some(journal))
  }

  /** The disk after the first `k` of `ops`. */
  function RunTo(d: Disk, ops: seq<Op>, k: nat): Disk
    requires k <= |ops|
  {
    if k == 0 then d else Do(RunTo(d, ops, k - 1), ops[k - 1])
  }

  function SlotOf(plan: Plan, i: nat): Slot {
    if i < |plan.writes| then WriteSlot(i) else EventSlot(i - |plan.writes|)
  }

  function OpOf(hash: Content -> Hash, plan: Plan, i: nat): Op
    requires i < 2 * |plan.All()| + 2
  {
    var all, n := plan.All(), |plan.All()|;
    if i < n then Stage(SlotOf(plan, i), all[i].content)
    else if i == n then Log(JournalOf(hash, plan, Prepared))
    else if i <= 2 * n then Replace(all[i - n - 1].path, all[i - n - 1].content)
    else Log(JournalOf(hash, plan, Committed))
  }

  function CommitOps(hash: Content -> Hash, plan: Plan): (ops: seq<Op>)
    ensures |ops| == 2 * |plan.All()| + 2
    ensures forall i :: 0 <= i < |ops| ==> ops[i] == OpOf(hash, plan, i)
  {
    seq(2 * |plan.All()| + 2, i requires 0 <= i < 2 * |plan.All()| + 2 => OpOf(hash, plan, i))
  }

  /** The files once the first `k` planned writes have replaced their targets. */
  function Applied(files: map<Path, Content>, planned: seq<PlannedWrite>, k: nat): map<Path, Content>
    requires k <= |planned|
  {
    if k == 0 then files
    else Applied(files, planned, k - 1)[planned[k - 1].path := planned[k - 1].content]
  }

  // -------------------------------------------------------------- recovery

  datatype Outcome = Finished | Interrupted | Refused
  datatype Progress = Progress(files: map<Path, Content>, fuel: nat, outcome: Outcome)

  predicate Matches(hash: Content -> Hash, files: map<Path, Content>, path: Path, expected: Hash) {
    path in files && hash(files[path]) == expected
  }

  /** Recovery of the pending writes from index `i` on, dying after `fuel` of them. */
  function ApplyWrites(hash: Content -> Hash, p: Progress, staging: map<Slot, Content>,
      entries: seq<Entry>, i: nat): Progress
    requires i <= |entries| && p.outcome.Finished?
    decreases |entries| - i
  {
    if i == |entries| then p else
    var e := entries[i];
    if Matches(hash, p.files, e.path, e.after) then ApplyWrites(hash, p, staging, entries, i + 1)
    else if e.path in p.files && e.before.Some? && hash(p.files[e.path]) != e.before.value then
      p.(outcome := Refused)
    else if WriteSlot(i) !in staging then p.(outcome := Refused)
    else if p.fuel == 0 then p.(outcome := Interrupted)
    else ApplyWrites(hash, Progress(p.files[e.path := staging[WriteSlot(i)]], p.fuel - 1, Finished),
                     staging, entries, i + 1)
  }

  function ApplyEvents(hash: Content -> Hash, p: Progress, staging: map<Slot, Content>,
      entries: seq<Entry>, i: nat): Progress
    requires i <= |entries| && p.outcome.Finished?
    decreases |entries| - i
  {
    if i == |entries| then p else
    var e := entries[i];
    if e.path in p.files then
      if Matches(hash, p.files, e.path, e.after) then ApplyEvents(hash, p, staging, entries, i + 1)
      else p.(outcome := Refused)
    else if EventSlot(i) !in staging then p.(outcome := Refused)
    else if p.fuel == 0 then p.(outcome := Interrupted)
    else ApplyEvents(hash, Progress(p.files[e.path := staging[EventSlot(i)]], p.fuel - 1, Finished),
                     staging, entries, i + 1)
  }

  predicate StagingIntact(hash: Content -> Hash, d: Disk, j: Journal) {
    && (forall i :: 0 <= i < |j.writes| && WriteSlot(i) in d.staging
          ==> hash(d.staging[WriteSlot(i)]) == j.writes[i].after)
    && (forall i :: 0 <= i < |j.events| && EventSlot(i) in d.staging
          ==> hash(d.staging[EventSlot(i)]) == j.events[i].after)
  }

  /** One recovery pass that dies after `fuel` atomic writes, if it gets that far. */
  function Recover(hash: Content -> Hash, d: Disk, fuel: nat): (Disk, Outcome) {
    if d.journal.None? || d.journal.value.status.Committed? then (d, Finished) else
    var j := d.journal.value;
    if !StagingIntact(hash, d, j) then (d, Refused) else
    var w := ApplyWrites(hash, Progress(d.files, fuel, Finished), d.staging, j.writes, 0);
    if !w.outcome.Finished? then (d.(files := w.files), w.outcome) else
    var v := ApplyEvents(hash, w, d.staging, j.events, 0);
    if !v.outcome.Finished? then (d.(files := v.files), v.outcome)
    else if v.fuel == 0 then (d.(files := v.files), Interrupted)
    else (d.(files := v.files, journal := Some(j.(status := Committed))), Finished)
  }

  /** Any number of recovery passes, each dying after its own number of writes. */
  function RecoverMany(hash: Content -> Hash, d: Disk, fuels: seq<nat>): Disk
    decreases fuels
  {
    if fuels == [] then d else RecoverMany(hash, Recover(hash, d, fuels[0]).0, fuels[1..])
  }

  // ------------------------------------------------------------ well-formed

  function Digest(hash: Content -> Hash, files: map<Path, Content>, path: Path): Option<Hash> {
    if path in files then Some(hash(files[path])) else None
  }

  /** What planning establishes: recorded digests are those of the files at the
      time, and event paths are fresh and written once. */
  ghost predicate Planned(hash: Content -> Hash, files: map<Path, Content>, plan: Plan) {
    && (forall i :: 0 <= i < |plan.writes| ==> plan.writes[i].before == Digest(hash, files, plan.writes[i].path))
    && (forall i :: 0 <= i < |plan.events| ==> plan.events[i].path !in files)
    && (forall i, j :: 0 <= i < |plan.All()| && |plan.writes| <= j < |plan.All()| && i != j
          ==> plan.All()[i].path != plan.All()[j].path)
  }

  /** What is at the target of a planned write, before it or after. */
  function Involved(files: map<Path, Content>, plan: Plan): set<Content> {
    (set w | w in plan.writes && w.path in files :: files[w.path]) + (set w | w in plan.writes :: w.content)
  }

  /** Distinct ones among these contents have distinct digests. */
  ghost predicate CollisionFree(hash: Content -> Hash, files: map<Path, Content>, plan: Plan) {
    forall a, b :: a in Involved(files, plan) && b in Involved(files, plan) && hash(a) == hash(b) ==> a == b
  }

  /** No file that already existed is planned twice with different contents. */
  predicate Consistent(plan: Plan) {
    forall i, j :: 0 <= i < j < |plan.writes| ==>
      plan.writes[i].path != plan.writes[j].path || plan.writes[i].before.None?
      || plan.writes[i].content == plan.writes[j].content
  }

  /** The disks that a crash in the middle can leave: everything staged and
      journaled, each target still old or already new. */
  ghost predicate Mixed(hash: Content -> Hash, base: map<Path, Content>, plan: Plan, d: Disk) {
    && d.journal == Some(JournalOf(hash, plan, Prepared))
    && (forall i :: 0 <= i < |plan.All()| ==>
          SlotOf(plan, i) in d.staging && d.staging[SlotOf(plan, i)] == plan.All()[i].content)
    && HalfDone(base, plan, d.files)
  }

  ghost predicate HalfDone(base: map<Path, Content>, plan: Plan, files: map<Path, Content>) {
    && (forall p :: p in base ==> p in files)
    && (forall p :: (forall i :: 0 <= i < |plan.All()| ==> plan.All()[i].path != p)
          ==> (p in files <==> p in base) && (p in base ==> files[p] == base[p]))
    && (forall i :: 0 <= i < |plan.writes| && plan.writes[i].path in base
          ==> files[plan.writes[i].path] in {base[plan.writes[i].path], plan.writes[i].content})
    && (forall i :: 0 <= i < |plan.writes| && plan.writes[i].path in files && plan.writes[i].path !in base
          ==> files[plan.writes[i].path] in Involved(base, plan))
    && (forall j :: 0 <= j < |plan.events| && plan.events[j].path in files
          ==> files[plan.events[j].path] == plan.events[j].content)
  }

  lemma AreInvolved(base: map<Path, Content>, plan: Plan, i: nat)
    requires i < |plan.writes|
    ensures plan.writes[i].content in Involved(base, plan)
    ensures plan.writes[i].path in base ==> base[plan.writes[i].path] in Involved(base, plan)
  {
    assert plan.writes[i] in plan.writes;
  }

  // ------------------------------------------------- recovery from the middle

  lemma {:induction false} AppliedAt(base: map<Path, Content>, planned: seq<PlannedWrite>, k: nat, p: Path)
    requires k <= |planned|
    ensures p in Applied(base, planned, k) <==> p in base || exists i :: 0 <= i < k && planned[i].path == p
    ensures (forall i :: 0 <= i < k ==> planned[i].path != p) && p in base
      ==> Applied(base, planned, k)[p] == base[p]
    ensures k > 0 ==> Applied(base, planned, k)[planned[k - 1].path] == planned[k - 1].content
  {
    if k > 0 { AppliedAt(base, planned, k - 1, p); }
  }

  /** The targets of the first `i` writes hold what those writes leave there. */
  ghost predicate Settled(base: map<Path, Content>, planned: seq<PlannedWrite>, i: nat, files: map<Path, Content>)
    requires i <= |planned|
  {
    forall t :: 0 <= t < i ==>
      && planned[t].path in files && planned[t].path in Applied(base, planned, i)
      && files[planned[t].path] == Applied(base, planned, i)[planned[t].path]
  }

  lemma SettleNext(base: map<Path, Content>, planned: seq<PlannedWrite>, i: nat,
      files: map<Path, Content>, files': map<Path, Content>)
    requires i < |planned| && Settled(base, planned, i, files)
    requires files' == files[planned[i].path := planned[i].content]
    ensures Settled(base, planned, i + 1, files')
  {
  }

  /** A pending write either finds its target done or may be carried out. */
  lemma WriteMayProceed(hash: Content -> Hash, base: map<Path, Content>, plan: Plan,
      files: map<Path, Content>, i: nat)
    requires CollisionFree(hash, base, plan) && Planned(hash, base, plan)
    requires i < |plan.writes| && HalfDone(base, plan, files)
    ensures var w := plan.writes[i];
      if Matches(hash, files, w.path, hash(w.content)) then files[w.path := w.content] == files
      else w.path in files && w.before.Some? ==> hash(files[w.path]) == w.before.value
  {
    hide Involved;
    AreInvolved(base, plan, i);
  }

  lemma {:induction false} RecoverWritesFrom(hash: Content -> Hash, base: map<Path, Content>, plan: Plan,
      staging: map<Slot, Content>, p: Progress, i: nat)
    requires CollisionFree(hash, base, plan) && Planned(hash, base, plan) && Consistent(plan)
    requires WritesStaged(plan, staging)
    requires i <= |plan.writes| && p.outcome.Finished?
    requires HalfDone(base, plan, p.files) && Settled(base, plan.All(), i, p.files)
    ensures var r := ApplyWrites(hash, p, staging, Entries(hash, plan.writes), i);
      && !r.outcome.Refused? && HalfDone(base, plan, r.files)
      && p.fuel - (|plan.writes| - i) <= r.fuel
      && (r.outcome.Interrupted? ==> p.fuel < |plan.writes| - i)
      && (r.outcome.Finished? ==> Settled(base, plan.All(), |plan.writes|, r.files))
    decreases |plan.writes| - i
  {
    hide HalfDone, Settled, Planned, Consistent, CollisionFree, Applied, Matches;
    if i < |plan.writes| {
      var w := plan.writes[i];
      assert plan.All()[i] == w;
      var files' := p.files[w.path := w.content];
      HalfDoneWrite(hash, base, plan, p.files, i);
      SettleNext(base, plan.All(), i, p.files, files');
      WriteMayProceed(hash, base, plan, p.files, i);
      if Matches(hash, p.files, w.path, hash(w.content)) {
        RecoverWritesFrom(hash, base, plan, staging, p, i + 1);
      } else if p.fuel > 0 {
        RecoverWritesFrom(hash, base, plan, staging, Progress(files', p.fuel - 1, Finished), i + 1);
      }
    }
  }

  lemma HalfDoneWrite(hash: Content -> Hash, base: map<Path, Content>, plan: Plan, files: map<Path, Content>, i: nat)
    requires Planned(hash, base, plan) && Consistent(plan)
    requires i < |plan.writes| && HalfDone(base, plan, files)
    ensures HalfDone(base, plan, files[plan.writes[i].path := plan.writes[i].content])
  {
    hide Involved;
    AreInvolved(base, plan, i);
    assert plan.All()[i] == plan.writes[i];
    EventsApart(hash, base, plan, i);
    hide Plan.All;
    var w, files' := plan.writes[i], files[plan.writes[i].path := plan.writes[i].content];
    forall t | 0 <= t < |plan.writes| && plan.writes[t].path in base
      ensures files'[plan.writes[t].path] in {base[plan.writes[t].path], plan.writes[t].content}
    {
      assert plan.writes[t].path == w.path ==> plan.writes[t].before.Some? && w.before.Some?;
    }
  }

  lemma EventsApart(hash: Content -> Hash, base: map<Path, Content>, plan: Plan, i: nat)
    requires Planned(hash, base, plan) && i < |plan.writes|
    ensures forall j :: 0 <= j < |plan.events| ==> plan.events[j].path != plan.writes[i].path
  {
    var all := plan.All();
    assert all[i] == plan.writes[i];
    forall j | 0 <= j < |plan.events| ensures plan.events[j].path != plan.writes[i].path {
      assert all[|plan.writes| + j] == plan.events[j];
    }
  }

  lemma HalfDoneEvent(hash: Content -> Hash, base: map<Path, Content>, plan: Plan, files: map<Path, Content>, i: nat)
    requires Planned(hash, base, plan) && i < |plan.events| && HalfDone(base, plan, files)
    ensures HalfDone(base, plan, files[plan.events[i].path := plan.events[i].content])
  {
    var all := plan.All();
    assert all[|plan.writes| + i] == plan.events[i];
    forall j | 0 <= j < |plan.writes| ensures plan.writes[j].path != plan.events[i].path {
      assert all[j] == plan.writes[j];
    }
    forall j | 0 <= j < |plan.events| && j != i ensures plan.events[j].path != plan.events[i].path {
      assert all[|plan.writes| + j] == plan.events[j];
    }
  }

  lemma EventMayProceed(hash: Content -> Hash, base: map<Path, Content>, plan: Plan,
      files: map<Path, Content>, i: nat)
    requires i < |plan.events| && HalfDone(base, plan, files)
    ensures var w := plan.events[i];
      w.path in files ==> files[w.path := w.content] == files && Matches(hash, files, w.path, hash(w.content))
  {
  }

  lemma {:induction false} RecoverEventsFrom(hash: Content -> Hash, base: map<Path, Content>, plan: Plan,
      staging: map<Slot, Content>, p: Progress, i: nat)
    requires Planned(hash, base, plan) && EventsStaged(plan, staging)
    requires i <= |plan.events| && p.outcome.Finished?
    requires HalfDone(base, plan, p.files) && Settled(base, plan.All(), |plan.writes| + i, p.files)
    ensures var r := ApplyEvents(hash, p, staging, Entries(hash, plan.events), i);
      && !r.outcome.Refused? && HalfDone(base, plan, r.files)
      && p.fuel - (|plan.events| - i) <= r.fuel
      && (r.outcome.Interrupted? ==> p.fuel < |plan.events| - i)
      && (r.outcome.Finished? ==> Settled(base, plan.All(), |plan.All()|, r.files))
    decreases |plan.events| - i
  {
    hide HalfDone, Settled, Planned, Applied, Matches;
    if i < |plan.events| {
      var w := plan.events[i];
      assert plan.All()[|plan.writes| + i] == w;
      var files' := p.files[w.path := w.content];
      HalfDoneEvent(hash, base, plan, p.files, i);
      SettleNext(base, plan.All(), |plan.writes| + i, p.files, files');
      EventMayProceed(hash, base, plan, p.files, i);
      if w.path in p.files {
        RecoverEventsFrom(hash, base, plan, staging, p, i + 1);
      } else if p.fuel > 0 {
        RecoverEventsFrom(hash, base, plan, staging, Progress(files', p.fuel - 1, Finished), i + 1);
      }
    }
  }

  lemma SettledIsApplied(base: map<Path, Content>, plan: Plan, files: map<Path, Content>)
    requires HalfDone(base, plan, files) && Settled(base, plan.All(), |plan.All()|, files)
    ensures files == Applied(base, plan.All(), |plan.All()|)
  {
    var all, n := plan.All(), |plan.All()|;
    forall p ensures p in files <==> p in Applied(base, all, n)
      ensures p in files ==> files[p] == Applied(base, all, n)[p]
    {
      AppliedAt(base, all, n, p);
      if i :| 0 <= i < n && all[i].path == p {
      }
    }
  }

  /** Recovery from a half-done disk never refuses; it either dies in the middle,
      leaving a half-done disk again, or completes the transaction. */
  lemma RecoverMixed(hash: Content -> Hash, base: map<Path, Content>, plan: Plan, d: Disk, fuel: nat)
    requires CollisionFree(hash, base, plan) && Planned(hash, base, plan) && Consistent(plan)
    requires Mixed(hash, base, plan, d)
    ensures var (d', outcome) := Recover(hash, d, fuel);
      && !outcome.Refused?
      && (outcome.Interrupted? ==> Mixed(hash, base, plan, d') && fuel <= |plan.All()|)
      && (outcome.Finished? ==> d'.files == Applied(base, plan.All(), |plan.All()|))
      && (outcome.Finished? ==> d'.journal == Some(JournalOf(hash, plan, Committed)))
  {
    hide HalfDone, Settled, Planned, Consistent, CollisionFree, Applied, ApplyWrites, ApplyEvents,
      WritesStaged, EventsStaged, StagingIntact;
    StagedSlots(hash, base, plan, d);
    RecoverStart(base, plan, d.files);
    RecoverWritesFrom(hash, base, plan, d.staging, Progress(d.files, fuel, Finished), 0);
    var w := ApplyWrites(hash, Progress(d.files, fuel, Finished), d.staging, Entries(hash, plan.writes), 0);
    if w.outcome.Finished? {
      RecoverEventsFrom(hash, base, plan, d.staging, w, 0);
      var v := ApplyEvents(hash, w, d.staging, Entries(hash, plan.events), 0);
      if v.outcome.Finished? { SettledIsApplied(base, plan, v.files); }
    }
  }

  lemma RecoverStart(base: map<Path, Content>, plan: Plan, files: map<Path, Content>)
    ensures Settled(base, plan.All(), 0, files)
  {
  }

  ghost predicate WritesStaged(plan: Plan, staging: map<Slot, Content>) {
    forall t :: 0 <= t < |plan.writes| ==>
      WriteSlot(t) in staging && staging[WriteSlot(t)] == plan.writes[t].content
  }

  ghost predicate EventsStaged(plan: Plan, staging: map<Slot, Content>) {
    forall t :: 0 <= t < |plan.events| ==>
      EventSlot(t) in staging && staging[EventSlot(t)] == plan.events[t].content
  }

  lemma StagedSlots(hash: Content -> Hash, base: map<Path, Content>, plan: Plan, d: Disk)
    requires Mixed(hash, base, plan, d)
    ensures WritesStaged(plan, d.staging) && EventsStaged(plan, d.staging)
    ensures StagingIntact(hash, d, d.journal.value)
  {
    forall t | 0 <= t < |plan.writes|
      ensures WriteSlot(t) in d.staging && d.staging[WriteSlot(t)] == plan.writes[t].content
    {
      assert SlotOf(plan, t) == WriteSlot(t) && plan.All()[t] == plan.writes[t];
    }
    forall t | 0 <= t < |plan.events|
      ensures EventSlot(t) in d.staging && d.staging[EventSlot(t)] == plan.events[t].content
    {
      assert SlotOf(plan, |plan.writes| + t) == EventSlot(t) && plan.All()[|plan.writes| + t] == plan.events[t];
    }
  }

  // ------------------------------------------------------ crashes in commit

  ghost predicate StagedUpTo(plan: Plan, staging: map<Slot, Content>, k: nat) {
    forall i :: 0 <= i < |plan.All()| && i < k ==>
      SlotOf(plan, i) in staging && staging[SlotOf(plan, i)] == plan.All()[i].content
  }

  lemma StageNext(plan: Plan, staging: map<Slot, Content>, k: nat)
    requires k < |plan.All()| && StagedUpTo(plan, staging, k)
    ensures StagedUpTo(plan, staging[SlotOf(plan, k) := plan.All()[k].content], k + 1)
  {
  }

  /** Before the journal is written no target has changed; afterwards the targets
      change one by one; the last write marks the journal committed. */
  ghost predicate CrashShape(hash: Content -> Hash, d: Disk, plan: Plan, k: nat, at: Disk)
    requires k <= 2 * |plan.All()| + 2
  {
    var n := |plan.All()|;
    && StagedUpTo(plan, at.staging, k)
    && if k <= n then at.files == d.files && at.journal.None?
       else if k <= 2 * n + 1 then
         at.files == Applied(d.files, plan.All(), k - n - 1) && at.journal == Some(JournalOf(hash, plan, Prepared))
       else
         at.files == Applied(d.files, plan.All(), n) && at.journal == Some(JournalOf(hash, plan, Committed))
  }

  lemma CrashStep(hash: Content -> Hash, d: Disk, plan: Plan, k: nat, at: Disk)
    requires k < 2 * |plan.All()| + 2 && CrashShape(hash, d, plan, k, at)
    ensures CrashShape(hash, d, plan, k + 1, Do(at, OpOf(hash, plan, k)))
  {
    hide JournalOf, StagedUpTo, SlotOf, Plan.All;
    if k < |plan.All()| {
      StageNext(plan, at.staging, k);
    } else {
      StagedMore(plan, at.staging, k + 1);
    }
  }

  lemma {:induction false} CrashPoint(hash: Content -> Hash, d: Disk, plan: Plan, k: nat)
    requires d.journal.None? && k <= 2 * |plan.All()| + 2
    ensures CrashShape(hash, d, plan, k, RunTo(d, CommitOps(hash, plan), k))
  {
    if k == 0 {
      NoneStaged(plan, d.staging);
    } else {
      hide CrashShape, CommitOps, OpOf;
      CrashPoint(hash, d, plan, k - 1);
      CrashStep(hash, d, plan, k - 1, RunTo(d, CommitOps(hash, plan), k - 1));
    }
  }

  lemma NoneStaged(plan: Plan, staging: map<Slot, Content>)
    ensures StagedUpTo(plan, staging, 0)
  {
  }

  lemma StagedMore(plan: Plan, staging: map<Slot, Content>, k: nat)
    requires |plan.All()| < k && StagedUpTo(plan, staging, k - 1)
    ensures StagedUpTo(plan, staging, k)
  {
  }

  lemma {:induction false} AppliedHalfDone(hash: Content -> Hash, base: map<Path, Content>, plan: Plan, k: nat)
    requires Planned(hash, base, plan) && Consistent(plan) && k <= |plan.All()|
    ensures HalfDone(base, plan, Applied(base, plan.All(), k))
  {
    hide HalfDone, Planned, Consistent;
    if k == 0 {
      UntouchedHalfDone(hash, base, plan);
    } else {
      AppliedHalfDone(hash, base, plan, k - 1);
      var files := Applied(base, plan.All(), k - 1);
      if k <= |plan.writes| {
        HalfDoneWrite(hash, base, plan, files, k - 1);
      } else {
        HalfDoneEvent(hash, base, plan, files, k - 1 - |plan.writes|);
      }
    }
  }

  lemma UntouchedHalfDone(hash: Content -> Hash, base: map<Path, Content>, plan: Plan)
    requires Planned(hash, base, plan)
    ensures HalfDone(base, plan, base)
  {
  }

  /** A crash between the journal's two writes leaves a half-done disk. */
  lemma CrashIsMixed(hash: Content -> Hash, d: Disk, plan: Plan, k: nat)
    requires Planned(hash, d.files, plan) && Consistent(plan) && d.journal.None?
    requires |plan.All()| < k <= 2 * |plan.All()| + 1
    ensures Mixed(hash, d.files, plan, RunTo(d, CommitOps(hash, plan), k))
  {
    hide HalfDone, Planned, Consistent, RunTo, CommitOps, JournalOf, Applied;
    CrashPoint(hash, d, plan, k);
    AppliedHalfDone(hash, d.files, plan, k - |plan.All()| - 1);
  }

  lemma {:induction false} RecoverManyMixed(hash: Content -> Hash, base: map<Path, Content>, plan: Plan,
      d: Disk, fuels: seq<nat>)
    requires CollisionFree(hash, base, plan) && Planned(hash, base, plan) && Consistent(plan)
    requires Mixed(hash, base, plan, d) || Complete(hash, base, plan, d)
    ensures var d' := RecoverMany(hash, d, fuels);
      Mixed(hash, base, plan, d') || Complete(hash, base, plan, d')
    decreases fuels
  {
    hide Mixed, Planned, Consistent, CollisionFree, Recover;
    if fuels != [] {
      RecoverOnce(hash, base, plan, d, fuels[0]);
      RecoverManyMixed(hash, base, plan, Recover(hash, d, fuels[0]).0, fuels[1..]);
    }
  }

  ghost predicate Complete(hash: Content -> Hash, base: map<Path, Content>, plan: Plan, d: Disk) {
    && d.files == Applied(base, plan.All(), |plan.All()|)
    && d.journal == Some(JournalOf(hash, plan, Committed))
  }

  lemma RecoverOnce(hash: Content -> Hash, base: map<Path, Content>, plan: Plan, d: Disk, fuel: nat)
    requires CollisionFree(hash, base, plan) && Planned(hash, base, plan) && Consistent(plan)
    requires Mixed(hash, base, plan, d) || Complete(hash, base, plan, d)
    ensures var (d', outcome) := Recover(hash, d, fuel);
      && (Mixed(hash, base, plan, d') || Complete(hash, base, plan, d'))
      && (fuel > |plan.All()| ==> outcome.Finished? && Complete(hash, base, plan, d'))
  {
    hide Mixed, Planned, Consistent, CollisionFree, Applied;
    if Mixed(hash, base, plan, d) {
      hide Recover;
      RecoverMixed(hash, base, plan, d, fuel);
    }
  }

  /** All or nothing. Wherever commit dies, and however often recovery dies in
      its turn, one recovery that runs to its end leaves either every planned
      write in place or none; it is every write exactly when the journal had
      been written. */
  lemma AllOrNothing(hash: Content -> Hash, d: Disk, plan: Plan, crash: nat, fuels: seq<nat>, fuel: nat)
    requires CollisionFree(hash, d.files, plan) && Planned(hash, d.files, plan) && Consistent(plan)
    requires d.journal.None? && crash <= 2 * |plan.All()| + 2 && fuel > |plan.All()|
    ensures var crashed := RunTo(d, CommitOps(hash, plan), crash);
      var (d', outcome) := Recover(hash, RecoverMany(hash, crashed, fuels), fuel);
      && outcome.Finished?
      && d'.files == if crash <= |plan.All()| then d.files
                     else Applied(d.files, plan.All(), |plan.All()|)
  {
    var crashed := RunTo(d, CommitOps(hash, plan), crash);
    CrashPoint(hash, d, plan, crash);
    if crash <= |plan.All()| {
      NothingToRecover(hash, crashed, fuels);
    } else {
      if crash <= 2 * |plan.All()| + 1 { CrashIsMixed(hash, d, plan, crash); }
      hide Mixed, Planned, Consistent, CollisionFree, Applied, RunTo, CommitOps, Recover;
      RecoverManyMixed(hash, d.files, plan, crashed, fuels);
      RecoverOnce(hash, d.files, plan, RecoverMany(hash, crashed, fuels), fuel);
    }
  }

  lemma {:induction false} NothingToRecover(hash: Content -> Hash, d: Disk, fuels: seq<nat>)
    requires d.journal.None?
    ensures RecoverMany(hash, d, fuels) == d
    decreases fuels
  {
    if fuels != [] { NothingToRecover(hash, d, fuels[1..]); }
  }

  // ------------------------------------- planning one existing file twice

  ghost predicate Ahead(plan: Plan, i: nat, q: Path, t: nat) {
    i <= t < |plan.writes| && plan.writes[t].path == q
  }

  /** A target that is neither as found nor as some later write wants it stops recovery. */
  lemma {:induction false} Stuck(hash: Content -> Hash, base: map<Path, Content>, plan: Plan,
      staging: map<Slot, Content>, p: Progress, i: nat, q: Path, t: nat)
    requires CollisionFree(hash, base, plan) && Planned(hash, base, plan) && WritesStaged(plan, staging)
    requires i <= |plan.writes| && p.outcome.Finished? && q in base && q in p.files
    requires p.files[q] != base[q] && Ahead(plan, i, q, t) && plan.writes[t].content != p.files[q]
    requires p.files[q] in Involved(base, plan)
    ensures !ApplyWrites(hash, p, staging, Entries(hash, plan.writes), i).outcome.Finished?
    decreases |plan.writes| - i
  {
    hide Involved;
    var w := plan.writes[i];
    AreInvolved(base, plan, i);
    assert w.path == q ==> w.before == Some(hash(base[q]));
    if Matches(hash, p.files, w.path, hash(w.content)) {
      Stuck(hash, base, plan, staging, p, i + 1, q, t);
    } else if w.path != q && p.fuel > 0 {
      var p' := Progress(p.files[w.path := w.content], p.fuel - 1, Finished);
      Stuck(hash, base, plan, staging, p', i + 1, q, t);
    }
  }

  /** So does a target as found that the writes ahead change and change back. */
  lemma {:induction false} StuckLater(hash: Content -> Hash, base: map<Path, Content>, plan: Plan,
      staging: map<Slot, Content>, p: Progress, i: nat, q: Path, s: nat, t: nat)
    requires CollisionFree(hash, base, plan) && Planned(hash, base, plan) && WritesStaged(plan, staging)
    requires i <= |plan.writes| && p.outcome.Finished? && q in base && q in p.files
    requires p.files[q] == base[q] && s < t && Ahead(plan, i, q, s) && Ahead(plan, i, q, t)
    requires plan.writes[s].content != base[q] && plan.writes[t].content == base[q]
    ensures !ApplyWrites(hash, p, staging, Entries(hash, plan.writes), i).outcome.Finished?
    decreases |plan.writes| - i
  {
    hide Involved;
    var w := plan.writes[i];
    AreInvolved(base, plan, i);
    AreInvolved(base, plan, s);
    if Matches(hash, p.files, w.path, hash(w.content)) {
      StuckLater(hash, base, plan, staging, p, i + 1, q, s, t);
    } else if p.fuel > 0 {
      var p' := Progress(p.files[w.path := w.content], p.fuel - 1, Finished);
      if w.path != q {
        StuckLater(hash, base, plan, staging, p', i + 1, q, s, t);
      } else {
        Stuck(hash, base, plan, staging, p', i + 1, q, t);
      }
    }
  }

  /** The last write planned for a path decides what is found there. */
  lemma {:induction false} LastWrite(base: map<Path, Content>, planned: seq<PlannedWrite>, k: nat, i: nat)
      returns (l: nat)
    requires i < k <= |planned|
    ensures i <= l < k && planned[l].path == planned[i].path
    ensures planned[i].path in Applied(base, planned, k)
    ensures Applied(base, planned, k)[planned[i].path] == planned[l].content
  {
    if planned[k - 1].path == planned[i].path {
      l := k - 1;
    } else {
      l := LastWrite(base, planned, k - 1, i);
    }
  }

  lemma LastWriteOfPlan(hash: Content -> Hash, base: map<Path, Content>, plan: Plan, i: nat) returns (l: nat)
    requires Planned(hash, base, plan) && i < |plan.writes|
    ensures i <= l < |plan.writes| && plan.writes[l].path == plan.writes[i].path
    ensures var q, end := plan.writes[i].path, Applied(base, plan.All(), |plan.All()|);
      q in end && end[q] == plan.writes[l].content
  {
    var all := plan.All();
    assert all[i] == plan.writes[i];
    l := LastWrite(base, all, |all|, i);
    assert l < |plan.writes| ==> all[l] == plan.writes[l];
  }

  /** Once every target is replaced, a file planned twice with different contents
      stops recovery. */
  lemma ReplacedStuck(hash: Content -> Hash, base: map<Path, Content>, plan: Plan, staging: map<Slot, Content>,
      fuel: nat, i: nat, j: nat)
    requires CollisionFree(hash, base, plan) && Planned(hash, base, plan) && WritesStaged(plan, staging)
    requires i < j < |plan.writes| && plan.writes[i].path == plan.writes[j].path
    requires plan.writes[i].before.Some? && plan.writes[i].content != plan.writes[j].content
    ensures var end := Applied(base, plan.All(), |plan.All()|);
      !ApplyWrites(hash, Progress(end, fuel, Finished), staging, Entries(hash, plan.writes), 0).outcome.Finished?
  {
    var q := plan.writes[i].path;
    assert q in base;
    var l := LastWriteOfPlan(hash, base, plan, j);
    AreInvolved(base, plan, l);
    var end := Applied(base, plan.All(), |plan.All()|);
    hide ApplyWrites, Planned, CollisionFree, Applied, WritesStaged, Plan.All, Involved;
    var other := if plan.writes[i].content != end[q] then i else j;
    assert Ahead(plan, 0, q, other) && Ahead(plan, 0, q, l);
    if end[q] != base[q] {
      Stuck(hash, base, plan, staging, Progress(end, fuel, Finished), 0, q, other);
    } else {
      StuckLater(hash, base, plan, staging, Progress(end, fuel, Finished), 0, q, other, l);
    }
  }

  /** With an existing file planned twice, the crash after the last replacement
      cannot be recovered from, whatever the budget. */
  lemma InconsistentStuck(hash: Content -> Hash, d: Disk, plan: Plan, fuel: nat)
    requires CollisionFree(hash, d.files, plan) && Planned(hash, d.files, plan) && !Consistent(plan) && d.journal.None?
    ensures !Recover(hash, RunTo(d, CommitOps(hash, plan), 2 * |plan.All()| + 1), fuel).1.Finished?
  {
    hide *;
    var i, j := Conflict(plan);
    var at := RunTo(d, CommitOps(hash, plan), 2 * |plan.All()| + 1);
    CrashPoint(hash, d, plan, 2 * |plan.All()| + 1);
    ReplacedShape(hash, d, plan, at);
    ReplacedStuck(hash, d.files, plan, at.staging, fuel, i, j);
    WritesStop(hash, plan, at, fuel);
  }

  /** Planning one existing file twice does that, and is not refused. */
  lemma TwicePlanned(hash: Content -> Hash, found: Content, first: Content, second: Content)
    requires first != second
    ensures var files := map["a" := found];
      var plan := Plan([PlannedWrite("a", first, Some(hash(found))), PlannedWrite("a", second, Some(hash(found)))], []);
      Planned(hash, files, plan) && !Consistent(plan)
  {
    var plan := Plan([PlannedWrite("a", first, Some(hash(found))), PlannedWrite("a", second, Some(hash(found)))], []);
    assert plan.writes[0].path == plan.writes[1].path && plan.writes[0].before.Some?;
    assert plan.writes[0].content != plan.writes[1].content;
  }

  lemma Conflict(plan: Plan) returns (i: nat, j: nat)
    requires !Consistent(plan)
    ensures i < j < |plan.writes| && plan.writes[i].path == plan.writes[j].path
    ensures plan.writes[i].before.Some? && plan.writes[i].content != plan.writes[j].content
  {
    i, j :| 0 <= i < j < |plan.writes| && plan.writes[i].path == plan.writes[j].path
      && plan.writes[i].before.Some? && plan.writes[i].content != plan.writes[j].content;
  }

  lemma ReplacedShape(hash: Content -> Hash, d: Disk, plan: Plan, at: Disk)
    requires CrashShape(hash, d, plan, 2 * |plan.All()| + 1, at)
    ensures WritesStaged(plan, at.staging) && at.files == Applied(d.files, plan.All(), |plan.All()|)
    ensures at.journal == Some(JournalOf(hash, plan, Prepared))
  {
    AllStaged(plan, at.staging);
  }

  lemma WritesStop(hash: Content -> Hash, plan: Plan, at: Disk, fuel: nat)
    requires at.journal == Some(JournalOf(hash, plan, Prepared))
    requires !ApplyWrites(hash, Progress(at.files, fuel, Finished), at.staging,
                          Entries(hash, plan.writes), 0).outcome.Finished?
    ensures !Recover(hash, at, fuel).1.Finished?
  {
    hide ApplyWrites, ApplyEvents, StagingIntact;
  }

  lemma AllStaged(plan: Plan, staging: map<Slot, Content>)
    requires StagedUpTo(plan, staging, 2 * |plan.All()| + 1)
    ensures WritesStaged(plan, staging)
  {
    forall t | 0 <= t < |plan.writes|
      ensures WriteSlot(t) in staging && staging[WriteSlot(t)] == plan.writes[t].content
    {
      assert SlotOf(plan, t) == WriteSlot(t) && plan.All()[t] == plan.writes[t];
    }
  }

  /** Every crash can be recovered from exactly when no existing file is planned
      twice with different contents. */
  lemma RecoverableIffConsistent(hash: Content -> Hash, d: Disk, plan: Plan)
    requires CollisionFree(hash, d.files, plan) && Planned(hash, d.files, plan) && d.journal.None?
    ensures Consistent(plan) <==>
      forall crash :: 0 <= crash <= 2 * |plan.All()| + 2 ==>
        Recover(hash, RunTo(d, CommitOps(hash, plan), crash), |plan.All()| + 1).1.Finished?
  {
    hide Planned, CollisionFree, Consistent, CommitOps, RunTo, Recover;
    if Consistent(plan) {
      forall crash | 0 <= crash <= 2 * |plan.All()| + 2
        ensures Recover(hash, RunTo(d, CommitOps(hash, plan), crash), |plan.All()| + 1).1.Finished?
      {
        AllOrNothing(hash, d, plan, crash, [], |plan.All()| + 1);
      }
    } else {
      InconsistentStuck(hash, d, plan, |plan.All()| + 1);
    }
  }

  // ------------------------------------------------------- the store itself

  datatype CommitResult = Done | Crashed | NothingPlanned

  class Workspace {
    var files: map<Path, Content>
    var staging: map<Slot, Content>
    var journal: Option<Journal>
    const hash: Content -> Hash

    constructor (hash: Content -> Hash, files: map<Path, Content>)
      ensures this.hash == hash && Image() == Disk(files, map[], None)
    {
      this.hash := hash;
      this.files, this.staging, this.journal := files, map[], None;
    }

    ghost function Image(): Disk reads this {
      Disk(files, staging, journal)
    }

    /** Commits `plan`, dying after `crash` atomic writes if there are that many. */
    method Commit(plan: Plan, crash: nat) returns (r: CommitResult)
      modifies this
      ensures plan.All() == [] ==> r == NothingPlanned && Image() == old(Image())
      ensures plan.All() != [] ==> var ops := CommitOps(hash, plan);
        && r == (if crash < |ops| then Crashed else Done)
        && Image() == RunTo(old(Image()), ops, if crash < |ops| then crash else |ops|)
    {
      if |plan.writes| + |plan.events| == 0 {
        return NothingPlanned;
      }
      hide RunTo, CommitOps, StagedUpTo;
      ghost var start := Image();
      OpsCount(hash, plan);
      var alive := Prepare(plan, crash);
      if !alive {
        return Crashed;
      }
      alive := Finish(plan, crash, start);
      return if alive then Done else Crashed;
    }

    /** Stages everything and journals it as prepared. */
    method Prepare(plan: Plan, crash: nat) returns (alive: bool)
      requires plan.All() != []
      modifies `staging, `journal
      ensures var n := |plan.All()|;
        && alive == (n + 1 <= crash)
        && Image() == RunTo(old(Image()), CommitOps(hash, plan), if alive then n + 1 else crash)
        && (alive ==> StagedUpTo(plan, staging, n))
    {
      hide RunTo, CommitOps, JournalOf, StagedUpTo;
      ghost var start := Image();
      var n := |plan.writes| + |plan.events|;
      assert |plan.All()| == n;
      alive := StageAll(plan, crash);
      if !alive || crash == n {
        return false;
      }
      LogStep(hash, start, plan, n);
      journal := Some(JournalOf(hash, plan, Prepared));
    }

    /** Replaces all targets and journals that as committed. */
    method Finish(plan: Plan, crash: nat, ghost start: Disk) returns (alive: bool)
      requires plan.All() != [] && |plan.All()| < crash && StagedUpTo(plan, staging, |plan.All()|)
      requires Image() == RunTo(start, CommitOps(hash, plan), |plan.All()| + 1)
      modifies `files, `journal
      ensures var n := |plan.All()|;
        && alive == (2 * n + 2 <= crash)
        && Image() == RunTo(start, CommitOps(hash, plan), if alive then 2 * n + 2 else crash)
    {
      hide RunTo, CommitOps, JournalOf, StagedUpTo;
      var n := |plan.writes| + |plan.events|;
      assert |plan.All()| == n;
      alive := ReplaceAll(plan, crash, start);
      if !alive || crash == 2 * n + 1 {
        return false;
      }
      LogStep(hash, start, plan, 2 * n + 1);
      journal := Some(JournalOf(hash, plan, Committed));
    }

    /** Stages the planned writes, then the planned events. */
    method StageAll(plan: Plan, crash: nat) returns (alive: bool)
      modifies `staging
      ensures var n := |plan.All()|;
        && alive == (n <= crash)
        && Image() == RunTo(old(Image()), CommitOps(hash, plan), if alive then n else crash)
        && (alive ==> StagedUpTo(plan, staging, n))
    {
      hide RunTo, CommitOps, StagedUpTo;
      var all := plan.All();
      NoneStaged(plan, staging);
      StartStep(hash, Image(), plan);
      for i := 0 to |all|
        invariant i <= crash && Image() == RunTo(old(Image()), CommitOps(hash, plan), i)
        invariant StagedUpTo(plan, staging, i)
      {
        if i == crash { return false; }
        StageStep(hash, old(Image()), plan, i);
        StageNext(plan, staging, i);
        staging := staging[SlotOf(plan, i) := all[i].content];
      }
      return true;
    }

    /** Replaces the targets of the writes, then of the events, by what is staged. */
    method ReplaceAll(plan: Plan, crash: nat, ghost start: Disk) returns (alive: bool)
      requires |plan.All()| < crash && StagedUpTo(plan, staging, |plan.All()|)
      requires Image() == RunTo(start, CommitOps(hash, plan), |plan.All()| + 1)
      modifies `files
      ensures var n := |plan.All()|;
        && alive == (2 * n + 1 <= crash)
        && Image() == RunTo(start, CommitOps(hash, plan), if alive then 2 * n + 1 else crash)
    {
      hide RunTo, CommitOps;
      var all, n := plan.All(), |plan.All()|;
      for i := 0 to n
        invariant n + 1 + i <= crash && Image() == RunTo(start, CommitOps(hash, plan), n + 1 + i)
      {
        if n + 1 + i == crash { return false; }
        ReplaceStep(hash, start, plan, i);
        files := files[all[i].path := staging[SlotOf(plan, i)]];
      }
      return true;
    }

    method ApplyPendingWrites(entries: seq<Entry>, fuel: nat) returns (p: Progress)
      modifies `files
      ensures p == ApplyWrites(hash, Progress(old(files), fuel, Finished), staging, entries, 0)
      ensures files == p.files
    {
      ghost var begin := Progress(files, fuel, Finished);
      var left := fuel;
      for i := 0 to |entries|
        invariant ApplyWrites(hash, begin, staging, entries, 0)
          == ApplyWrites(hash, Progress(files, left, Finished), staging, entries, i)
      {
        var e := entries[i];
        if !Matches(hash, files, e.path, e.after) {
          if e.path in files && e.before.Some? && hash(files[e.path]) != e.before.value {
            return Progress(files, left, Refused);
          }
          if WriteSlot(i) !in staging {
            return Progress(files, left, Refused);
          }
          if left == 0 {
            return Progress(files, left, Interrupted);
          }
          files, left := files[e.path := staging[WriteSlot(i)]], left - 1;
        }
      }
      return Progress(files, left, Finished);
    }

    method ApplyPendingEvents(entries: seq<Entry>, fuel: nat) returns (p: Progress)
      modifies `files
      ensures p == ApplyEvents(hash, Progress(old(files), fuel, Finished), staging, entries, 0)
      ensures files == p.files
    {
      ghost var begin := Progress(files, fuel, Finished);
      var left := fuel;
      for i := 0 to |entries|
        invariant ApplyEvents(hash, begin, staging, entries, 0)
          == ApplyEvents(hash, Progress(files, left, Finished), staging, entries, i)
      {
        var e := entries[i];
        if e.path in files {
          if !Matches(hash, files, e.path, e.after) {
            return Progress(files, left, Refused);
          }
        } else {
          if EventSlot(i) !in staging {
            return Progress(files, left, Refused);
          }
          if left == 0 {
            return Progress(files, left, Interrupted);
          }
          files, left := files[e.path := staging[EventSlot(i)]], left - 1;
        }
      }
      return Progress(files, left, Finished);
    }

    /** One recovery pass over the pending journal, dying after `fuel` writes. */
    method RecoverPending(fuel: nat) returns (outcome: Outcome)
      modifies this
      ensures (Image(), outcome) == Recover(hash, old(Image()), fuel)
    {
      hide ApplyWrites, ApplyEvents, StagingIntact;
      if journal.None? || journal.value.status.Committed? {
        return Finished;
      }
      var j := journal.value;
      if !StagingIntact(hash, Disk(files, staging, journal), j) {
        return Refused;
      }
      var w := ApplyPendingWrites(j.writes, fuel);
      if !w.outcome.Finished? {
        return w.outcome;
      }
      var v := ApplyPendingEvents(j.events, w.fuel);
      if !v.outcome.Finished? {
        return v.outcome;
      }
      if v.fuel == 0 {
        return Interrupted;
      }
      journal := Some(j.(status := Committed));
      return Finished;
    }
  }

  lemma OpsCount(hash: Content -> Hash, plan: Plan)
    ensures |CommitOps(hash, plan)| == 2 * |plan.All()| + 2
  {
  }

  lemma StartStep(hash: Content -> Hash, d: Disk, plan: Plan)
    ensures RunTo(d, CommitOps(hash, plan), 0) == d
  {
  }

  lemma StageStep(hash: Content -> Hash, d: Disk, plan: Plan, i: nat)
    requires i < |plan.All()|
    ensures RunTo(d, CommitOps(hash, plan), i + 1)
      == Do(RunTo(d, CommitOps(hash, plan), i), Stage(SlotOf(plan, i), plan.All()[i].content))
  {
    hide CommitOps;
    assert CommitOps(hash, plan)[i] == OpOf(hash, plan, i);
  }

  lemma ReplaceStep(hash: Content -> Hash, d: Disk, plan: Plan, i: nat)
    requires i < |plan.All()|
    ensures RunTo(d, CommitOps(hash, plan), |plan.All()| + 2 + i) ==
      Do(RunTo(d, CommitOps(hash, plan), |plan.All()| + 1 + i), Replace(plan.All()[i].path, plan.All()[i].content))
  {
    hide CommitOps;
    var k := |plan.All()| + 1 + i;
    assert CommitOps(hash, plan)[k] == OpOf(hash, plan, k);
  }

  lemma LogStep(hash: Content -> Hash, d: Disk, plan: Plan, k: nat)
    requires k == |plan.All()| || k == 2 * |plan.All()| + 1
    requires plan.All() != []
    ensures RunTo(d, CommitOps(hash, plan), k + 1) == Do(RunTo(d, CommitOps(hash, plan), k),
      Log(JournalOf(hash, plan, if k == |plan.All()| then Prepared else Committed)))
  {
    hide CommitOps;
    assert CommitOps(hash, plan)[k] == OpOf(hash, plan, k);
  }

  // ------------------------------------------------ what others wrote meanwhile

  /** Recovery takes the file for its own, or overwrites it or creates it. */
  predicate Passes(hash: Content -> Hash, files: map<Path, Content>, staging: map<Slot, Content>, e: Entry, slot: Slot) {
    || Matches(hash, files, e.path, e.after)
    || ((e.path in files && e.before.Some? ==> hash(files[e.path]) == e.before.value) && slot in staging)
  }

  predicate PathsDiffer(entries: seq<Entry>) {
    forall a, b :: 0 <= a < b < |entries| ==> entries[a].path != entries[b].path
  }

  /** Whatever happened to the files in between: with the time for it the writes are
      finished exactly when each passes; and in any case each target is as it was,
      or has what was staged for it, the latter only where that passes. */
  lemma {:induction false} WritesFinishIff(hash: Content -> Hash, p: Progress, staging: map<Slot, Content>,
      entries: seq<Entry>, i: nat)
    requires i <= |entries| && p.outcome.Finished? && PathsDiffer(entries)
    ensures var r := ApplyWrites(hash, p, staging, entries, i);
      && (p.fuel >= |entries| - i ==>
           (r.outcome.Finished? <==> forall k :: i <= k < |entries| ==> Passes(hash, p.files, staging, entries[k], WriteSlot(k))))
      && (forall k :: i <= k < |entries| ==> Written(hash, p.files, staging, entries[k], WriteSlot(k), r.files, r.outcome.Finished?))
      && (forall q :: (forall k :: i <= k < |entries| ==> entries[k].path != q) ==> SameAt(p.files, r.files, q))
    decreases |entries| - i
  {
    hide Passes, Written, Matches;
    var r := ApplyWrites(hash, p, staging, entries, i);
    if i < |entries| {
      var e, slot := entries[i], WriteSlot(i);
      WriteStep(hash, p, staging, entries, i);
      if Matches(hash, p.files, e.path, e.after) {
        WritesFinishIff(hash, p, staging, entries, i + 1);
        Kept(hash, p.files, staging, e, slot, r.files, r.outcome.Finished?);
      } else if Passes(hash, p.files, staging, e, slot) && p.fuel > 0 {
        var p' := Progress(p.files[e.path := staging[slot]], p.fuel - 1, Finished);
        WritesFinishIff(hash, p', staging, entries, i + 1);
        forall k | i < k < |entries|
          ensures Passes(hash, p'.files, staging, entries[k], WriteSlot(k)) <==> Passes(hash, p.files, staging, entries[k], WriteSlot(k))
          ensures Written(hash, p.files, staging, entries[k], WriteSlot(k), r.files, r.outcome.Finished?)
        {
          Elsewhere(hash, p.files, p'.files, staging, entries[k], WriteSlot(k), r.files, r.outcome.Finished?);
        }
        forall q | forall k :: i <= k < |entries| ==> entries[k].path != q ensures SameAt(p.files, r.files, q) {
          assert q != e.path && SameAt(p'.files, r.files, q);
        }
        assert SameAt(p'.files, r.files, e.path);
        Replaced(hash, p.files, staging, e, slot, r.files, r.outcome.Finished?);
      } else {
        forall k | i <= k < |entries| ensures Written(hash, p.files, staging, entries[k], WriteSlot(k), r.files, false) {
          Kept(hash, p.files, staging, entries[k], WriteSlot(k), r.files, false);
        }
      }
    }
  }

  /** What recovery does with one entry. */
  lemma WriteStep(hash: Content -> Hash, p: Progress, staging: map<Slot, Content>, entries: seq<Entry>, i: nat)
    requires i < |entries| && p.outcome.Finished?
    ensures var e, slot := entries[i], WriteSlot(i);
      && (Matches(hash, p.files, e.path, e.after) ==> Passes(hash, p.files, staging, e, slot))
      && (Matches(hash, p.files, e.path, e.after) ==>
            ApplyWrites(hash, p, staging, entries, i) == ApplyWrites(hash, p, staging, entries, i + 1))
      && (!Matches(hash, p.files, e.path, e.after) && Passes(hash, p.files, staging, e, slot) ==> slot in staging)
      && (!Matches(hash, p.files, e.path, e.after) && Passes(hash, p.files, staging, e, slot) && p.fuel > 0 ==>
            ApplyWrites(hash, p, staging, entries, i) ==
            ApplyWrites(hash, Progress(p.files[e.path := staging[slot]], p.fuel - 1, Finished), staging, entries, i + 1))
      && (!Passes(hash, p.files, staging, e, slot) ==> ApplyWrites(hash, p, staging, entries, i) == p.(outcome := Refused))
      && (!Matches(hash, p.files, e.path, e.after) && Passes(hash, p.files, staging, e, slot) && p.fuel == 0 ==>
            ApplyWrites(hash, p, staging, entries, i) == p.(outcome := Interrupted))
  {
  }

  lemma Kept(hash: Content -> Hash, was: map<Path, Content>, staging: map<Slot, Content>, e: Entry, slot: Slot,
      now: map<Path, Content>, finished: bool)
    requires SameAt(was, now, e.path) && (finished ==> Matches(hash, was, e.path, e.after))
    ensures Written(hash, was, staging, e, slot, now, finished)
  {
  }

  lemma Replaced(hash: Content -> Hash, was: map<Path, Content>, staging: map<Slot, Content>, e: Entry, slot: Slot,
      now: map<Path, Content>, finished: bool)
    requires !Matches(hash, was, e.path, e.after) && Passes(hash, was, staging, e, slot)
    requires slot in staging && e.path in now && now[e.path] == staging[slot]
    ensures Written(hash, was, staging, e, slot, now, finished)
  {
  }

  lemma Elsewhere(hash: Content -> Hash, was: map<Path, Content>, mid: map<Path, Content>, staging: map<Slot, Content>,
      e: Entry, slot: Slot, now: map<Path, Content>, finished: bool)
    requires SameAt(was, mid, e.path)
    ensures Passes(hash, mid, staging, e, slot) <==> Passes(hash, was, staging, e, slot)
    ensures Written(hash, mid, staging, e, slot, now, finished) <==> Written(hash, was, staging, e, slot, now, finished)
  {
  }

  /** Somebody else's content: neither what was recorded nor what was to come. */
  predicate Foreign(hash: Content -> Hash, files: map<Path, Content>, e: Entry) {
    && e.path in files && hash(files[e.path]) != e.after
    && (e.before.Some? ==> hash(files[e.path]) != e.before.value)
  }

  /** Foreign content at a path that existed when the write was planned is never
      replaced; at a path planned as new it is replaced whenever the writes finish.
      So finished writes respect it everywhere exactly when there is none at the
      paths planned as new. */
  lemma ForeignReplacedIff(hash: Content -> Hash, p: Progress, staging: map<Slot, Content>, entries: seq<Entry>)
    requires p.outcome.Finished? && PathsDiffer(entries)
    requires forall k :: 0 <= k < |entries| && WriteSlot(k) in staging ==> hash(staging[WriteSlot(k)]) == entries[k].after
    ensures var r := ApplyWrites(hash, p, staging, entries, 0);
      && (forall k :: 0 <= k < |entries| && Foreign(hash, p.files, entries[k]) && entries[k].before.Some? ==>
            SameAt(p.files, r.files, entries[k].path))
      && (r.outcome.Finished? ==>
            ((forall k :: 0 <= k < |entries| && Foreign(hash, p.files, entries[k]) ==> SameAt(p.files, r.files, entries[k].path))
             <==> (forall k :: 0 <= k < |entries| && Foreign(hash, p.files, entries[k]) ==> entries[k].before.Some?)))
  {
    WritesFinishIff(hash, p, staging, entries, 0);
    hide ApplyWrites;
    var r := ApplyWrites(hash, p, staging, entries, 0);
    forall k | 0 <= k < |entries| && Foreign(hash, p.files, entries[k])
      ensures entries[k].before.Some? ==> SameAt(p.files, r.files, entries[k].path)
      ensures entries[k].before.None? && r.outcome.Finished? ==> !SameAt(p.files, r.files, entries[k].path)
    {
      assert Written(hash, p.files, staging, entries[k], WriteSlot(k), r.files, r.outcome.Finished?);
    }
  }

  predicate SameAt(was: map<Path, Content>, now: map<Path, Content>, p: Path) {
    (p in was <==> p in now) && (p in was ==> now[p] == was[p])
  }

  /** What became of one target. */
  predicate Written(hash: Content -> Hash, was: map<Path, Content>, staging: map<Slot, Content>, e: Entry, slot: Slot,
      now: map<Path, Content>, finished: bool)
  {
    var done := Matches(hash, was, e.path, e.after);
    || (SameAt(was, now, e.path) && (finished ==> done))
    || (!done && Passes(hash, was, staging, e, slot) && e.path in now && now[e.path] == staging[slot])
  }

  /** The file at `q` is as it was, or has the digest journalled for it. */
  ghost predicate Journalled(hash: Content -> Hash, was: map<Path, Content>, now: map<Path, Content>, entries: seq<Entry>, q: Path) {
    SameAt(was, now, q) || exists e :: e in entries && e.path == q && Matches(hash, now, q, e.after)
  }

  lemma JournalledStep(hash: Content -> Hash, was: map<Path, Content>, mid: map<Path, Content>, now: map<Path, Content>,
      entries: seq<Entry>, e: Entry, q: Path)
    requires e in entries && (mid == was || (e.path in mid && hash(mid[e.path]) == e.after && mid == was[e.path := mid[e.path]]))
    requires Journalled(hash, mid, now, entries, q)
    ensures Journalled(hash, was, now, entries, q)
  {
  }

  lemma {:induction false} WritesJournalled(hash: Content -> Hash, p: Progress, staging: map<Slot, Content>,
      entries: seq<Entry>, i: nat, q: Path)
    requires i <= |entries| && p.outcome.Finished?
    requires forall k :: 0 <= k < |entries| && WriteSlot(k) in staging ==> hash(staging[WriteSlot(k)]) == entries[k].after
    ensures Journalled(hash, p.files, ApplyWrites(hash, p, staging, entries, i).files, entries, q)
    decreases |entries| - i
  {
    if i < |entries| {
      var e, slot := entries[i], WriteSlot(i);
      WriteStep(hash, p, staging, entries, i);
      if Matches(hash, p.files, e.path, e.after) {
        WritesJournalled(hash, p, staging, entries, i + 1, q);
      } else if Passes(hash, p.files, staging, e, slot) && p.fuel > 0 {
        var p' := Progress(p.files[e.path := staging[slot]], p.fuel - 1, Finished);
        WritesJournalled(hash, p', staging, entries, i + 1, q);
        JournalledStep(hash, p.files, p'.files, ApplyWrites(hash, p, staging, entries, i).files, entries, e, q);
      }
    }
  }

  lemma {:induction false} EventsJournalled(hash: Content -> Hash, p: Progress, staging: map<Slot, Content>,
      entries: seq<Entry>, i: nat, q: Path)
    requires i <= |entries| && p.outcome.Finished?
    requires forall k :: 0 <= k < |entries| && EventSlot(k) in staging ==> hash(staging[EventSlot(k)]) == entries[k].after
    ensures Journalled(hash, p.files, ApplyEvents(hash, p, staging, entries, i).files, entries, q)
    decreases |entries| - i
  {
    if i < |entries| {
      var e, slot := entries[i], EventSlot(i);
      if Matches(hash, p.files, e.path, e.after) {
        EventsJournalled(hash, p, staging, entries, i + 1, q);
      } else if e.path !in p.files && slot in staging && p.fuel > 0 {
        var p' := Progress(p.files[e.path := staging[slot]], p.fuel - 1, Finished);
        EventsJournalled(hash, p', staging, entries, i + 1, q);
        JournalledStep(hash, p.files, p'.files, ApplyEvents(hash, p, staging, entries, i).files, entries, e, q);
      }
    }
  }

  /** Whatever has happened to files and staging: wherever it stops, recovery has
      changed a file only to content with a digest journalled for its path. */
  lemma RecoveryWritesJournalled(hash: Content -> Hash, d: Disk, fuel: nat, q: Path)
    ensures var now := Recover(hash, d, fuel).0.files;
      || SameAt(d.files, now, q)
      || (d.journal.Some? && exists e :: e in d.journal.value.writes + d.journal.value.events && e.path == q && Matches(hash, now, q, e.after))
  {
    hide ApplyWrites, ApplyEvents, Matches;
    if d.journal.Some? && d.journal.value.status.Prepared? && StagingIntact(hash, d, d.journal.value) {
      var j := d.journal.value;
      var w := ApplyWrites(hash, Progress(d.files, fuel, Finished), d.staging, j.writes, 0);
      WritesJournalled(hash, Progress(d.files, fuel, Finished), d.staging, j.writes, 0, q);
      var now := Recover(hash, d, fuel).0.files;
      if w.outcome.Finished? {
        EventsJournalled(hash, w, d.staging, j.events, 0, q);
      }
      if !SameAt(d.files, now, q) {
        if !SameAt(w.files, now, q) {
          var e :| e in j.events && e.path == q && Matches(hash, now, q, e.after);
          assert e in j.writes + j.events;
        } else {
          var e :| e in j.writes && e.path == q && Matches(hash, w.files, q, e.after);
          SameMatches(hash, w.files, now, q, e.after);
          assert e in j.writes + j.events;
        }
      }
    }
  }

  lemma SameMatches(hash: Content -> Hash, was: map<Path, Content>, now: map<Path, Content>, q: Path, digest: Hash)
    requires SameAt(was, now, q) && Matches(hash, was, q, digest)
    ensures Matches(hash, now, q, digest)
  {
  }

  /** The least such input: a file created by someone else at a path planned as new
      is replaced without complaint. */
  lemma CreatedMeanwhileIsLost(hash: Content -> Hash, theirs: Content, ours: Content)
    requires hash(theirs) != hash(ours)
    ensures var plan := Plan([PlannedWrite("a", ours, None)], []);
      var d := Disk(map["a" := theirs], map[WriteSlot(0) := ours], Some(JournalOf(hash, plan, Prepared)));
      var (d', outcome) := Recover(hash, d, 2);
      outcome.Finished? && d'.files == map["a" := ours]
  {
    var plan := Plan([PlannedWrite("a", ours, None)], []);
    var entries := Entries(hash, plan.writes);
    var staging := map[WriteSlot(0) := ours];
    var p' := Progress(map["a" := ours], 1, Finished);
    assert ApplyWrites(hash, p', staging, entries, 1) == p';
    assert ApplyWrites(hash, Progress(map["a" := theirs], 2, Finished), staging, entries, 0) == p';
  }
}
