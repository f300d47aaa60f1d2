/** Runs of competing notification dispatchers over one queue and one lock file,
    under a clock that never goes back. Sending may succeed or fail, marking may
    be cut short by an exception, and a dispatcher may die anywhere. */
module NotificationRuns {
  import opened Text
  import opened Notifications

  datatype Pc =
    | Waiting(deadline: Time)
    | Inside
    | Sending(todo: seq<seq<Item>>)
    | Marking(sent: bool, items: seq<Item>, todo: seq<seq<Item>>)
    | Leaving
    | Gone
    | Dead(at: Pc)

  /** `tries` are the times of the recorded failed attempts of each record;
      `delivered` counts mails sent per record, `unmarked` those of them whose
      record could not be marked. */
  datatype System = System(
    now: Time, lock: Option<int>, dispatchers: map<int, Pc>,
    records: map<string, Record>,
    tries: map<string, seq<Time>>, delivered: multiset<string>, unmarked: multiset<string>)

  datatype Action =
    | Tick(elapsed: nat) | Arrive | Acquire | GiveUp | Enqueue(candidate: Candidate)
    | Collect(pending: seq<Item>, includeDigest: bool) | Skip | Send(ok: bool) | Mark | Next
    | Quit | Release | Die

  const LOCK_TIMEOUT: Time := 2 * SECOND

  predicate InLock(pc: Pc) {
    pc.Inside? || pc.Sending? || pc.Marking? || pc.Leaving?
  }

  function IdsOf(items: seq<Item>): seq<string> {
    seq(|items|, k requires 0 <= k < |items| => items[k].id)
  }

  ghost predicate MayTake(settings: Settings, s: System, pc: Pc, a: Action) {
    match a
    case Tick(_) => true
    case Arrive => false
    case Acquire => pc.Waiting? && s.lock.None?
    case GiveUp => pc.Waiting? && s.lock.Some? && pc.deadline <= s.now
    case Enqueue(_) => pc.Inside?
    case Collect(pending, _) => pc.Inside? && Scan(s.records, s.now, pending)
    case Skip => pc.Sending? && pc.todo != [] && pc.todo[0] != [] && To(settings, pc.todo[0][0]) == []
    case Send(_) => pc.Sending? && pc.todo != [] && pc.todo[0] != [] && To(settings, pc.todo[0][0]) != []
    case Mark => pc.Marking? && pc.items != []
    case Next => pc.Marking? && pc.items == []
    case Quit => pc.Inside? || pc.Sending? || pc.Marking?
    case Release => pc.Leaving?
    case Die => !pc.Gone? && !pc.Dead?
  }

  ghost predicate Enabled(settings: Settings, s: System, d: int, a: Action) {
    if a.Tick? then true
    else if a.Arrive? then d !in s.dispatchers
    else d in s.dispatchers && MayTake(settings, s, s.dispatchers[d], a)
  }

  function Move(s: System, d: int, pc: Pc): System {
    s.(dispatchers := s.dispatchers[d := pc])
  }

  function TriesOf(s: System, id: string): seq<Time> {
    if id in s.tries then s.tries[id] else []
  }

  ghost function After(settings: Settings, s: System, d: int, a: Action): System
    requires Enabled(settings, s, d, a)
  {
    match a
    case Tick(elapsed) => s.(now := s.now + elapsed)
    case Arrive => Move(s, d, Waiting(s.now + LOCK_TIMEOUT))
    case Acquire => Move(s, d, Inside).(lock := Some(d))
    case GiveUp => Move(s, d, Gone)
    case Enqueue(c) => s.(records := EnqueueOne(settings, s.records, c))
    case Collect(pending, includeDigest) => Move(s, d, Sending(Mailings(settings, pending, includeDigest)))
    case Skip => Move(s, d, Sending(s.dispatchers[d].todo[1..]))
    case Send(ok) =>
      var todo := s.dispatchers[d].todo;
      Move(s, d, Marking(ok, todo[0], todo[1..])).(
        delivered := if ok then s.delivered + multiset(IdsOf(todo[0])) else s.delivered)
    case Mark =>
      var pc := s.dispatchers[d];
      var id, r := pc.items[0].id, pc.items[0].record;
      var rest := Move(s, d, Marking(pc.sent, pc.items[1..], pc.todo));
      if pc.sent then rest.(records := s.records[id := MarkedSent(r)])
      else rest.(records := s.records[id := MarkedFailed(r, s.now)],
                 tries := s.tries[id := TriesOf(s, id) + [s.now]])
    case Next => Move(s, d, Sending(s.dispatchers[d].todo))
    case Quit =>
      var pc := s.dispatchers[d];
      Move(s, d, Leaving).(unmarked :=
        if pc.Marking? && pc.sent then s.unmarked + multiset(IdsOf(pc.items)) else s.unmarked)
    case Release => Move(s, d, Gone).(lock := if s.lock == Some(d) then None else s.lock)
    case Die => Move(s, d, Dead(s.dispatchers[d]))
  }

  ghost predicate Initial(s: System) {
    s.lock.None? && s.dispatchers == map[] && s.records == map[] && s.tries == map[]
    && s.delivered == multiset{} && s.unmarked == multiset{}
  }

  ghost predicate Steps(settings: Settings, s: System, s': System) {
    exists d, a :: Enabled(settings, s, d, a) && s' == After(settings, s, d, a)
  }

  ghost predicate Run(settings: Settings, run: seq<System>) {
    && run != [] && Initial(run[0])
    && forall i :: 0 < i < |run| ==> Steps(settings, run[i - 1], run[i])
  }

  // --------------------------------------------------------- the invariant

  ghost predicate Exclusive(s: System) {
    && (forall d :: d in s.dispatchers && InLock(s.dispatchers[d]) ==> s.lock == Some(d))
    && (s.lock.Some? ==> s.lock.value in s.dispatchers)
  }

  /** Each failed try comes after the delay that the one before it asked for. */
  ghost predicate Spaced(tries: seq<Time>) {
    forall k :: 0 < k < |tries| ==> tries[k] >= tries[k - 1] + Delay(k) * SECOND
  }

  ghost predicate RecordOk(settings: Settings, id: string, r: Record, tries: seq<Time>, now: Time) {
    && settings.idOf(r.key) == id
    && r.attempts == |tries| <= MAX_ATTEMPTS
    && Spaced(tries)
    && (tries == [] ==> r.nextAttempt.None?)
    && (tries != [] ==> tries[|tries| - 1] <= now)
    && (tries != [] ==> r.nextAttempt == Some(tries[|tries| - 1] + Delay(|tries|) * SECOND))
  }

  ghost predicate RecordsOk(settings: Settings, s: System) {
    && (forall id :: id in s.records ==> RecordOk(settings, id, s.records[id], TriesOf(s, id), s.now))
    && (forall id :: id in s.tries ==> id in s.records)
  }

  /** The records that the lock holder has yet to send or mark. */
  function Remaining(pc: Pc): seq<Item>
    decreases pc
  {
    match pc
    case Sending(todo) => Flatten(todo)
    case Marking(_, items, todo) => items + Flatten(todo)
    case Dead(at) => Remaining(at)
    case _ => []
  }

  ghost predicate Current(s: System, items: seq<Item>) {
    && Distinct(items)
    && forall x :: x in items ==> x.id in s.records && s.records[x.id] == x.record && Eligible(x.record, s.now)
  }

  /** The records sent by the lock holder that it still has to mark. */
  function InFlight(pc: Pc): seq<Item>
    decreases pc
  {
    match pc
    case Marking(sent, items, _) => if sent then items else []
    case Dead(at) => InFlight(at)
    case _ => []
  }

  function SentOnce(records: map<string, Record>, id: string): nat {
    if id in records && records[id].status.Sent? then 1 else 0
  }

  function Flight(s: System): multiset<string> {
    if s.lock.Some? && s.lock.value in s.dispatchers
    then multiset(IdsOf(InFlight(s.dispatchers[s.lock.value]))) else multiset{}
  }

  /** Every mail sent for a record left it marked as sent, or is about to, or the
      marking was cut short. */
  ghost predicate Accounted(s: System) {
    forall id :: s.delivered[id] == SentOnce(s.records, id) + s.unmarked[id] + Flight(s)[id]
  }

  ghost predicate HolderOk(s: System) {
    s.lock.Some? && s.lock.value in s.dispatchers ==> Current(s, Remaining(s.dispatchers[s.lock.value]))
  }

  ghost predicate Inv(settings: Settings, s: System) {
    Exclusive(s) && RecordsOk(settings, s) && HolderOk(s) && Accounted(s)
  }

  lemma StepKeepsExclusive(settings: Settings, s: System, d: int, a: Action)
    requires Exclusive(s) && Enabled(settings, s, d, a)
    ensures Exclusive(After(settings, s, d, a))
  {
    hide Mailings, MarkedFailed, EnqueueOne, Scan, IdsOf, To;
  }

  lemma AttemptKeepsSpacing(settings: Settings, id: string, r: Record, tries: seq<Time>, now: Time)
    requires RecordOk(settings, id, r, tries, now) && Eligible(r, now)
    ensures RecordOk(settings, id, MarkedFailed(r, now), tries + [now], now)
  {
    hide Delay;
  }

  lemma MarkKeepsRecords(settings: Settings, s: System, d: int)
    requires RecordsOk(settings, s) && Enabled(settings, s, d, Mark)
    requires Current(s, s.dispatchers[d].items)
    ensures RecordsOk(settings, After(settings, s, d, Mark))
  {
    hide IdsOf, To, Delay, Spaced, Flatten, RecordOk;
    var item := s.dispatchers[d].items[0];
    var r, tries := item.record, TriesOf(s, item.id);
    assert item in s.dispatchers[d].items;
    if s.dispatchers[d].sent {
      SentKeepsOk(settings, item.id, r, tries, s.now);
    } else {
      AttemptKeepsSpacing(settings, item.id, r, tries, s.now);
    }
  }

  lemma SentKeepsOk(settings: Settings, id: string, r: Record, tries: seq<Time>, now: Time)
    requires RecordOk(settings, id, r, tries, now)
    ensures RecordOk(settings, id, MarkedSent(r), tries, now)
  {
  }

  lemma FreshOk(settings: Settings, c: Candidate, now: Time)
    ensures RecordOk(settings, settings.idOf(c.key), Fresh(c), [], now)
  {
  }

  lemma LaterOk(settings: Settings, id: string, r: Record, tries: seq<Time>, now: Time, later: Time)
    requires RecordOk(settings, id, r, tries, now) && now <= later
    ensures RecordOk(settings, id, r, tries, later)
  {
  }

  lemma StepKeepsRecords(settings: Settings, s: System, d: int, a: Action)
    requires Exclusive(s) && RecordsOk(settings, s) && HolderOk(s) && Enabled(settings, s, d, a)
    ensures RecordsOk(settings, After(settings, s, d, a))
  {
    hide Mailings, IdsOf, To, Delay, Spaced, RecordOk, Scan;
    if a.Mark? {
      HolderItems(settings, s, d);
      MarkKeepsRecords(settings, s, d);
    } else if a.Enqueue? {
      FreshOk(settings, a.candidate, s.now);
    } else if a.Tick? {
      forall id | id in s.records
        ensures RecordOk(settings, id, s.records[id], TriesOf(s, id), s.now + a.elapsed)
      {
        LaterOk(settings, id, s.records[id], TriesOf(s, id), s.now, s.now + a.elapsed);
      }
    }
  }

  lemma HolderItems(settings: Settings, s: System, d: int)
    requires Exclusive(s) && HolderOk(s) && Enabled(settings, s, d, Mark)
    ensures Current(s, s.dispatchers[d].items)
  {
    var pc := s.dispatchers[d];
    HeadCurrent(s, pc.items, Flatten(pc.todo));
  }

  lemma HeadCurrent(s: System, a: seq<Item>, b: seq<Item>)
    requires Current(s, a + b)
    ensures Current(s, a)
  {
    forall j, k | 0 <= j < k < |a| ensures a[j].id != a[k].id {
      assert (a + b)[j] == a[j] && (a + b)[k] == a[k];
    }
  }

  lemma SplitFirst(groups: seq<seq<Item>>)
    requires groups != []
    ensures Flatten(groups) == groups[0] + Flatten(groups[1..])
  {
  }

  lemma TailCurrent(s: System, a: seq<Item>, b: seq<Item>)
    requires Current(s, a + b)
    ensures Current(s, b)
  {
    forall j, k | 0 <= j < k < |b| ensures b[j].id != b[k].id {
      assert (a + b)[|a| + j] == b[j] && (a + b)[|a| + k] == b[k];
    }
  }

  /** Time passing, and new records, leave what is to be sent as it is. */
  lemma StillCurrent(s: System, s': System, items: seq<Item>)
    requires Current(s, items) && s.now <= s'.now
    requires forall id :: id in s.records ==> id in s'.records && s'.records[id] == s.records[id]
    ensures Current(s', items)
  {
    hide Distinct;
  }

  lemma NothingCurrent(s: System)
    ensures Current(s, [])
  {
  }

  lemma CollectedCurrent(settings: Settings, s: System, pending: seq<Item>, includeDigest: bool)
    requires Scan(s.records, s.now, pending)
    ensures Current(s, Flatten(Mailings(settings, pending, includeDigest)))
  {
    hide Mailings, Flatten;
    MailingsDistinct(settings, pending, includeDigest);
  }

  lemma StepKeepsHolder(settings: Settings, s: System, d: int, a: Action)
    requires Exclusive(s) && HolderOk(s) && Enabled(settings, s, d, a)
    ensures HolderOk(After(settings, s, d, a))
  {
    hide IdsOf, To, Mailings, Current, Flatten, Eligible, Scan, MarkedFailed;
    var s' := After(settings, s, d, a);
    NothingCurrent(s');
    match a
    case Collect(pending, includeDigest) =>
      CollectedCurrent(settings, s, pending, includeDigest);
      StillCurrent(s, s', Flatten(Mailings(settings, pending, includeDigest)));
    case Skip =>
      var todo := s.dispatchers[d].todo;
      SplitFirst(todo);
      TailCurrent(s, todo[0], Flatten(todo[1..]));
      StillCurrent(s, s', Flatten(todo[1..]));
    case Send(_) =>
      SplitFirst(s.dispatchers[d].todo);
      StillCurrent(s, s', Flatten(s.dispatchers[d].todo));
    case Mark =>
      MarkKeepsHolder(settings, s, d);
    case Next =>
      assert Remaining(s.dispatchers[d]) == Flatten(s.dispatchers[d].todo);
      StillCurrent(s, s', Flatten(s.dispatchers[d].todo));
    case Acquire =>
    case _ =>
      if s.lock.Some? && s.lock.value in s.dispatchers {
        StillCurrent(s, s', Remaining(s.dispatchers[s.lock.value]));
      }
  }

  lemma MarkKeepsHolder(settings: Settings, s: System, d: int)
    requires Exclusive(s) && HolderOk(s) && Enabled(settings, s, d, Mark)
    ensures HolderOk(After(settings, s, d, Mark))
  {
    hide Flatten, Current;
    var pc, s' := s.dispatchers[d], After(settings, s, d, Mark);
    assert Remaining(pc) == [pc.items[0]] + (pc.items[1..] + Flatten(pc.todo));
    MarkedApart(s, s', pc.items[0], pc.items[1..] + Flatten(pc.todo));
  }

  lemma MarkedApart(s: System, s': System, head: Item, tail: seq<Item>)
    requires Current(s, [head] + tail) && s'.now == s.now
    requires forall id :: id != head.id ==>
      (id in s'.records <==> id in s.records) && (id in s.records ==> s'.records[id] == s.records[id])
    ensures Current(s', tail)
  {
    TailCurrent(s, [head], tail);
    forall x | x in tail ensures x.id != head.id {
      var k :| 0 <= k < |tail| && tail[k] == x;
      assert ([head] + tail)[0] == head && ([head] + tail)[k + 1] == x;
    }
  }

  // ------------------------------------------------- delivered, marked, lost

  lemma CountDistinct(items: seq<Item>, id: string)
    requires Distinct(items)
    ensures multiset(IdsOf(items))[id] == if exists x :: x in items && x.id == id then 1 else 0
  {
    var ids := IdsOf(items);
    if x :| x in items && x.id == id {
      var k :| 0 <= k < |items| && items[k] == x;
      assert ids == ids[..k] + [ids[k]] + ids[k + 1..];
      assert id !in ids[..k] && id !in ids[k + 1..];
    } else {
      assert id !in ids;
    }
  }

  lemma HeadCount(items: seq<Item>)
    requires items != []
    ensures multiset(IdsOf(items)) == multiset{items[0].id} + multiset(IdsOf(items[1..]))
  {
    assert IdsOf(items) == [items[0].id] + IdsOf(items[1..]);
  }

  lemma NoneCount()
    ensures multiset(IdsOf([])) == multiset{}
  {
    assert IdsOf([]) == [];
  }

  lemma OthersKeepFlight(settings: Settings, s: System, d: int, a: Action)
    requires Exclusive(s) && Enabled(settings, s, d, a) && !a.Mark? && !a.Send? && !a.Quit?
    ensures var s' := After(settings, s, d, a);
      && Flight(s') == Flight(s) && s'.delivered == s.delivered && s'.unmarked == s.unmarked
      && forall id :: SentOnce(s'.records, id) == SentOnce(s.records, id)
  {
    hide Mailings, IdsOf, To, Flatten, Scan;
    NoneCount();
  }

  lemma SendFlight(settings: Settings, s: System, d: int, a: Action)
    requires Exclusive(s) && Enabled(settings, s, d, a) && (a.Send? || a.Quit?)
    ensures var s' := After(settings, s, d, a);
      && s'.records == s.records
      && s'.delivered + s.unmarked + Flight(s) == s.delivered + s'.unmarked + Flight(s')
  {
    hide Mailings, IdsOf, To, Flatten, Scan;
    NoneCount();
  }

  lemma MarkingFlight(s: System, d: int)
    requires Exclusive(s) && d in s.dispatchers && s.dispatchers[d].Marking?
    ensures Flight(s) == if s.dispatchers[d].sent then multiset(IdsOf(s.dispatchers[d].items)) else multiset{}
  {
    NoneCount();
  }

  lemma MarkedCount(records: map<string, Record>, id: string, r: Record, other: string)
    requires id in records && !records[id].status.Sent?
    ensures SentOnce(records[id := r], other) ==
      SentOnce(records, other) + if other == id && r.status.Sent? then 1 else 0
  {
  }

  lemma MarkFlight(settings: Settings, s: System, d: int)
    requires Exclusive(s) && HolderOk(s) && Enabled(settings, s, d, Mark)
    ensures var s' := After(settings, s, d, Mark);
      && s'.delivered == s.delivered && s'.unmarked == s.unmarked
      && forall id :: SentOnce(s'.records, id) + Flight(s')[id] == SentOnce(s.records, id) + Flight(s)[id]
  {
    var pc, s' := s.dispatchers[d], After(settings, s, d, Mark);
    HolderItems(settings, s, d);
    assert pc.items[0] in pc.items;
    var id := pc.items[0].id;
    assert id in s.records && !s.records[id].status.Sent?;
    var r := s'.records[id];
    assert s'.records == s.records[id := r] && r.status.Sent? == pc.sent;
    StepKeepsExclusive(settings, s, d, Mark);
    MarkingFlight(s, d);
    MarkingFlight(s', d);
    HeadCount(pc.items);
    hide *;
    forall other
      ensures SentOnce(s'.records, other) + Flight(s')[other] == SentOnce(s.records, other) + Flight(s)[other]
    {
      MarkedCount(s.records, id, r, other);
    }
  }

  lemma StepKeepsAccount(settings: Settings, s: System, d: int, a: Action)
    requires Exclusive(s) && HolderOk(s) && Accounted(s) && Enabled(settings, s, d, a)
    ensures Accounted(After(settings, s, d, a))
  {
    hide Exclusive, HolderOk, Enabled, After, Flight, SentOnce;
    if a.Mark? {
      MarkFlight(settings, s, d);
    } else if a.Send? || a.Quit? {
      SendFlight(settings, s, d, a);
      var s' := After(settings, s, d, a);
      forall id ensures s'.delivered[id] == SentOnce(s'.records, id) + s'.unmarked[id] + Flight(s')[id] {
        assert (s'.delivered + s.unmarked + Flight(s))[id] == (s.delivered + s'.unmarked + Flight(s'))[id];
      }
    } else {
      OthersKeepFlight(settings, s, d, a);
    }
  }

  // ------------------------------------------------------------ main results

  lemma {:induction false} RunKeepsInv(settings: Settings, run: seq<System>, i: nat)
    requires Run(settings, run) && i < |run|
    ensures Inv(settings, run[i])
  {
    if i == 0 {
      NoneCount();
    } else {
      RunKeepsInv(settings, run, i - 1);
      assert Steps(settings, run[i - 1], run[i]);
      var d, a :| Enabled(settings, run[i - 1], d, a) && run[i] == After(settings, run[i - 1], d, a);
      hide Exclusive, RecordsOk, HolderOk, Accounted, Enabled, After;
      StepKeepsExclusive(settings, run[i - 1], d, a);
      StepKeepsRecords(settings, run[i - 1], d, a);
      StepKeepsHolder(settings, run[i - 1], d, a);
      StepKeepsAccount(settings, run[i - 1], d, a);
    }
  }

  /** At most one dispatcher is inside; a key has one record; every record has
      been tried at most six times, and the tries that failed are recorded. */
  lemma QueueSafety(settings: Settings, run: seq<System>)
    requires Run(settings, run)
    ensures var s := run[|run| - 1];
      && (forall d, e :: d in s.dispatchers && e in s.dispatchers ==>
            !InLock(s.dispatchers[d]) || !InLock(s.dispatchers[e]) || d == e)
      && (forall i, j :: i in s.records && j in s.records && s.records[i].key == s.records[j].key ==> i == j)
      && (forall id :: id in s.records ==> s.records[id].attempts == |TriesOf(s, id)| <= MAX_ATTEMPTS)
  {
    hide Spaced;
    RunKeepsInv(settings, run, |run| - 1);
  }

  /** The mails sent for a record are the one that marked it sent, those whose
      marking was cut short, and the one about to be marked; without a marking
      cut short it is sent at most once. */
  lemma DeliveryAccount(settings: Settings, run: seq<System>, id: string)
    requires Run(settings, run)
    ensures var s := run[|run| - 1];
      && s.delivered[id] == SentOnce(s.records, id) + s.unmarked[id] + Flight(s)[id]
      && (s.unmarked[id] == 0 ==> s.delivered[id] <= 1)
  {
    var s := run[|run| - 1];
    RunKeepsInv(settings, run, |run| - 1);
    if s.lock.Some? {
      FlightOnce(s, id);
    }
  }

  /** A record on its way to being marked is on its way once, and not yet sent. */
  lemma FlightOnce(s: System, id: string)
    requires HolderOk(s)
    ensures Flight(s)[id] <= 1
    ensures Flight(s)[id] == 1 ==> SentOnce(s.records, id) == 0
  {
    NoneCount();
    if s.lock.Some? && s.lock.value in s.dispatchers {
      FlightRemains(s, s.dispatchers[s.lock.value]);
      CountDistinct(InFlight(s.dispatchers[s.lock.value]), id);
    }
  }

  lemma {:induction false} FlightRemains(s: System, pc: Pc)
    requires Current(s, Remaining(pc))
    ensures Current(s, InFlight(pc))
    decreases pc
  {
    match pc
    case Marking(sent, items, todo) => HeadCurrent(s, items, Flatten(todo));
    case Dead(at) => FlightRemains(s, at);
    case _ =>
  }

  lemma SentStep(settings: Settings, s: System, d: int, a: Action, id: string)
    requires Inv(settings, s) && Enabled(settings, s, d, a)
    requires id in s.records && s.records[id].status.Sent?
    ensures var s' := After(settings, s, d, a); id in s'.records && s'.records[id] == s.records[id]
  {
    if a.Mark? {
      HolderItems(settings, s, d);
      assert s.dispatchers[d].items[0] in s.dispatchers[d].items;
    }
  }

  /** Once sent, a record never changes again in the run. */
  lemma {:induction false} SentIsTerminal(settings: Settings, run: seq<System>, i: nat, j: nat, id: string)
    requires Run(settings, run) && i <= j < |run|
    requires id in run[i].records && run[i].records[id].status.Sent?
    ensures id in run[j].records && run[j].records[id] == run[i].records[id]
    decreases j
  {
    hide Inv, Enabled, After;
    if i < j {
      SentIsTerminal(settings, run, i, j - 1, id);
      RunKeepsInv(settings, run, j - 1);
      assert Steps(settings, run[j - 1], run[j]);
      var d, a :| Enabled(settings, run[j - 1], d, a) && run[j] == After(settings, run[j - 1], d, a);
      SentStep(settings, run[j - 1], d, a, id);
    }
  }

  lemma {:induction false} SpacedFromFirst(tries: seq<Time>, k: nat)
    requires Spaced(tries) && |tries| <= MAX_ATTEMPTS && k < |tries|
    ensures tries[k] >= tries[0] + 60 * (Pow2(k) - 1) * SECOND
  {
    if k > 0 {
      SpacedFromFirst(tries, k - 1);
      CapNeverReached(k);
    }
  }

  /** The failed try number `k` comes at least 60 * (2^(k-1) - 1) seconds after the first. */
  lemma Backoff(settings: Settings, run: seq<System>, id: string, k: nat)
    requires Run(settings, run)
    requires var tries := TriesOf(run[|run| - 1], id); 1 <= k <= |tries|
    ensures var tries := TriesOf(run[|run| - 1], id);
      tries[k - 1] >= tries[0] + 60 * (Pow2(k - 1) - 1) * SECOND
  {
    var s := run[|run| - 1];
    RunKeepsInv(settings, run, |run| - 1);
    assert id in s.tries;
    SpacedFromFirst(TriesOf(s, id), k - 1);
  }
}
