/** The notification queue: one record per deduplication key, deliveries retried
    with exponential backoff, digests grouped by recipients, one lock file. */
module Notifications {
  import opened Text

  /** Clock readings and deadlines are in microseconds. */
  type Time = int
  const SECOND: Time := 1_000_000
  const MAX_ATTEMPTS: nat := 6

  datatype Status = Pending | Sent | Failed
  datatype Delivery = Immediate | Digest

  datatype Candidate = Candidate(key: string, delivery: Delivery, group: string)

  datatype Record = Record(
    key: string, delivery: Delivery, group: string,
    status: Status, attempts: nat, nextAttempt: Option<Time>)

  datatype Item = Item(id: string, record: Record)

  /** The mail settings, and how a record's file name follows from its key. */
  datatype Settings = Settings(idOf: string -> string, recipients: map<string, seq<string>>) {
    function Direct(group: string): seq<string> {
      if group in recipients then recipients[group] else []
    }

    function RecipientsFor(group: string): seq<string> {
      if Direct(group) != [] then Direct(group)
      else if group == "critical" then
        if Direct("action_required") != [] then Direct("action_required") else Direct("digest")
      else if group == "action_required" then Direct("digest")
      else []
    }
  }

  /** Somebody is named for the group. */
  predicate Listed(settings: Settings, group: string) {
    group in settings.recipients && settings.recipients[group] != []
  }

  /** Somebody is named for the group, or for one it falls back on: action_required
      and digest for critical, digest for action_required. */
  predicate Reached(settings: Settings, group: string) {
    || Listed(settings, group)
    || (group == "critical" && Listed(settings, "action_required"))
    || ((group == "critical" || group == "action_required") && Listed(settings, "digest"))
  }

  /** Mail goes to the group's own list; failing that, critical mail to the first
      nonempty one of action_required and digest, and action_required mail to
      digest; to nobody exactly when all these are empty or absent. */
  lemma RecipientsAre(settings: Settings, group: string)
    ensures var r, named := settings.RecipientsFor(group), settings.recipients;
      && (Listed(settings, group) ==> r == named[group])
      && (group == "critical" && !Listed(settings, group) && Listed(settings, "action_required") ==> r == named["action_required"])
      && (group == "critical" && !Listed(settings, group) && !Listed(settings, "action_required") && Listed(settings, "digest") ==>
            r == named["digest"])
      && (group == "action_required" && !Listed(settings, group) && Listed(settings, "digest") ==> r == named["digest"])
      && (r == [] <==> !Reached(settings, group))
  {
  }

  // ----------------------------------------------------------- record rules

  function Pow2(n: nat): nat { if n == 0 then 1 else 2 * Pow2(n - 1) }

  function Min(a: int, b: int): int { if a < b then a else b }

  /** Seconds to wait after the failed attempt number `attempts`. */
  function Delay(attempts: nat): nat {
    Min(3600, 60 * Pow2(if attempts == 0 then 0 else attempts - 1))
  }

  function Fresh(c: Candidate): Record {
    Record(c.key, c.delivery, c.group, Pending, 0, None)
  }

  function EnqueueOne(settings: Settings, records: map<string, Record>, c: Candidate): map<string, Record> {
    var id := settings.idOf(c.key);
    if id in records then records else records[id := Fresh(c)]
  }

  predicate Eligible(r: Record, now: Time) {
    && !r.status.Sent? && r.attempts < MAX_ATTEMPTS
    && (r.nextAttempt.None? || r.nextAttempt.value <= now)
  }

  function MarkedSent(r: Record): Record { r.(status := Sent) }

  function MarkedFailed(r: Record, now: Time): Record {
    r.(status := Failed, attempts := r.attempts + 1,
       nextAttempt := Some(now + Delay(r.attempts + 1) * SECOND))
  }

  /** The cap on the delay is never the shorter of the two. */
  lemma CapNeverReached(attempts: nat)
    requires 1 <= attempts <= MAX_ATTEMPTS
    ensures Delay(attempts) == 60 * Pow2(attempts - 1) <= 1920
  {
    assert Pow2(5) == 32 && Pow2(4) == 16 && Pow2(3) == 8 && Pow2(2) == 4 && Pow2(1) == 2;
  }

  // -------------------------------------------------------------- grouping

  function To(settings: Settings, item: Item): seq<string> {
    settings.RecipientsFor(item.record.group)
  }

  /** The items sent to `r`, in order. */
  function SentTo(settings: Settings, items: seq<Item>, r: seq<string>): seq<Item> {
    if items == [] then []
    else
      var n := |items| - 1;
      var before := SentTo(settings, items[..n], r);
      if To(settings, items[n]) == r then before + [items[n]] else before
  }

  /** The recipient lists that occur, in order of first occurrence. */
  function Addressees(settings: Settings, items: seq<Item>): seq<seq<string>> {
    if items == [] then []
    else
      var n := |items| - 1;
      var before, r := Addressees(settings, items[..n]), To(settings, items[n]);
      if r == [] || r in before then before else before + [r]
  }

  function DigestGroups(settings: Settings, items: seq<Item>): seq<seq<Item>> {
    var rs := Addressees(settings, items);
    seq(|rs|, k requires 0 <= k < |rs| => SentTo(settings, items, rs[k]))
  }

  function WithDelivery(items: seq<Item>, d: Delivery): seq<Item> {
    if items == [] then []
    else
      var n := |items| - 1;
      var before := WithDelivery(items[..n], d);
      if items[n].record.delivery == d then before + [items[n]] else before
  }

  function Singles(items: seq<Item>): seq<seq<Item>> {
    seq(|items|, k requires 0 <= k < |items| => [items[k]])
  }

  /** Everything one dispatch tries to send, group by group. */
  function Mailings(settings: Settings, pending: seq<Item>, includeDigest: bool): seq<seq<Item>> {
    Singles(WithDelivery(pending, Immediate)) +
    if includeDigest then DigestGroups(settings, WithDelivery(pending, Digest)) else []
  }

  function Flatten(groups: seq<seq<Item>>): seq<Item> {
    if groups == [] then [] else groups[0] + Flatten(groups[1..])
  }

  lemma {:induction false} SentToMembers(settings: Settings, items: seq<Item>, r: seq<string>, item: Item)
    ensures item in SentTo(settings, items, r) <==> item in items && To(settings, item) == r
  {
    if items != [] {
      var n := |items| - 1;
      SentToMembers(settings, items[..n], r, item);
      assert items == items[..n] + [items[n]];
    }
  }

  lemma {:induction false} AddresseesMembers(settings: Settings, items: seq<Item>, r: seq<string>)
    ensures r in Addressees(settings, items) <==> r != [] && exists item :: item in items && To(settings, item) == r
    ensures forall j, k :: 0 <= j < k < |Addressees(settings, items)| ==>
      Addressees(settings, items)[j] != Addressees(settings, items)[k]
  {
    if items != [] {
      var n := |items| - 1;
      AddresseesMembers(settings, items[..n], r);
      AddresseesMembers(settings, items[..n], To(settings, items[n]));
      assert items == items[..n] + [items[n]];
    }
  }

  /** Each digest item with recipients is in exactly one group, and every member
      of a group has the recipients of its first one, to whom the group is sent. */
  lemma DigestPartition(settings: Settings, items: seq<Item>, item: Item)
    requires item in items
    ensures var groups := DigestGroups(settings, items);
      && (To(settings, item) != [] ==> exists k :: 0 <= k < |groups| && item in groups[k])
      && (To(settings, item) == [] ==> forall k :: 0 <= k < |groups| ==> item !in groups[k])
      && (forall j, k :: 0 <= j < |groups| && 0 <= k < |groups| && item in groups[j] && item in groups[k] ==> j == k)
      && (forall k :: 0 <= k < |groups| && item in groups[k] ==> To(settings, item) == To(settings, groups[k][0]) != [])
  {
    var groups, rs := DigestGroups(settings, items), Addressees(settings, items);
    var r := To(settings, item);
    AddresseesMembers(settings, items, r);
    forall k | 0 <= k < |groups| ensures item in groups[k] <==> rs[k] == r {
      SentToMembers(settings, items, rs[k], item);
    }
    forall k | 0 <= k < |groups| && item in groups[k]
      ensures To(settings, item) == To(settings, groups[k][0]) != []
    {
      SentToMembers(settings, items, rs[k], groups[k][0]);
      AddresseesMembers(settings, items, rs[k]);
    }
    if r != [] {
      var k :| 0 <= k < |rs| && rs[k] == r;
      assert item in groups[k];
    }
  }

  // ------------------------------------------- a dispatch sends nothing twice

  ghost predicate Distinct(items: seq<Item>) {
    forall j, k :: 0 <= j < k < |items| ==> items[j].id != items[k].id
  }

  ghost predicate Apart(a: seq<Item>, b: seq<Item>) {
    forall x, y :: x in a && y in b ==> x.id != y.id
  }

  lemma {:induction false} FlattenMembers(groups: seq<seq<Item>>, item: Item)
    ensures item in Flatten(groups) <==> exists k :: 0 <= k < |groups| && item in groups[k]
  {
    if groups != [] {
      FlattenMembers(groups[1..], item);
      if item in Flatten(groups[1..]) {
        var k :| 0 <= k < |groups[1..]| && item in groups[1..][k];
        assert item in groups[k + 1];
      }
      if k :| 0 <= k < |groups| && item in groups[k] {
        assert k > 0 ==> item in groups[1..][k - 1];
      }
    }
  }

  lemma {:induction false} FlattenDistinct(groups: seq<seq<Item>>)
    requires forall k :: 0 <= k < |groups| ==> Distinct(groups[k])
    requires forall j, k :: 0 <= j < k < |groups| ==> Apart(groups[j], groups[k])
    ensures Distinct(Flatten(groups))
  {
    if groups != [] {
      FlattenDistinct(groups[1..]);
      forall x, y | x in groups[0] && y in Flatten(groups[1..]) ensures x.id != y.id {
        FlattenMembers(groups[1..], y);
        var k :| 0 <= k < |groups[1..]| && y in groups[1..][k];
        assert Apart(groups[0], groups[k + 1]);
      }
    }
  }

  lemma {:induction false} WithDeliveryMembers(items: seq<Item>, d: Delivery, item: Item)
    ensures item in WithDelivery(items, d) <==> item in items && item.record.delivery == d
  {
    if items != [] {
      WithDeliveryMembers(items[..|items| - 1], d, item);
      assert items == items[..|items| - 1] + [items[|items| - 1]];
    }
  }

  lemma {:induction false} WithDeliveryDistinct(items: seq<Item>, d: Delivery)
    requires Distinct(items)
    ensures Distinct(WithDelivery(items, d))
  {
    if items != [] {
      var n := |items| - 1;
      WithDeliveryDistinct(items[..n], d);
      forall x | x in WithDelivery(items[..n], d) ensures x.id != items[n].id {
        WithDeliveryMembers(items[..n], d, x);
      }
    }
  }

  lemma {:induction false} SentToDistinct(settings: Settings, items: seq<Item>, r: seq<string>)
    requires Distinct(items)
    ensures Distinct(SentTo(settings, items, r))
  {
    if items != [] {
      var n := |items| - 1;
      SentToDistinct(settings, items[..n], r);
      forall x | x in SentTo(settings, items[..n], r) ensures x.id != items[n].id {
        SentToMembers(settings, items[..n], r, x);
      }
    }
  }

  lemma DigestGroupsApart(settings: Settings, items: seq<Item>)
    requires Distinct(items)
    ensures var groups := DigestGroups(settings, items);
      && (forall k :: 0 <= k < |groups| ==> Distinct(groups[k]))
      && (forall j, k :: 0 <= j < k < |groups| ==> Apart(groups[j], groups[k]))
      && (forall k, x :: 0 <= k < |groups| && x in groups[k] ==> x in items)
  {
    var groups, rs := DigestGroups(settings, items), Addressees(settings, items);
    forall k | 0 <= k < |groups| ensures Distinct(groups[k]) {
      SentToDistinct(settings, items, rs[k]);
    }
    forall k, x | 0 <= k < |groups| && x in groups[k] ensures x in items && To(settings, x) == rs[k] {
      SentToMembers(settings, items, rs[k], x);
    }
    AddresseesMembers(settings, items, []);
    forall j, k | 0 <= j < k < |groups| ensures Apart(groups[j], groups[k]) {
      forall x: Item, y: Item | x in groups[j] && y in groups[k] ensures x.id != y.id {
        assert To(settings, x) != To(settings, y);
      }
    }
  }

  /** The mailings of a dispatch are of distinct pending records, and apart. */
  lemma MailingsApartAll(settings: Settings, pending: seq<Item>, includeDigest: bool)
    requires Distinct(pending)
    ensures var all := Mailings(settings, pending, includeDigest);
      && (forall k :: 0 <= k < |all| ==> Distinct(all[k]))
      && (forall j, k :: 0 <= j < k < |all| ==> Apart(all[j], all[k]))
      && (forall k, x :: 0 <= k < |all| && x in all[k] ==> x in pending)
  {
    var now, later := WithDelivery(pending, Immediate), WithDelivery(pending, Digest);
    var singles, groups := Singles(now), DigestGroups(settings, later);
    var all := Mailings(settings, pending, includeDigest);
    WithDeliveryDistinct(pending, Immediate);
    WithDeliveryDistinct(pending, Digest);
    DigestGroupsApart(settings, later);
    forall k, x | 0 <= k < |all| && x in all[k]
      ensures x in pending && (k < |singles| <==> x.record.delivery == Immediate)
    {
      WithDeliveryMembers(pending, Immediate, x);
      WithDeliveryMembers(pending, Digest, x);
      if k < |singles| { assert all[k] == [now[k]]; } else { assert all[k] == groups[k - |singles|]; }
    }
    forall k | 0 <= k < |all| ensures Distinct(all[k]) {
      if k < |singles| { assert all[k] == [now[k]]; } else { assert all[k] == groups[k - |singles|]; }
    }
    hide *;
    forall j, k | 0 <= j < k < |all| ensures Apart(all[j], all[k]) {
      MailingsApart(pending, now, groups, all, j, k);
    }
  }

  /** No record is in two mailings of one dispatch, or twice in one. */
  lemma MailingsDistinct(settings: Settings, pending: seq<Item>, includeDigest: bool)
    requires Distinct(pending)
    ensures var all := Flatten(Mailings(settings, pending, includeDigest));
      Distinct(all) && forall x :: x in all ==> x in pending
  {
    hide *;
    var all := Mailings(settings, pending, includeDigest);
    MailingsApartAll(settings, pending, includeDigest);
    FlattenDistinct(all);
    forall x | x in Flatten(all) ensures x in pending {
      FlattenMembers(all, x);
    }
  }

  lemma MailingsApart(pending: seq<Item>, now: seq<Item>, groups: seq<seq<Item>>, all: seq<seq<Item>>, j: nat, k: nat)
    requires Distinct(pending) && Distinct(now) && j < k < |all| && |now| <= |all|
    requires forall i, x :: 0 <= i < |all| && x in all[i] ==>
      x in pending && (i < |now| <==> x.record.delivery == Immediate)
    requires forall i :: 0 <= i < |now| ==> all[i] == [now[i]]
    requires all[|now|..] == groups || all[|now|..] == []
    requires forall a, b :: 0 <= a < b < |groups| ==> Apart(groups[a], groups[b])
    ensures Apart(all[j], all[k])
  {
    if |now| <= j {
      assert all[j] == all[|now|..][j - |now|] && all[k] == all[|now|..][k - |now|];
    }
  }

  /** What a scan of the queue directory may return: every eligible record, once. */
  ghost predicate Scan(records: map<string, Record>, now: Time, pending: seq<Item>) {
    && Distinct(pending)
    && (forall x :: x in pending ==> x.id in records && records[x.id] == x.record && Eligible(x.record, now))
    && (forall id :: id in records && Eligible(records[id], now) ==> Item(id, records[id]) in pending)
  }

  // ------------------------------------------------------- the queue itself

  function EnqueueAll(settings: Settings, records: map<string, Record>, cs: seq<Candidate>): map<string, Record> {
    if cs == [] then records
    else EnqueueOne(settings, EnqueueAll(settings, records, cs[..|cs| - 1]), cs[|cs| - 1])
  }

  function MarkOne(records: map<string, Record>, item: Item, ok: bool, now: Time): map<string, Record> {
    records[item.id := if ok then MarkedSent(item.record) else MarkedFailed(item.record, now)]
  }

  function MarkAll(records: map<string, Record>, items: seq<Item>, ok: bool, now: Time): map<string, Record> {
    if items == [] then records
    else MarkOne(MarkAll(records, items[..|items| - 1], ok, now), items[|items| - 1], ok, now)
  }

  /** Mails the groups in turn; a group nobody receives is left alone. */
  function MailAll(settings: Settings, records: map<string, Record>, groups: seq<seq<Item>>,
      ok: nat -> bool, now: Time): map<string, Record>
  {
    if groups == [] then records
    else
      var n := |groups| - 1;
      var before := MailAll(settings, records, groups[..n], ok, now);
      if groups[n] == [] || To(settings, groups[n][0]) == [] then before
      else MarkAll(before, groups[n], ok(n), now)
  }

  lemma {:induction false} MarkAllOutcome(records: map<string, Record>, items: seq<Item>, ok: bool, now: Time, id: string)
    requires Distinct(items)
    ensures var after := MarkAll(records, items, ok, now);
      && (forall x :: x in items && x.id == id ==>
            id in after && after[id] == if ok then MarkedSent(x.record) else MarkedFailed(x.record, now))
      && ((forall x :: x in items ==> x.id != id) ==>
            (id in after <==> id in records) && (id in records ==> after[id] == records[id]))
  {
    if items != [] {
      var n := |items| - 1;
      MarkAllOutcome(records, items[..n], ok, now, id);
      assert items == items[..n] + [items[n]];
    }
  }

  // ------------------------------------------------ what becomes of a record

  /** The queue holds what it held, and each new key once, as first asked for. */
  ghost predicate Queued(settings: Settings, before: map<string, Record>, cs: seq<Candidate>, after: map<string, Record>) {
    && (forall id :: id in after <==> id in before || exists c :: c in cs && settings.idOf(c.key) == id)
    && (forall id :: id in before ==> after[id] == before[id])
    && (forall i :: 0 <= i < |cs| && settings.idOf(cs[i].key) !in before && FirstOf(settings, cs, i) ==>
          after[settings.idOf(cs[i].key)] == Record(cs[i].key, cs[i].delivery, cs[i].group, Pending, 0, None))
  }

  predicate FirstOf(settings: Settings, cs: seq<Candidate>, i: nat)
    requires i < |cs|
  {
    forall j :: 0 <= j < i ==> settings.idOf(cs[j].key) != settings.idOf(cs[i].key)
  }

  lemma {:induction false} EnqueueAllQueues(settings: Settings, records: map<string, Record>, cs: seq<Candidate>)
    ensures Queued(settings, records, cs, EnqueueAll(settings, records, cs))
  {
    if cs != [] {
      var n := |cs| - 1;
      EnqueueAllQueues(settings, records, cs[..n]);
      QueuedMore(settings, records, cs, EnqueueAll(settings, records, cs[..n]));
    }
  }

  lemma QueuedMore(settings: Settings, before: map<string, Record>, cs: seq<Candidate>, mid: map<string, Record>)
    requires cs != [] && Queued(settings, before, cs[..|cs| - 1], mid)
    ensures Queued(settings, before, cs, EnqueueOne(settings, mid, cs[|cs| - 1]))
  {
    var n := |cs| - 1;
    assert cs == cs[..n] + [cs[n]];
    FirstMore(settings, before, cs, mid);
    hide FirstOf;
    forall i | 0 <= i < |cs| && settings.idOf(cs[i].key) !in before && FirstOf(settings, cs, i)
      ensures EnqueueOne(settings, mid, cs[n])[settings.idOf(cs[i].key)] == Record(cs[i].key, cs[i].delivery, cs[i].group, Pending, 0, None)
    {
      if i < n { assert cs[..n][i] == cs[i] && cs[i] in cs[..n]; }
    }
  }

  lemma FirstMore(settings: Settings, before: map<string, Record>, cs: seq<Candidate>, mid: map<string, Record>)
    requires cs != [] && Queued(settings, before, cs[..|cs| - 1], mid)
    ensures var n := |cs| - 1;
      && (forall i :: 0 <= i < n ==> (FirstOf(settings, cs[..n], i) <==> FirstOf(settings, cs, i)))
      && (FirstOf(settings, cs, n) && settings.idOf(cs[n].key) !in before ==> settings.idOf(cs[n].key) !in mid)
  {
    var n := |cs| - 1;
    forall i | 0 <= i < n ensures FirstOf(settings, cs[..n], i) <==> FirstOf(settings, cs, i) {
      assert forall j :: 0 <= j <= i ==> cs[..n][j] == cs[j];
    }
    if FirstOf(settings, cs, n) {
      forall c | c in cs[..n] ensures settings.idOf(c.key) != settings.idOf(cs[n].key) {
        var j :| 0 <= j < n && cs[..n][j] == c;
        assert cs[j] == c;
      }
    }
  }

  /** It is unsent, under the limit, its time has come, somebody is to get it, and
      it is not a digest item kept for later. */
  predicate Tried(settings: Settings, r: Record, includeDigest: bool, now: Time) {
    && !r.status.Sent? && r.attempts < 6 && (r.nextAttempt.Some? ==> r.nextAttempt.value <= now)
    && Reached(settings, r.group) && (r.delivery.Immediate? || includeDigest)
  }

  predicate WentOut(was: Record, now: Record) { now == was.(status := Sent) }

  /** Refused: one attempt more, and the next one after 60 * 2^attempts seconds. */
  predicate WasRefused(was: Record, r: Record, now: Time) {
    r == was.(status := Failed, attempts := was.attempts + 1, nextAttempt := Some(now + 60 * Pow2(was.attempts) * SECOND))
  }

  /** What one dispatch makes of a queued record. */
  ghost predicate Dispatched(settings: Settings, was: Record, r: Record, includeDigest: bool, ok: nat -> bool, now: Time) {
    if !Tried(settings, was, includeDigest, now) then r == was
    else
      && (WentOut(was, r) || WasRefused(was, r, now))
      && ((forall k :: ok(k)) ==> WentOut(was, r))
      && ((forall k :: !ok(k)) ==> WasRefused(was, r, now))
  }

  ghost predicate AllDispatched(settings: Settings, queue: map<string, Record>, after: map<string, Record>,
      includeDigest: bool, ok: nat -> bool, now: Time)
  {
    && after.Keys == queue.Keys
    && forall id :: id in queue ==> Dispatched(settings, queue[id], after[id], includeDigest, ok, now)
  }

  function IdsIn(queue: map<string, Record>, after: map<string, Record>, status: Status): set<string> {
    set id | id in queue && id in after && after[id] != queue[id] && after[id].status == status
  }

  /** Every group is of distinct records, apart from the others, and goes to the
      recipients of each of its records. */
  ghost predicate Grouped(settings: Settings, groups: seq<seq<Item>>) {
    && (forall k :: 0 <= k < |groups| ==> groups[k] != [] && Distinct(groups[k]))
    && (forall j, k :: 0 <= j < k < |groups| ==> Apart(groups[j], groups[k]))
    && (forall k, x :: 0 <= k < |groups| && x in groups[k] ==> To(settings, x) == To(settings, groups[k][0]))
  }

  /** A mailed record is marked as its mail went. */
  lemma {:induction false} MailAllMarks(settings: Settings, records: map<string, Record>, groups: seq<seq<Item>>,
      ok: nat -> bool, now: Time, k: nat, x: Item)
    requires Grouped(settings, groups) && k < |groups| && x in groups[k] && To(settings, x) != []
    ensures var after := MailAll(settings, records, groups, ok, now);
      x.id in after && after[x.id] == if ok(k) then MarkedSent(x.record) else MarkedFailed(x.record, now)
  {
    hide To, MarkedSent, MarkedFailed, Distinct;
    var n := |groups| - 1;
    var before := MailAll(settings, records, groups[..n], ok, now);
    MarkAllOutcome(before, groups[n], ok(n), now, x.id);
    if k < n {
      GroupedFewer(settings, groups);
      MailAllMarks(settings, records, groups[..n], ok, now, k, x);
      assert Apart(groups[k], groups[n]);
    }
  }

  /** Every other record is left alone. */
  lemma {:induction false} MailAllSpares(settings: Settings, records: map<string, Record>, groups: seq<seq<Item>>,
      ok: nat -> bool, now: Time, id: string)
    requires Grouped(settings, groups)
    requires forall k, x :: 0 <= k < |groups| && x in groups[k] && x.id == id ==> To(settings, x) == []
    ensures var after := MailAll(settings, records, groups, ok, now);
      (id in after <==> id in records) && (id in records ==> after[id] == records[id])
  {
    hide To, MarkedSent, MarkedFailed, Distinct, Apart, MarkAll;
    if groups != [] {
      var n := |groups| - 1;
      GroupedFewer(settings, groups);
      assert forall k :: 0 <= k < n ==> groups[..n][k] == groups[k];
      MailAllSpares(settings, records, groups[..n], ok, now, id);
      var before := MailAll(settings, records, groups[..n], ok, now);
      MarkAllOutcome(before, groups[n], ok(n), now, id);
    }
  }

  lemma GroupedFewer(settings: Settings, groups: seq<seq<Item>>)
    requires groups != [] && Grouped(settings, groups)
    ensures Grouped(settings, groups[..|groups| - 1])
    ensures groups[|groups| - 1] != [] && Distinct(groups[|groups| - 1])
  {
    hide To, Distinct, Apart;
  }

  /** The mailings of a dispatch are such groups, of pending records only. */
  lemma MailingsGrouped(settings: Settings, pending: seq<Item>, includeDigest: bool)
    requires Distinct(pending)
    ensures Grouped(settings, Mailings(settings, pending, includeDigest))
    ensures forall k, x :: 0 <= k < |Mailings(settings, pending, includeDigest)| && x in Mailings(settings, pending, includeDigest)[k] ==>
      x in pending
  {
    var all := Mailings(settings, pending, includeDigest);
    MailingsApartAll(settings, pending, includeDigest);
    var now, later := WithDelivery(pending, Immediate), WithDelivery(pending, Digest);
    var groups := DigestGroups(settings, later);
    forall k | 0 <= k < |all| ensures all[k] != [] && forall x :: x in all[k] ==> To(settings, x) == To(settings, all[k][0]) {
      if k < |now| {
        assert all[k] == [now[k]];
      } else {
        assert all[k] == groups[k - |now|];
        DigestGroupAddressed(settings, later, k - |now|);
      }
    }
  }

  lemma DigestGroupAddressed(settings: Settings, items: seq<Item>, k: nat)
    requires k < |DigestGroups(settings, items)|
    ensures var group := DigestGroups(settings, items)[k];
      group != [] && forall x :: x in group ==> To(settings, x) == To(settings, group[0])
  {
    var rs := Addressees(settings, items);
    AddresseesMembers(settings, items, rs[k]);
    var item :| item in items && To(settings, item) == rs[k];
    forall x ensures x in SentTo(settings, items, rs[k]) <==> x in items && To(settings, x) == rs[k] {
      SentToMembers(settings, items, rs[k], x);
    }
  }

  /** Where a pending record is mailed: an immediate one alone, a digest one with
      those of its recipients if digests go out and it has any. */
  lemma MailedWhere(settings: Settings, pending: seq<Item>, includeDigest: bool, x: Item)
    requires x in pending
    ensures var all := Mailings(settings, pending, includeDigest);
      && (x.record.delivery.Immediate? || (includeDigest && To(settings, x) != []) ==>
            exists k :: 0 <= k < |all| && x in all[k])
      && (x.record.delivery.Digest? && !includeDigest ==> forall k :: 0 <= k < |all| ==> x !in all[k])
  {
    var all := Mailings(settings, pending, includeDigest);
    var now, later := WithDelivery(pending, Immediate), WithDelivery(pending, Digest);
    WithDeliveryMembers(pending, Immediate, x);
    WithDeliveryMembers(pending, Digest, x);
    if x.record.delivery.Immediate? {
      var k :| 0 <= k < |now| && now[k] == x;
      assert all[k] == [x];
    } else if includeDigest && To(settings, x) != [] {
      DigestPartition(settings, later, x);
      var k :| 0 <= k < |DigestGroups(settings, later)| && x in DigestGroups(settings, later)[k];
      assert all[|now| + k] == DigestGroups(settings, later)[k];
    } else {
      assert !includeDigest ==> forall k :: 0 <= k < |all| ==> all[k] == [now[k]];
    }
  }

  function IdSet(items: seq<Item>): set<string> {
    if items == [] then {} else IdSet(items[..|items| - 1]) + {items[|items| - 1].id}
  }

  lemma {:induction false} IdSetMembers(items: seq<Item>, id: string)
    ensures id in IdSet(items) <==> exists x :: x in items && x.id == id
  {
    if items != [] {
      IdSetMembers(items[..|items| - 1], id);
      assert items == items[..|items| - 1] + [items[|items| - 1]];
    }
  }

  lemma {:induction false} IdSetCounts(items: seq<Item>)
    requires Distinct(items)
    ensures |IdSet(items)| == |items|
  {
    if items != [] {
      var n := |items| - 1;
      IdSetCounts(items[..n]);
      IdSetMembers(items[..n], items[n].id);
      assert forall x :: x in items[..n] ==> x.id != items[n].id;
    }
  }

  /** The ids in the mails that went this way. */
  function MailedIds(settings: Settings, groups: seq<seq<Item>>, ok: nat -> bool, went: bool): set<string> {
    if groups == [] then {}
    else
      var n := |groups| - 1;
      MailedIds(settings, groups[..n], ok, went) +
      if groups[n] == [] || To(settings, groups[n][0]) == [] || ok(n) != went then {} else IdSet(groups[n])
  }

  ghost predicate MailedIn(settings: Settings, groups: seq<seq<Item>>, ok: nat -> bool, went: bool, k: nat, id: string) {
    k < |groups| && groups[k] != [] && To(settings, groups[k][0]) != [] && ok(k) == went && id in IdSet(groups[k])
  }

  lemma {:induction false} MailedIdsAre(settings: Settings, groups: seq<seq<Item>>, ok: nat -> bool, went: bool, id: string)
    ensures id in MailedIds(settings, groups, ok, went) <==> exists k :: MailedIn(settings, groups, ok, went, k, id)
  {
    hide To, IdSet;
    if groups != [] {
      var n := |groups| - 1;
      MailedIdsAre(settings, groups[..n], ok, went, id);
      forall k: nat | k < n
        ensures MailedIn(settings, groups[..n], ok, went, k, id) <==> MailedIn(settings, groups, ok, went, k, id)
      {
        assert groups[..n][k] == groups[k];
      }
      if id in MailedIds(settings, groups, ok, went) && !(exists k :: MailedIn(settings, groups[..n], ok, went, k, id)) {
        assert MailedIn(settings, groups, ok, went, n, id);
      }
    }
  }

  lemma {:induction false} MailedCounts(settings: Settings, groups: seq<seq<Item>>, ok: nat -> bool, went: bool)
    requires Grouped(settings, groups)
    ensures |MailedIds(settings, groups, ok, went)| == Mailed(settings, groups, ok, went)
  {
    hide To, Distinct, IdSet;
    if groups != [] {
      var n := |groups| - 1;
      GroupedFewer(settings, groups);
      MailedCounts(settings, groups[..n], ok, went);
      IdSetCounts(groups[n]);
      MailedBefore(settings, groups, ok, went);
    }
  }

  lemma MailedBefore(settings: Settings, groups: seq<seq<Item>>, ok: nat -> bool, went: bool)
    requires groups != [] && Grouped(settings, groups)
    ensures MailedIds(settings, groups[..|groups| - 1], ok, went) !! IdSet(groups[|groups| - 1])
  {
    hide To, Distinct, IdSet, MailedIds;
    var n := |groups| - 1;
    forall id | id in MailedIds(settings, groups[..n], ok, went) ensures id !in IdSet(groups[n]) {
      MailedIdsAre(settings, groups[..n], ok, went, id);
      var k: nat :| MailedIn(settings, groups[..n], ok, went, k, id);
      IdSetMembers(groups[k], id);
      IdSetMembers(groups[n], id);
      assert Apart(groups[k], groups[n]);
    }
  }

  // ------------------------------------------------------ one whole dispatch

  /** A mailed record is one tried, and the other way round. */
  lemma TriedIsMailed(settings: Settings, queue: map<string, Record>, pending: seq<Item>, includeDigest: bool, now: Time, id: string)
    requires Scan(queue, now, pending) && id in queue
    ensures var all, x := Mailings(settings, pending, includeDigest), Item(id, queue[id]);
      && (Tried(settings, queue[id], includeDigest, now) ==>
            To(settings, x) != [] && exists k :: 0 <= k < |all| && x in all[k])
      && (forall k, y :: 0 <= k < |all| && y in all[k] && y.id == id && To(settings, y) != [] ==>
            y == x && Tried(settings, queue[id], includeDigest, now))
  {
    hide Mailings, Settings.RecipientsFor, Reached, Distinct;
    var all, x := Mailings(settings, pending, includeDigest), Item(id, queue[id]);
    RecipientsAre(settings, queue[id].group);
    ScanDistinct(queue, now, pending);
    MailingsGrouped(settings, pending, includeDigest);
    if Tried(settings, queue[id], includeDigest, now) {
      assert x in pending;
      MailedWhere(settings, pending, includeDigest, x);
    }
    forall k, y: Item | 0 <= k < |all| && y in all[k] && y.id == id && To(settings, y) != []
      ensures y == x && Tried(settings, queue[id], includeDigest, now)
    {
      assert y in pending;
      MailedWhere(settings, pending, includeDigest, y);
    }
  }

  lemma ScanDistinct(queue: map<string, Record>, now: Time, pending: seq<Item>)
    requires Scan(queue, now, pending)
    ensures Distinct(pending)
  {
  }

  /** What marking means for the fields. */
  lemma MarkedFields(r: Record, now: Time)
    requires r.attempts < 6 && !r.status.Sent?
    ensures WentOut(r, MarkedSent(r)) && WasRefused(r, MarkedFailed(r, now), now)
    ensures MarkedSent(r) != r && MarkedFailed(r, now) != r && MarkedSent(r).status.Sent? && MarkedFailed(r, now).status.Failed?
  {
    CapNeverReached(r.attempts + 1);
  }

  lemma DispatchedAt(settings: Settings, queue: map<string, Record>, pending: seq<Item>, includeDigest: bool,
      ok: nat -> bool, now: Time, id: string)
    requires Scan(queue, now, pending)
    ensures var all := Mailings(settings, pending, includeDigest);
      var after := MailAll(settings, queue, all, ok, now);
      && (id in after <==> id in queue)
      && (id in queue ==> Dispatched(settings, queue[id], after[id], includeDigest, ok, now))
      && (id in MailedIds(settings, all, ok, true) <==> id in queue && after[id] != queue[id] && after[id].status.Sent?)
      && (id in MailedIds(settings, all, ok, false) <==> id in queue && after[id] != queue[id] && after[id].status.Failed?)
  {
    hide Mailings, MailAll, To, Reached, MailedIds, MarkedSent, MarkedFailed, WentOut, WasRefused, Distinct, IdSet;
    var all := Mailings(settings, pending, includeDigest);
    ScanDistinct(queue, now, pending);
    MailingsGrouped(settings, pending, includeDigest);
    MailedIdsAre(settings, all, ok, true, id);
    MailedIdsAre(settings, all, ok, false, id);
    if id in queue {
      TriedIsMailed(settings, queue, pending, includeDigest, now, id);
      var x := Item(id, queue[id]);
      if Tried(settings, queue[id], includeDigest, now) {
        var k :| 0 <= k < |all| && x in all[k];
        MailAllMarks(settings, queue, all, ok, now, k, x);
        MarkedFields(queue[id], now);
        OnlyMail(settings, all, ok, k, x);
        assert MailedIn(settings, all, ok, ok(k), k, id);
      } else {
        MailAllSpares(settings, queue, all, ok, now, id);
        NoMail(settings, all, ok, id);
      }
    } else {
      forall k, y: Item | 0 <= k < |all| && y in all[k] ensures y.id != id { assert y in pending; }
      MailAllSpares(settings, queue, all, ok, now, id);
      NoMail(settings, all, ok, id);
    }
  }

  lemma OnlyMail(settings: Settings, all: seq<seq<Item>>, ok: nat -> bool, k: nat, x: Item)
    requires Grouped(settings, all) && k < |all| && x in all[k] && To(settings, x) != []
    ensures forall went, j: nat :: MailedIn(settings, all, ok, went, j, x.id) <==> j == k && ok(k) == went
  {
    hide To, Distinct, IdSet;
    forall went, j: nat ensures MailedIn(settings, all, ok, went, j, x.id) <==> j == k && ok(k) == went {
      IdSetMembers(all[k], x.id);
      assert To(settings, x) == To(settings, all[k][0]) && all[k] != [];
      if j != k && j < |all| {
        IdSetMembers(all[j], x.id);
        assert if j < k then Apart(all[j], all[k]) else Apart(all[k], all[j]);
      }
    }
  }

  lemma NoMail(settings: Settings, all: seq<seq<Item>>, ok: nat -> bool, id: string)
    requires Grouped(settings, all)
    requires forall k, y :: 0 <= k < |all| && y in all[k] && y.id == id ==> To(settings, y) == []
    ensures forall went, j: nat :: !MailedIn(settings, all, ok, went, j, id)
  {
    hide To, Distinct, IdSet;
    forall went, j: nat ensures !MailedIn(settings, all, ok, went, j, id) {
      if j < |all| {
        IdSetMembers(all[j], id);
        assert forall y :: y in all[j] ==> To(settings, y) == To(settings, all[j][0]);
      }
    }
  }

  /** Record by record and in numbers: what one dispatch does to the queue. */
  lemma DispatchMeans(settings: Settings, queue: map<string, Record>, pending: seq<Item>, includeDigest: bool,
      ok: nat -> bool, now: Time)
    requires Scan(queue, now, pending)
    ensures var all := Mailings(settings, pending, includeDigest);
      var after := MailAll(settings, queue, all, ok, now);
      && AllDispatched(settings, queue, after, includeDigest, ok, now)
      && Mailed(settings, all, ok, true) == |IdsIn(queue, after, Sent)|
      && Mailed(settings, all, ok, false) == |IdsIn(queue, after, Failed)|
  {
    hide Mailings, MailAll, MailedIds, Dispatched, Grouped, Scan, Mailed;
    var all := Mailings(settings, pending, includeDigest);
    var after := MailAll(settings, queue, all, ok, now);
    forall id
      ensures id in after <==> id in queue
      ensures id in queue ==> Dispatched(settings, queue[id], after[id], includeDigest, ok, now)
      ensures id in MailedIds(settings, all, ok, true) <==> id in IdsIn(queue, after, Sent)
      ensures id in MailedIds(settings, all, ok, false) <==> id in IdsIn(queue, after, Failed)
    {
      DispatchedAt(settings, queue, pending, includeDigest, ok, now, id);
    }
    ScanDistinct(queue, now, pending);
    MailingsGrouped(settings, pending, includeDigest);
    MailedCounts(settings, all, ok, true);
    MailedCounts(settings, all, ok, false);
    assert MailedIds(settings, all, ok, true) == IdsIn(queue, after, Sent);
    assert MailedIds(settings, all, ok, false) == IdsIn(queue, after, Failed);
  }

  class NotificationQueue {
    var records: map<string, Record>
    const settings: Settings

    constructor (settings: Settings)
      ensures this.settings == settings && records == map[]
    {
      this.settings := settings;
      records := map[];
    }

    /** Records the candidates that are new; `created` is how many were. */
    method Enqueue(candidates: seq<Candidate>) returns (created: nat)
      modifies this
      ensures records == EnqueueAll(settings, old(records), candidates)
      ensures Queued(settings, old(records), candidates, records)
      ensures created == |records| - |old(records)|
    {
      hide Queued;
      EnqueueAllQueues(settings, records, candidates);
      created := 0;
      for i := 0 to |candidates|
        invariant records == EnqueueAll(settings, old(records), candidates[..i])
        invariant created == |records| - |old(records)|
      {
        assert candidates[..i + 1][..i] == candidates[..i];
        var id := settings.idOf(candidates[i].key);
        if id !in records {
          records := records[id := Fresh(candidates[i])];
          created := created + 1;
        }
      }
      assert candidates[..|candidates|] == candidates;
    }

    /** The records that may be tried now, in some order. */
    method PendingRecords(now: Time) returns (pending: seq<Item>)
      ensures Scan(records, now, pending)
    {
      pending := [];
      var left := records.Keys;
      while left != {}
        invariant left <= records.Keys && Distinct(pending)
        invariant forall x :: x in pending ==>
          x.id in records && x.id !in left && records[x.id] == x.record && Eligible(x.record, now)
        invariant forall id :: id in records.Keys - left && Eligible(records[id], now) ==>
          Item(id, records[id]) in pending
      {
        var id :| id in left;
        left := left - {id};
        if Eligible(records[id], now) {
          pending := pending + [Item(id, records[id])];
        }
      }
    }

    method Mark(items: seq<Item>, ok: bool, now: Time)
      modifies this
      ensures records == MarkAll(old(records), items, ok, now)
    {
      for i := 0 to |items|
        invariant records == MarkAll(old(records), items[..i], ok, now)
      {
        assert items[..i + 1][..i] == items[..i];
        if ok {
          records := records[items[i].id := MarkedSent(items[i].record)];
        } else {
          records := records[items[i].id := MarkedFailed(items[i].record, now)];
        }
      }
      assert items[..|items|] == items;
    }

    /** Groups digest items by the recipients they resolve to, in order of first use. */
    method GroupByRecipients(items: seq<Item>) returns (groups: seq<seq<Item>>)
      ensures groups == DigestGroups(settings, items)
    {
      hide Settings.RecipientsFor, Addressees, SentTo, DigestGroups;
      NobodyFirst(settings);
      assert items[..0] == [];
      var order: seq<seq<string>> := [];
      var members: map<seq<string>, seq<Item>> := map[];
      for i := 0 to |items|
        invariant order == Addressees(settings, items[..i])
        invariant [] !in order && forall r :: r in members <==> r in order
        invariant forall r :: r in members ==> members[r] == SentTo(settings, items[..i], r)
      {
        NextItem(settings, items, i);
        var r := settings.RecipientsFor(items[i].record.group);
        if r != [] {
          if r !in members {
            NobodyYet(settings, items[..i], r);
            order := order + [r];
            members := members[r := []];
          }
          members := members[r := members[r] + [items[i]]];
        }
      }
      assert items[..|items|] == items;
      GroupsAre(settings, items);
      groups := seq(|order|, k requires 0 <= k < |order| && order[k] in members => members[order[k]]);
    }

    /** Mails the groups one after the other; `ok(k)` tells whether the transport
        takes mail number `k`. */
    method SendAll(groups: seq<seq<Item>>, ok: nat -> bool, now: Time) returns (sent: nat, failed: nat)
      modifies this
      ensures records == MailAll(settings, old(records), groups, ok, now)
      ensures sent == Mailed(settings, groups, ok, true) && failed == Mailed(settings, groups, ok, false)
    {
      sent, failed := 0, 0;
      for k := 0 to |groups|
        invariant records == MailAll(settings, old(records), groups[..k], ok, now)
        invariant sent == Mailed(settings, groups[..k], ok, true) && failed == Mailed(settings, groups[..k], ok, false)
      {
        assert groups[..k + 1][..k] == groups[..k];
        if groups[k] != [] && settings.RecipientsFor(groups[k][0].record.group) != [] {
          Mark(groups[k], ok(k), now);
          if ok(k) { sent := sent + |groups[k]|; } else { failed := failed + |groups[k]|; }
        }
      }
      assert groups[..|groups|] == groups;
    }

    /** One dispatch under the lock: queue what is new, then mail what is due. */
    method Dispatch(candidates: seq<Candidate>, includeDigest: bool, ok: nat -> bool, now: Time)
        returns (ghost pending: seq<Item>, queued: nat, sent: nat, failed: nat)
      modifies this
      ensures var queue := EnqueueAll(settings, old(records), candidates);
        && Scan(queue, now, pending) && queued == |queue| - |old(records)|
        && var mailings := Mailings(settings, pending, includeDigest);
          records == MailAll(settings, queue, mailings, ok, now)
          && sent == Mailed(settings, mailings, ok, true) && failed == Mailed(settings, mailings, ok, false)
      ensures exists queue ::
        && Queued(settings, old(records), candidates, queue) && AllDispatched(settings, queue, records, includeDigest, ok, now)
        && sent == |IdsIn(queue, records, Sent)| && failed == |IdsIn(queue, records, Failed)|
    {
      hide Queued, AllDispatched, IdsIn, Mailings, MailAll, Mailed;
      EnqueueAllQueues(settings, records, candidates);
      ghost var queue := EnqueueAll(settings, records, candidates);
      hide EnqueueAll;
      queued := Enqueue(candidates);
      var due := PendingRecords(now);
      pending := due;
      var groups := [];
      if includeDigest {
        groups := GroupByRecipients(WithDelivery(due, Digest));
      }
      SplitMailings(settings, due, includeDigest);
      sent, failed := SendAll(Singles(WithDelivery(due, Immediate)) + groups, ok, now);
      DispatchMeans(settings, queue, pending, includeDigest, ok, now);
    }
  }

  lemma SplitMailings(settings: Settings, pending: seq<Item>, includeDigest: bool)
    ensures Mailings(settings, pending, includeDigest) ==
      Singles(WithDelivery(pending, Immediate)) + if includeDigest then DigestGroups(settings, WithDelivery(pending, Digest)) else []
  {
  }

  lemma NobodyFirst(settings: Settings)
    ensures Addressees(settings, []) == []
  {
  }

  lemma GroupsAre(settings: Settings, items: seq<Item>)
    ensures var rs, groups := Addressees(settings, items), DigestGroups(settings, items);
      |groups| == |rs| && forall k :: 0 <= k < |rs| ==> groups[k] == SentTo(settings, items, rs[k])
  {
  }

  lemma NextItem(settings: Settings, items: seq<Item>, i: nat)
    requires i < |items|
    ensures var r := To(settings, items[i]); var before := Addressees(settings, items[..i]);
      Addressees(settings, items[..i + 1]) == if r == [] || r in before then before else before + [r]
    ensures forall r :: To(settings, items[i]) == r ==>
      SentTo(settings, items[..i + 1], r) == SentTo(settings, items[..i], r) + [items[i]]
    ensures forall r :: To(settings, items[i]) != r ==>
      SentTo(settings, items[..i + 1], r) == SentTo(settings, items[..i], r)
  {
    assert items[..i + 1][..i] == items[..i];
  }

  lemma {:induction false} NobodyYet(settings: Settings, items: seq<Item>, r: seq<string>)
    requires r != [] && r !in Addressees(settings, items)
    ensures SentTo(settings, items, r) == []
  {
    if items != [] { NobodyYet(settings, items[..|items| - 1], r); }
  }

  /** How many records are in mailings with recipients that went this way. */
  function Mailed(settings: Settings, groups: seq<seq<Item>>, ok: nat -> bool, went: bool): nat {
    if groups == [] then 0
    else
      var n := |groups| - 1;
      Mailed(settings, groups[..n], ok, went) +
      if groups[n] == [] || To(settings, groups[n][0]) == [] || ok(n) != went then 0 else |groups[n]|
  }
}
