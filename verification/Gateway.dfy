/** The command gateway: an exclusive project lock, a lookup by idempotency key,
    authorization, the handler, its transaction, and the stored receipt. */
module Gateway {
  import opened Text

  /** An accepted envelope: its own id, its idempotency key, the fingerprint of
      everything else the store compares, its type. */
  datatype Command = Command(id: string, key: string, payload: string, kind: string)

  /** A receipt names the command and its transaction, here the position in the log. */
  datatype Receipt = Receipt(command: string, transaction: nat)

  datatype Stored = Stored(payload: string, receipt: Receipt)

  /** What the lock protects: the commands whose transactions committed, which
      determine the governed documents, and the idempotency store. */
  datatype Core = Core(log: seq<Command>, store: map<string, Stored>)

  /** Authorization and the handlers read the governed documents. */
  datatype Policy = Policy(
    authorizes: (seq<Command>, Command) -> bool,
    supports: string -> bool,
    handles: (seq<Command>, Command) -> bool)

  datatype Reason = Mismatch | Unauthorized | Unsupported | Refused | LockTimeout | Malformed
  datatype Reply = Accepted(receipt: Receipt) | Rejected(reason: Reason) | Raised

  /** Where an exception that is not a gateway error may strike. */
  datatype Fault = NoFault | BeforeCommit | BeforeStore

  const EMPTY := Core([], map[])

  /** One command, processed alone. */
  function Process(policy: Policy, core: Core, cmd: Command, fault: Fault): (Core, Reply) {
    if fault.BeforeCommit? then (core, Raised)
    else if cmd.key in core.store then
      if core.store[cmd.key].payload == cmd.payload then (core, Accepted(core.store[cmd.key].receipt))
      else (core, Rejected(Mismatch))
    else if !policy.authorizes(core.log, cmd) then (core, Rejected(Unauthorized))
    else if !policy.supports(cmd.kind) then (core, Rejected(Unsupported))
    else if !policy.handles(core.log, cmd) then (core, Rejected(Refused))
    else
      var receipt := Receipt(cmd.id, |core.log|);
      var committed := core.(log := core.log + [cmd]);
      if fault.BeforeStore? then (committed, Raised)
      else (committed.(store := core.store[cmd.key := Stored(cmd.payload, receipt)]), Accepted(receipt))
  }

  datatype Served = Served(client: int, cmd: Command, fault: Fault)

  /** The commands of `history`, one after the other, from an empty project. */
  function Serial(policy: Policy, history: seq<Served>): Core {
    if history == [] then EMPTY
    else
      var last := history[|history| - 1];
      Process(policy, Serial(policy, history[..|history| - 1]), last.cmd, last.fault).0
  }

  function ReplyAt(policy: Policy, history: seq<Served>, i: nat): Reply
    requires i < |history|
  {
    Process(policy, Serial(policy, history[..i]), history[i].cmd, history[i].fault).1
  }

  // ------------------------------------------------- what serial runs promise

  /** How often a command with this key committed. */
  function Commits(log: seq<Command>, key: string): nat {
    if log == [] then 0
    else Commits(log[..|log| - 1], key) + if log[|log| - 1].key == key then 1 else 0
  }

  /** How often a commit's receipt was lost before it was stored. */
  function Lost(policy: Policy, history: seq<Served>, key: string): nat {
    if history == [] then 0
    else
      var n := |history| - 1;
      Lost(policy, history[..n], key) +
      if history[n].cmd.key == key && history[n].fault.BeforeStore? && ReplyAt(policy, history, n).Raised?
      then 1 else 0
  }

  /** Every commit either has its receipt stored under its key or lost it. */
  lemma {:induction false} CommitsAccounted(policy: Policy, history: seq<Served>, key: string)
    ensures var core := Serial(policy, history);
      Commits(core.log, key) == (if key in core.store then 1 else 0) + Lost(policy, history, key)
  {
    if history != [] {
      var n := |history| - 1;
      CommitsAccounted(policy, history[..n], key);
      ProcessAccounted(policy, Serial(policy, history[..n]), history[n].cmd, history[n].fault, key);
      hide Process, Commits;
    }
  }

  lemma ProcessAccounted(policy: Policy, core: Core, cmd: Command, fault: Fault, key: string)
    ensures var (core', reply) := Process(policy, core, cmd, fault);
      Commits(core'.log, key) - (if key in core'.store then 1 else 0) ==
      Commits(core.log, key) - (if key in core.store then 1 else 0)
      + if cmd.key == key && fault.BeforeStore? && reply.Raised? then 1 else 0
  {
    assert (core.log + [cmd])[..|core.log|] == core.log;
  }

  /** At most one commit per key, exactly when no receipt was lost, or one was
      and nothing has been committed under the key since. */
  lemma AtMostOnce(policy: Policy, history: seq<Served>, key: string)
    ensures var core := Serial(policy, history);
      Commits(core.log, key) <= 1 <==>
        Lost(policy, history, key) == 0 || (Lost(policy, history, key) == 1 && key !in core.store)
    ensures (forall i :: 0 <= i < |history| && history[i].cmd.key == key ==> !history[i].fault.BeforeStore?)
      ==> Commits(Serial(policy, history).log, key) <= 1
  {
    CommitsAccounted(policy, history, key);
    if forall i :: 0 <= i < |history| && history[i].cmd.key == key ==> !history[i].fault.BeforeStore? {
      NothingLost(policy, history, key);
    }
  }

  lemma {:induction false} NothingLost(policy: Policy, history: seq<Served>, key: string)
    requires forall i :: 0 <= i < |history| && history[i].cmd.key == key ==> !history[i].fault.BeforeStore?
    ensures Lost(policy, history, key) == 0
  {
    if history != [] { NothingLost(policy, history[..|history| - 1], key); }
  }

  /** After a lost receipt, a retry that the policy still allows commits the
      same command once more. */
  lemma LostReceiptCommitsTwice(policy: Policy, history: seq<Served>, cmd: Command, c: int)
    requires cmd.key !in Serial(policy, history).store && policy.supports(cmd.kind)
    requires var log := Serial(policy, history).log;
      policy.authorizes(log, cmd) && policy.handles(log, cmd)
      && policy.authorizes(log + [cmd], cmd) && policy.handles(log + [cmd], cmd)
    ensures var retried := history + [Served(c, cmd, BeforeStore)] + [Served(c, cmd, NoFault)];
      Serial(policy, retried).log == Serial(policy, history).log + [cmd] + [cmd]
      && Commits(Serial(policy, retried).log, cmd.key) == Commits(Serial(policy, history).log, cmd.key) + 2
  {
    var once := history + [Served(c, cmd, BeforeStore)];
    var twice := once + [Served(c, cmd, NoFault)];
    assert once[..|history|] == history && twice[..|once|] == once;
    var log := Serial(policy, history).log;
    assert (log + [cmd])[..|log|] == log && (log + [cmd] + [cmd])[..|log| + 1] == log + [cmd];
  }

  /** What is stored stays. */
  lemma {:induction false} StoreGrows(policy: Policy, history: seq<Served>, i: nat, key: string)
    requires i <= |history| && key in Serial(policy, history[..i]).store
    ensures var core := Serial(policy, history);
      key in core.store && core.store[key] == Serial(policy, history[..i]).store[key]
    decreases |history|
  {
    if i == |history| {
      assert history[..i] == history;
    } else {
      var n := |history| - 1;
      assert history[..n][..i] == history[..i];
      StoreGrows(policy, history[..n], i, key);
    }
  }

  /** An accepted command pins every later one with its key: the same payload is
      answered with the identical receipt, any other is rejected. */
  lemma ReplayIsIdentical(policy: Policy, history: seq<Served>, i: nat, j: nat)
    requires i < j < |history| && history[i].cmd.key == history[j].cmd.key
    requires ReplyAt(policy, history, i).Accepted? && !history[j].fault.BeforeCommit?
    ensures ReplyAt(policy, history, j) ==
      if history[j].cmd.payload == history[i].cmd.payload then ReplyAt(policy, history, i)
      else Rejected(Mismatch)
    ensures Serial(policy, history[..j + 1]) == Serial(policy, history[..j])
  {
    var key := history[i].cmd.key;
    assert history[..i + 1][..i] == history[..i];
    assert history[..j][..i + 1] == history[..i + 1];
    assert history[..j + 1][..j] == history[..j];
    StoreGrows(policy, history[..j], i + 1, key);
  }

  /** A command under a new key that meets no exception is accepted exactly when the policy permits it, and then commits;
      else the first of its three tests that fails is the reason. */
  lemma NewCommandAccepted(policy: Policy, history: seq<Served>, i: nat)
    requires i < |history| && history[i].fault.NoFault? && history[i].cmd.key !in Serial(policy, history[..i]).store
    ensures var cmd, log := history[i].cmd, Serial(policy, history[..i]).log;
      var reply := ReplyAt(policy, history, i);
      && (reply.Accepted? <==> policy.authorizes(log, cmd) && policy.supports(cmd.kind) && policy.handles(log, cmd))
      && (reply.Accepted? ==> Serial(policy, history[..i + 1]).log == log + [cmd] && cmd.key in Serial(policy, history[..i + 1]).store)
      && (reply == Rejected(Unauthorized) <==> !policy.authorizes(log, cmd))
      && (reply == Rejected(Unsupported) <==> policy.authorizes(log, cmd) && !policy.supports(cmd.kind))
      && (reply == Rejected(Refused) <==>
            policy.authorizes(log, cmd) && policy.supports(cmd.kind) && !policy.handles(log, cmd))
  {
    assert history[..i + 1][..i] == history[..i];
  }

  /** A receipt is of the commit it names: the first one under this key. */
  predicate NamesCommit(log: seq<Command>, receipt: Receipt, key: string, payload: string) {
    && receipt.transaction < |log|
    && var cmd := log[receipt.transaction];
      cmd.id == receipt.command && cmd.key == key && cmd.payload == payload
  }

  /** Every stored receipt names the command that committed, and where. */
  lemma {:induction false} ReceiptsNameCommits(policy: Policy, history: seq<Served>, key: string)
    ensures var core := Serial(policy, history);
      key in core.store ==> NamesCommit(core.log, core.store[key].receipt, key, core.store[key].payload)
  {
    if history != [] { ReceiptsNameCommits(policy, history[..|history| - 1], key); }
  }

  /** An accepted command's receipt names a commit of its key and payload, now and
      later; the first one is its own, by its id and its place in the log. */
  lemma ReceiptIs(policy: Policy, history: seq<Served>, i: nat)
    requires i < |history| && ReplyAt(policy, history, i).Accepted?
    ensures var cmd, receipt := history[i].cmd, ReplyAt(policy, history, i).receipt;
      && NamesCommit(Serial(policy, history).log, receipt, cmd.key, cmd.payload)
      && (cmd.key !in Serial(policy, history[..i]).store ==>
            receipt.command == cmd.id && receipt.transaction == |Serial(policy, history[..i]).log|
            && Serial(policy, history[..i + 1]).log == Serial(policy, history[..i]).log + [cmd])
  {
    assert history[..i + 1][..i] == history[..i];
    ReceiptsNameCommits(policy, history[..i], history[i].cmd.key);
    LogGrows(policy, history, i + 1);
  }

  lemma {:induction false} LogGrows(policy: Policy, history: seq<Served>, i: nat)
    requires i <= |history|
    ensures Serial(policy, history[..i]).log <= Serial(policy, history).log
    decreases |history|
  {
    if i == |history| {
      assert history[..i] == history;
    } else {
      var n := |history| - 1;
      assert history[..n][..i] == history[..i];
      LogGrows(policy, history[..n], i);
    }
  }

  /** A rejected command changes neither the committed state nor the store. */
  lemma RejectedChangesNothing(policy: Policy, core: Core, cmd: Command, fault: Fault)
    ensures var (core', reply) := Process(policy, core, cmd, fault);
      reply.Rejected? ==> core' == core
    ensures var (core', reply) := Process(policy, core, cmd, fault);
      core' != core ==> core'.log == core.log + [cmd] && cmd.key !in core.store
  {
  }

  /** Each commit was authorized by exactly the documents it was applied to. */
  lemma {:induction false} CommitsWereAuthorized(policy: Policy, history: seq<Served>, i: nat)
    requires i < |Serial(policy, history).log|
    ensures var log := Serial(policy, history).log;
      policy.authorizes(log[..i], log[i]) && policy.supports(log[i].kind) && policy.handles(log[..i], log[i])
  {
    var n := |history| - 1;
    var before := Serial(policy, history[..n]).log;
    var log := Serial(policy, history).log;
    if i < |before| {
      CommitsWereAuthorized(policy, history[..n], i);
      assert log[..i] == before[..i];
    } else {
      assert log[..i] == before;
    }
  }

  // -------------------------------------------------- many clients, one lock

  /** How far a client is in `execute_command`. */
  datatype Pc =
    | Waiting
    | Locked
    | LookedUp
    | Cleared
    | Handled
    | Committed(receipt: Receipt)
    | Leaving(reply: Reply, fault: Fault)
    | Answered(reply: Reply)
    | Dead(at: Pc)

  datatype Client = Client(cmd: Command, pc: Pc)

  datatype System = System(
    clients: map<int, Client>,
    lock: Option<int>,
    core: Core,
    history: seq<Served>)

  const START := System(map[], None, EMPTY, [])

  predicate InLock(pc: Pc) {
    pc.Locked? || pc.LookedUp? || pc.Cleared? || pc.Handled? || pc.Committed? || pc.Leaving?
  }

  datatype Action =
    | Submit(cmd: Command) | RejectEarly(cmd: Command) | Acquire | GiveUp | Lookup | Authorize | Handle
    | Commit | Store | Fail | Release | Die

  function Move(s: System, c: int, pc: Pc): System
    requires c in s.clients
  {
    s.(clients := s.clients[c := s.clients[c].(pc := pc)])
  }

  predicate Enabled(s: System, c: int, a: Action) {
    match a
    case Submit(_) => c !in s.clients
    case RejectEarly(_) => c !in s.clients
    case _ =>
      c in s.clients &&
      var pc := s.clients[c].pc;
      match a
      case Acquire => pc.Waiting? && s.lock.None?
      case GiveUp => pc.Waiting? && s.lock.Some?
      case Lookup => pc.Locked?
      case Authorize => pc.LookedUp?
      case Handle => pc.Cleared?
      case Commit => pc.Handled?
      case Store => pc.Committed?
      case Fail => InLock(pc) && !pc.Leaving?
      case Release => pc.Leaving?
      case _ => !pc.Answered? && !pc.Dead?
  }

  /** The system after client `c` takes the step `a`. */
  function After(policy: Policy, s: System, c: int, a: Action): System
    requires Enabled(s, c, a)
  {
    match a
    case Submit(cmd) => s.(clients := s.clients[c := Client(cmd, Waiting)])
    case RejectEarly(cmd) => s.(clients := s.clients[c := Client(cmd, Answered(Rejected(Malformed)))])
    case Acquire => Move(s, c, Locked).(lock := Some(c))
    case GiveUp => Move(s, c, Answered(Rejected(LockTimeout)))
    case Lookup =>
      var cmd := s.clients[c].cmd;
      if cmd.key !in s.core.store then Move(s, c, LookedUp)
      else if s.core.store[cmd.key].payload == cmd.payload then
        Move(s, c, Leaving(Accepted(s.core.store[cmd.key].receipt), NoFault))
      else Move(s, c, Leaving(Rejected(Mismatch), NoFault))
    case Authorize =>
      if policy.authorizes(s.core.log, s.clients[c].cmd) then Move(s, c, Cleared)
      else Move(s, c, Leaving(Rejected(Unauthorized), NoFault))
    case Handle =>
      var cmd := s.clients[c].cmd;
      if !policy.supports(cmd.kind) then Move(s, c, Leaving(Rejected(Unsupported), NoFault))
      else if !policy.handles(s.core.log, cmd) then Move(s, c, Leaving(Rejected(Refused), NoFault))
      else Move(s, c, Handled)
    case Commit =>
      var cmd := s.clients[c].cmd;
      Move(s, c, Committed(Receipt(cmd.id, |s.core.log|))).(core := s.core.(log := s.core.log + [cmd]))
    case Store =>
      var cmd, receipt := s.clients[c].cmd, s.clients[c].pc.receipt;
      Move(s, c, Leaving(Accepted(receipt), NoFault)).(
        core := s.core.(store := s.core.store[cmd.key := Stored(cmd.payload, receipt)]))
    case Fail =>
      Move(s, c, Leaving(Raised, if s.clients[c].pc.Committed? then BeforeStore else BeforeCommit))
    case Release =>
      var client := s.clients[c];
      Move(s, c, Answered(client.pc.reply)).(
        lock := if s.lock == Some(c) then None else s.lock,
        history := s.history + [Served(c, client.cmd, client.pc.fault)])
    case Die => Move(s, c, Dead(s.clients[c].pc))
  }

  /** A run: any client that can move may move next. */
  ghost predicate Run(policy: Policy, run: seq<System>) {
    && run != [] && run[0] == START
    && forall i :: 0 < i < |run| ==> Steps(policy, run[i - 1], run[i])
  }

  ghost predicate Steps(policy: Policy, s: System, s': System) {
    exists c, a :: Enabled(s, c, a) && s' == After(policy, s, c, a)
  }

  // -------------------------------------------------------- the invariant

  /** What the holder of the lock has done so far to what it found. */
  predicate HolderMatches(policy: Policy, found: Core, client: Client, core: Core)
    decreases client.pc
  {
    var cmd := client.cmd;
    match client.pc
    case Locked => core == found
    case LookedUp => core == found && cmd.key !in found.store
    case Cleared => core == found && cmd.key !in found.store && policy.authorizes(found.log, cmd)
    case Handled =>
      core == found && cmd.key !in found.store && policy.authorizes(found.log, cmd)
      && policy.supports(cmd.kind) && policy.handles(found.log, cmd)
    case Committed(receipt) =>
      && core == found.(log := found.log + [cmd]) && receipt == Receipt(cmd.id, |found.log|)
      && cmd.key !in found.store && policy.authorizes(found.log, cmd)
      && policy.supports(cmd.kind) && policy.handles(found.log, cmd)
    case Leaving(reply, fault) => (core, reply) == Process(policy, found, cmd, fault)
    case Dead(at) => HolderMatches(policy, found, Client(cmd, at), core)
    case _ => false
  }

  /** Only the lock holder is inside. */
  ghost predicate Exclusive(s: System) {
    && (forall c :: c in s.clients && InLock(s.clients[c].pc) ==> s.lock == Some(c))
    && (s.lock.Some? ==> s.lock.value in s.clients)
  }

  /** Apart from what the lock holder has done, the core is that of the serial
      run of those that left. */
  ghost predicate Inv(policy: Policy, s: System) {
    && Exclusive(s)
    && (s.lock.None? ==> s.core == Serial(policy, s.history))
    && (s.lock.Some? ==>
          HolderMatches(policy, Serial(policy, s.history), s.clients[s.lock.value], s.core))
  }

  /** Nobody that was turned away or answered contradicts the serial run. */
  ghost predicate AnswersMatch(policy: Policy, s: System) {
    forall c :: c in s.clients && s.clients[c].pc.Answered? ==>
      || s.clients[c].pc.reply in {Rejected(LockTimeout), Rejected(Malformed)}
      || exists i :: 0 <= i < |s.history| && s.history[i].client == c
           && s.history[i].cmd == s.clients[c].cmd && ReplyAt(policy, s.history, i) == s.clients[c].pc.reply
  }

  lemma StepKeepsExclusive(policy: Policy, s: System, c: int, a: Action)
    requires Inv(policy, s) && Enabled(s, c, a)
    ensures Exclusive(After(policy, s, c, a))
  {
    hide Process, Serial;
  }

  lemma StepKeepsInv(policy: Policy, s: System, c: int, a: Action)
    requires Inv(policy, s) && Enabled(s, c, a)
    ensures Inv(policy, After(policy, s, c, a))
  {
    StepKeepsExclusive(policy, s, c, a);
    if a.Release? {
      assert After(policy, s, c, a).history[..|s.history|] == s.history;
    } else {
      hide Serial;
    }
  }

  lemma StepKeepsAnswers(policy: Policy, s: System, c: int, a: Action)
    requires Inv(policy, s) && AnswersMatch(policy, s) && Enabled(s, c, a)
    ensures AnswersMatch(policy, After(policy, s, c, a))
  {
    var s' := After(policy, s, c, a);
    if a.Release? {
      assert s'.history[..|s.history|] == s.history;
      forall i | 0 <= i < |s.history| ensures ReplyAt(policy, s'.history, i) == ReplyAt(policy, s.history, i) {
        assert s'.history[..i] == s.history[..i];
      }
      assert s'.history[|s.history|].client == c;
    }
  }

  lemma {:induction false} RunKeepsInv(policy: Policy, run: seq<System>, i: nat)
    requires Run(policy, run) && i < |run|
    ensures Inv(policy, run[i]) && AnswersMatch(policy, run[i])
  {
    if i > 0 {
      RunKeepsInv(policy, run, i - 1);
      assert Steps(policy, run[i - 1], run[i]);
      var c, a :| Enabled(run[i - 1], c, a) && run[i] == After(policy, run[i - 1], c, a);
      StepKeepsInv(policy, run[i - 1], c, a);
      StepKeepsAnswers(policy, run[i - 1], c, a);
    }
  }

  // ------------------------------------------------------------ main results

  /** Every interleaving is equivalent to the serial run in the order of leaving
      the lock: no two clients are inside at once, with the lock free the core is
      that of the serial run, and whoever got past the lock received its answer. */
  lemma Linearizable(policy: Policy, run: seq<System>)
    requires Run(policy, run)
    ensures var s := run[|run| - 1];
      && (s.lock.None? ==> s.core == Serial(policy, s.history))
      && AnswersMatch(policy, s)
      && forall c, c' :: c in s.clients && c' in s.clients ==>
           !InLock(s.clients[c].pc) || !InLock(s.clients[c'].pc) || c == c'
  {
    RunKeepsInv(policy, run, |run| - 1);
  }

  /** The commit of a client between its commit and its store, alive or not. */
  function InFlight(s: System, key: string): nat {
    if s.lock.Some? && s.lock.value in s.clients && s.clients[s.lock.value].cmd.key == key
       && AwaitsStore(s.clients[s.lock.value].pc)
    then 1 else 0
  }

  predicate AwaitsStore(pc: Pc) {
    match pc
    case Committed(_) => true
    case Leaving(reply, fault) => reply.Raised? && fault.BeforeStore?
    case Dead(at) => AwaitsStore(at)
    case _ => false
  }

  /** In every state of every interleaving the commits under a key are its stored
      receipt, the receipts lost, and the one on its way, which finds no receipt. */
  lemma CommitsAccountedInRun(policy: Policy, run: seq<System>, key: string)
    requires Run(policy, run)
    ensures var s := run[|run| - 1];
      && Commits(s.core.log, key) ==
           (if key in s.core.store then 1 else 0) + Lost(policy, s.history, key) + InFlight(s, key)
      && (InFlight(s, key) == 1 ==> key !in s.core.store)
  {
    var s := run[|run| - 1];
    RunKeepsInv(policy, run, |run| - 1);
    CommitsAccounted(policy, s.history, key);
    if s.lock.Some? {
      HolderAccounted(policy, Serial(policy, s.history), s.clients[s.lock.value], s.core, key);
    }
  }

  /** At most one commit per key in every state of every interleaving, exactly
      when no receipt was lost, or one was and nothing was committed since; so it
      is one as long as no client with the key leaves between commit and store. */
  lemma AtMostOnceInRun(policy: Policy, run: seq<System>, key: string)
    requires Run(policy, run)
    ensures var s := run[|run| - 1];
      Commits(s.core.log, key) <= 1 <==>
        || Lost(policy, s.history, key) == 0
        || (Lost(policy, s.history, key) == 1 && key !in s.core.store && InFlight(s, key) == 0)
    ensures var s := run[|run| - 1];
      (forall i :: 0 <= i < |s.history| && s.history[i].cmd.key == key ==> !s.history[i].fault.BeforeStore?)
      ==> Commits(s.core.log, key) <= 1
  {
    var s := run[|run| - 1];
    CommitsAccountedInRun(policy, run, key);
    if forall i :: 0 <= i < |s.history| && s.history[i].cmd.key == key ==> !s.history[i].fault.BeforeStore? {
      NothingLost(policy, s.history, key);
    }
  }

  lemma {:induction false} HolderAccounted(policy: Policy, found: Core, client: Client, core: Core, key: string)
    requires HolderMatches(policy, found, client, core)
    ensures Commits(core.log, key) - (if key in core.store then 1 else 0) ==
      Commits(found.log, key) - (if key in found.store then 1 else 0)
      + if client.cmd.key == key && AwaitsStore(client.pc) then 1 else 0
    ensures client.cmd.key == key && AwaitsStore(client.pc) ==> key !in core.store
    decreases client.pc
  {
    if client.pc.Dead? {
      HolderAccounted(policy, found, Client(client.cmd, client.pc.at), core, key);
    } else {
      assert (found.log + [client.cmd])[..|found.log|] == found.log;
    }
  }

  /** The history only grows, and those in it are clients. */
  lemma {:induction false} HistoryGrows(policy: Policy, run: seq<System>, i: nat, j: nat)
    requires Run(policy, run) && i <= j < |run|
    ensures run[i].history <= run[j].history
    ensures forall k :: 0 <= k < |run[j].history| ==> run[j].history[k].client in run[j].clients
    decreases j
  {
    if j > 0 {
      assert Steps(policy, run[j - 1], run[j]);
      HistoryGrows(policy, run, if i < j then i else j - 1, j - 1);
    }
  }

  /** What one client was told is what every later one with the same key is told:
      the identical receipt for the same payload, else a rejection. Such a client
      may also fail before it looks, or be turned away without having the lock. */
  lemma ReplayInRun(policy: Policy, run: seq<System>, i: nat, c: int, later: int)
    requires Run(policy, run) && i < |run|
    requires c in run[i].clients && run[i].clients[c].pc.Answered? && run[i].clients[c].pc.reply.Accepted?
    requires var s := run[|run| - 1];
      later !in run[i].clients && later in s.clients && s.clients[later].pc.Answered?
      && s.clients[later].cmd.key == run[i].clients[c].cmd.key
    ensures var first, next := run[i].clients[c], run[|run| - 1].clients[later];
      || next.pc.reply == (if next.cmd.payload == first.cmd.payload then first.pc.reply else Rejected(Mismatch))
      || next.pc.reply in {Rejected(LockTimeout), Rejected(Malformed), Raised}
  {
    hide Process, Serial, Steps;
    var was, now := run[i].history, run[|run| - 1].history;
    RunKeepsInv(policy, run, i);
    RunKeepsInv(policy, run, |run| - 1);
    HistoryGrows(policy, run, i, i);
    HistoryGrows(policy, run, i, |run| - 1);
    var next := run[|run| - 1].clients[later];
    if next.pc.reply !in {Rejected(LockTimeout), Rejected(Malformed)} {
      var k :| 0 <= k < |was| && was[k].client == c && was[k].cmd == run[i].clients[c].cmd
        && ReplyAt(policy, was, k) == run[i].clients[c].pc.reply;
      var m :| 0 <= m < |now| && now[m].client == later && now[m].cmd == next.cmd
        && ReplyAt(policy, now, m) == next.pc.reply;
      assert k < m;
      assert now[..k] == was[..k];
      if now[m].fault.BeforeCommit? {
        FailsEarly(policy, now, m);
      } else {
        ReplayIsIdentical(policy, now, k, m);
      }
    }
  }

  lemma FailsEarly(policy: Policy, history: seq<Served>, m: nat)
    requires m < |history| && history[m].fault.BeforeCommit?
    ensures ReplyAt(policy, history, m).Raised?
  {
  }

  /** Whoever has a receipt has that of a commit of its key and payload, and with
      the lock free that is in the log. */
  lemma ReceiptInRun(policy: Policy, run: seq<System>, c: int)
    requires Run(policy, run)
    requires var s := run[|run| - 1];
      c in s.clients && s.clients[c].pc.Answered? && s.clients[c].pc.reply.Accepted?
    ensures var s := run[|run| - 1];
      var client := s.clients[c];
      && NamesCommit(Serial(policy, s.history).log, client.pc.reply.receipt, client.cmd.key, client.cmd.payload)
      && (s.lock.None? ==> NamesCommit(s.core.log, client.pc.reply.receipt, client.cmd.key, client.cmd.payload))
  {
    hide Process, Serial, Steps, NamesCommit;
    var s := run[|run| - 1];
    RunKeepsInv(policy, run, |run| - 1);
    var i :| 0 <= i < |s.history| && s.history[i].client == c && s.history[i].cmd == s.clients[c].cmd
      && ReplyAt(policy, s.history, i) == s.clients[c].pc.reply;
    ReceiptIs(policy, s.history, i);
  }

  /** From taking the lock to leaving it with a rejection, a client changes nothing
      and lets nobody else change anything. */
  lemma RejectedInRun(policy: Policy, run: seq<System>, i: nat, j: nat, c: int)
    requires Run(policy, run) && i <= j < |run|
    requires forall k :: i <= k <= j ==> c in run[k].clients && InLock(run[k].clients[c].pc)
    requires run[i].clients[c].pc.Locked?
    requires run[j].clients[c].pc.Leaving? && run[j].clients[c].pc.reply.Rejected?
    ensures run[j].core == run[i].core
  {
    RunKeepsInv(policy, run, i);
    RunKeepsInv(policy, run, j);
    HeldHistory(policy, run, i, j, c);
    var client := run[j].clients[c];
    RejectedChangesNothing(policy, Serial(policy, run[j].history), client.cmd, client.pc.fault);
  }

  lemma {:induction false} HeldHistory(policy: Policy, run: seq<System>, i: nat, j: nat, c: int)
    requires Run(policy, run) && i <= j < |run|
    requires forall k :: i <= k <= j ==> c in run[k].clients && InLock(run[k].clients[c].pc)
    ensures run[j].history == run[i].history
    decreases j
  {
    hide Process, Serial, HolderMatches;
    if i < j {
      HeldHistory(policy, run, i, j - 1, c);
      RunKeepsInv(policy, run, j - 1);
      assert Steps(policy, run[j - 1], run[j]);
    }
  }

  lemma DeadHolderStep(policy: Policy, s: System, c: int, a: Action)
    requires Inv(policy, s) && Enabled(s, c, a)
    requires s.lock.Some? && s.clients[s.lock.value].pc.Dead?
    ensures var s' := After(policy, s, c, a);
      s'.core == s.core && s'.lock == s.lock && s'.history == s.history
      && s.lock.value in s'.clients && s'.clients[s.lock.value] == s.clients[s.lock.value]
  {
  }

  lemma DeadHolderSteps(policy: Policy, s: System, s': System)
    requires Inv(policy, s) && Steps(policy, s, s')
    requires s.lock.Some? && s.lock.value in s.clients && s.clients[s.lock.value].pc.Dead?
    ensures s'.core == s.core && s'.lock == s.lock && s'.history == s.history
    ensures s.lock.value in s'.clients && s'.clients[s.lock.value] == s.clients[s.lock.value]
  {
    hide Process, Serial, HolderMatches, Exclusive, Enabled, After, Inv;
    var c, a :| Enabled(s, c, a) && s' == After(policy, s, c, a);
    DeadHolderStep(policy, s, c, a);
  }

  /** Once a client has died with the lock, for the rest of the run nothing is
      committed or stored and nobody is served. */
  lemma {:induction false} DeadHolderFreezes(policy: Policy, run: seq<System>, i: nat, j: nat)
    requires Run(policy, run) && i <= j < |run|
    requires run[i].lock.Some? && run[i].lock.value in run[i].clients && run[i].clients[run[i].lock.value].pc.Dead?
    ensures run[j].core == run[i].core && run[j].lock == run[i].lock && run[j].history == run[i].history
    ensures run[i].lock.value in run[j].clients && run[j].clients[run[i].lock.value].pc.Dead?
    decreases j
  {
    if i < j {
      DeadHolderFreezes(policy, run, i, j - 1);
      RunKeepsInv(policy, run, j - 1);
      assert Steps(policy, run[j - 1], run[j]);
      hide *;
      DeadHolderSteps(policy, run[j - 1], run[j]);
    }
  }

  // --------------------------------------------------- the gateway as a class

  class CommandGateway {
    var log: seq<Command>
    var store: map<string, Stored>
    var locked: bool
    const policy: Policy

    constructor (policy: Policy)
      ensures this.policy == policy && !locked && Now() == EMPTY
    {
      this.policy := policy;
      log, store, locked := [], map[], false;
    }

    ghost function Now(): Core reads this {
      Core(log, store)
    }

    /** Looks the key up; no answer means that the command is new. */
    method LookUp(cmd: Command) returns (answer: Option<Reply>)
      ensures answer ==
        if cmd.key !in store then None
        else if store[cmd.key].payload == cmd.payload then Some(Accepted(store[cmd.key].receipt))
        else Some(Rejected(Mismatch))
    {
      if cmd.key !in store {
        return None;
      }
      if store[cmd.key].payload != cmd.payload {
        return Some(Rejected(Mismatch));
      }
      return Some(Accepted(store[cmd.key].receipt));
    }

    /** Executes one command. The lock is released on every way out; when it
        cannot be had, nothing happens. */
    method ExecuteCommand(cmd: Command, fault: Fault) returns (reply: Reply)
      modifies this
      ensures locked == old(locked)
      ensures old(locked) ==> reply == Rejected(LockTimeout) && Now() == old(Now())
      ensures !old(locked) ==> (Now(), reply) == Process(policy, old(Now()), cmd, fault)
    {
      if locked {
        return Rejected(LockTimeout);
      }
      locked := true;
      reply := Guarded(cmd, fault);
      locked := false;
    }

    method Guarded(cmd: Command, fault: Fault) returns (reply: Reply)
      modifies `log, `store
      ensures (Now(), reply) == Process(policy, old(Now()), cmd, fault)
    {
      if fault.BeforeCommit? {
        return Raised;
      }
      var cached := LookUp(cmd);
      if cached.Some? {
        return cached.value;
      }
      if !policy.authorizes(log, cmd) {
        return Rejected(Unauthorized);
      }
      if !policy.supports(cmd.kind) {
        return Rejected(Unsupported);
      }
      if !policy.handles(log, cmd) {
        return Rejected(Refused);
      }
      var receipt := Receipt(cmd.id, |log|);
      log := log + [cmd];
      if fault.BeforeStore? {
        return Raised;
      }
      store := store[cmd.key := Stored(cmd.payload, receipt)];
      return Accepted(receipt);
    }
  }
}
