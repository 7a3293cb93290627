/** The bridge's connection task as a state machine: producers, network outcomes and the
    closing of the channel are the environment's choice. */
module BridgeProtocol {
  import opened Wrappers

  datatype Command =
    | Publish(topic: string, payload: seq<nat>, qos: nat, retain: bool)
    | Subscribe(filter: string, subQos: nat)
    | Unsubscribe(unsubFilter: string)
    | Shutdown

  datatype Status = Disconnected | Connecting | Connected | Backoff

  datatype Phase = Spawned | Dialing | Running | Waiting | Done

  /** What became of sending one command's packet. */
  datatype Outcome = Sent | EncodeError | WriteError

  datatype Env =
    | Send(cmd: Command)          // a producer offers a command to the channel
    | CloseSenders                // the last sender is dropped
    | Begin                       // the task is scheduled for the first time
    | AttemptFails                // no connection, or no successful CONNACK
    | Established                 // a successful CONNACK arrived
    | Receive(outcome: Outcome)   // the message loop takes the next command
    | Other                       // inbound packets and keep-alives that succeed
    | ConnectionLost              // read error, end of stream, DISCONNECT, failed ping or setup
    | WaitElapsed                 // the back-off sleep is over

  datatype Fate = Written | Unencodable | Unwritten | Discarded | Obeyed

  datatype Entry = Entry(cmd: Command, fate: Fate)

  datatype Config = Config(initial: nat, max: nat)

  const CHANNEL_CAPACITY := 1000

  /** `sent` is everything the channel accepted and `ledger` everything taken from it. */
  datatype Bridge = Bridge(
    phase: Phase, queue: seq<Command>, closed: bool, retry: nat,
    trace: seq<Status>, waits: seq<nat>, sent: seq<Command>, ledger: seq<Entry>)

  function Initial(cfg: Config): Bridge {
    Bridge(Spawned, [], false, cfg.initial, [Disconnected], [], [], [])
  }

  function Min(a: nat, b: nat): nat {
    if a < b then a else b
  }

  function Enter(b: Bridge, phase: Phase, status: Status): Bridge {
    b.(phase := phase, trace := b.trace + [status])
  }

  function Fail(b: Bridge): Bridge {
    Enter(b, Waiting, Backoff).(waits := b.waits + [b.retry])
  }

  function Take(b: Bridge, fate: Fate): Bridge
    requires b.queue != []
  {
    b.(queue := b.queue[1..], ledger := b.ledger + [Entry(b.queue[0], fate)])
  }

  function FateOf(outcome: Outcome): Fate {
    match outcome case Sent => Written case EncodeError => Unencodable case WriteError => Unwritten
  }

  function Handle(b: Bridge, outcome: Outcome): Bridge
    requires b.queue != []
  {
    match b.queue[0]
    case Shutdown => Enter(Take(b, Obeyed), Done, Disconnected)
    case Publish(_, _, _, _) =>
      if outcome == WriteError then Fail(Take(b, Unwritten)) else Take(b, FateOf(outcome))
    case _ => Take(b, FateOf(outcome))
  }

  /** The end of a back-off: the interval doubles and one command is looked at. */
  function Wake(cfg: Config, b: Bridge): Bridge {
    var b := b.(retry := Min(b.retry * 2, cfg.max));
    if b.queue == [] then
      if b.closed then Enter(b, Done, Disconnected) else Enter(b, Dialing, Connecting)
    else if b.queue[0] == Shutdown then Enter(Take(b, Obeyed), Done, Disconnected)
    else Enter(Take(b, Discarded), Dialing, Connecting)
  }

  function Step(cfg: Config, b: Bridge, e: Env): Bridge {
    match e
    case Send(cmd) =>
      if b.phase == Done || b.closed || |b.queue| >= CHANNEL_CAPACITY then b
      else b.(queue := b.queue + [cmd], sent := b.sent + [cmd])
    case CloseSenders => b.(closed := true)
    case Begin => if b.phase == Spawned then Enter(b, Dialing, Connecting) else b
    case AttemptFails => if b.phase == Dialing then Fail(b) else b
    case Established => if b.phase == Dialing then Enter(b, Running, Connected) else b
    case Receive(outcome) => if b.phase == Running && b.queue != [] then Handle(b, outcome) else b
    case Other => b
    case ConnectionLost => if b.phase == Running then Fail(b) else b
    case WaitElapsed => if b.phase == Waiting then Wake(cfg, b) else b
  }

  function Run(cfg: Config, script: seq<Env>): Bridge {
    if script == [] then Initial(cfg)
    else Step(cfg, Run(cfg, script[..|script| - 1]), script[|script| - 1])
  }

  // ----- Accounting -----

  function Commands(ledger: seq<Entry>): (s: seq<Command>)
    ensures |s| == |ledger|
  {
    if ledger == [] then [] else Commands(ledger[..|ledger| - 1]) + [ledger[|ledger| - 1].cmd]
  }

  function WithFate(ledger: seq<Entry>, fate: Fate): seq<Command> {
    if ledger == [] then []
    else
      var last := ledger[|ledger| - 1];
      WithFate(ledger[..|ledger| - 1], fate) + if last.fate == fate then [last.cmd] else []
  }

  /** A shutdown is only ever obeyed, ends the ledger, and nothing else is obeyed. */
  ghost predicate ShutdownLast(b: Bridge) {
    && (forall i :: 0 <= i < |b.ledger| ==> (b.ledger[i].cmd == Shutdown <==> b.ledger[i].fate == Obeyed))
    && (forall i :: 0 <= i < |b.ledger| - 1 ==> b.ledger[i].cmd != Shutdown)
    && (b.phase != Done && b.ledger != [] ==> b.ledger[|b.ledger| - 1].cmd != Shutdown)
  }

  ghost predicate Accounted(b: Bridge) {
    && b.sent == Commands(b.ledger) + b.queue
    && |b.queue| <= CHANNEL_CAPACITY
    && |WithFate(b.ledger, Discarded)| + (if b.phase == Waiting then 1 else 0) <= |b.waits|
    && ShutdownLast(b)
  }

  lemma TakeAccounted(b: Bridge, fate: Fate)
    requires Accounted(b) && b.phase != Done && b.queue != [] && (b.queue[0] == Shutdown <==> fate == Obeyed)
    ensures var t := Take(b, fate);
      && t.sent == Commands(t.ledger) + t.queue && |t.queue| <= CHANNEL_CAPACITY
      && WithFate(t.ledger, Discarded) == WithFate(b.ledger, Discarded)
        + (if fate == Discarded then [b.queue[0]] else [])
      && ShutdownLast(t.(phase := Done)) && (fate != Obeyed ==> ShutdownLast(t))
  {
    var t := Take(b, fate);
    assert t.ledger[..|t.ledger| - 1] == b.ledger;
    assert b.queue == [b.queue[0]] + b.queue[1..];
  }

  lemma HandleAccounted(b: Bridge, outcome: Outcome)
    requires Accounted(b) && b.phase == Running && b.queue != []
    ensures Accounted(Handle(b, outcome))
  {
    hide Commands, WithFate;
    TakeAccounted(b, if b.queue[0] == Shutdown then Obeyed else FateOf(outcome));
  }

  lemma WakeAccounted(cfg: Config, b: Bridge)
    requires Accounted(b) && b.phase == Waiting
    ensures Accounted(Wake(cfg, b))
  {
    hide Commands, WithFate;
    if b.queue != [] {
      TakeAccounted(b, if b.queue[0] == Shutdown then Obeyed else Discarded);
    }
  }

  lemma {:induction false} StepAccounted(cfg: Config, b: Bridge, e: Env)
    requires Accounted(b)
    ensures Accounted(Step(cfg, b, e))
  {
    match e
    case Receive(outcome) =>
      if b.phase == Running && b.queue != [] {
        HandleAccounted(b, outcome);
      }
    case WaitElapsed =>
      if b.phase == Waiting {
        WakeAccounted(cfg, b);
      }
    case Send(cmd) =>
      assert Commands(b.ledger) + (b.queue + [cmd]) == Commands(b.ledger) + b.queue + [cmd];
    case _ =>
  }

  /** In every run each accepted command is queued or taken exactly once and in order, at
      most one is discarded per failed attempt, and a shutdown is never lost or overtaken. */
  lemma {:induction false} RunAccounted(cfg: Config, script: seq<Env>)
    ensures Accounted(Run(cfg, script))
  {
    if script != [] {
      RunAccounted(cfg, script[..|script| - 1]);
      StepAccounted(cfg, Run(cfg, script[..|script| - 1]), script[|script| - 1]);
    }
  }

  /** `a` is `b` with some elements left out. */
  ghost predicate Subsequence<T>(a: seq<T>, b: seq<T>) {
    if b == [] then a == []
    else
      || Subsequence(a, b[..|b| - 1])
      || (a != [] && a[|a| - 1] == b[|b| - 1] && Subsequence(a[..|a| - 1], b[..|b| - 1]))
  }

  lemma {:induction false} SubsequenceExtend<T>(a: seq<T>, b: seq<T>, more: seq<T>)
    requires Subsequence(a, b)
    ensures Subsequence(a, b + more)
  {
    if more == [] {
      assert b + more == b;
    } else {
      var init := more[..|more| - 1];
      SubsequenceExtend(a, b, init);
      assert (b + more)[..|b + more| - 1] == b + init;
    }
  }

  lemma {:induction false} FateInOrder(ledger: seq<Entry>, fate: Fate)
    ensures Subsequence(WithFate(ledger, fate), Commands(ledger))
  {
    if ledger != [] {
      var n := |ledger| - 1;
      FateInOrder(ledger[..n], fate);
      assert Commands(ledger)[..|Commands(ledger)| - 1] == Commands(ledger[..n]);
      var all := WithFate(ledger, fate);
      if ledger[n].fate == fate {
        assert all[..|all| - 1] == WithFate(ledger[..n], fate);
      } else {
        assert all == WithFate(ledger[..n], fate);
      }
    }
  }

  /** Commands reach the remote broker in the order in which they were accepted. */
  lemma {:induction false} WrittenInOrder(cfg: Config, script: seq<Env>)
    ensures Subsequence(WithFate(Run(cfg, script).ledger, Written), Run(cfg, script).sent)
  {
    var b := Run(cfg, script);
    RunAccounted(cfg, script);
    FateInOrder(b.ledger, Written);
    SubsequenceExtend(WithFate(b.ledger, Written), Commands(b.ledger), b.queue);
  }

  /** Once the task has ended it takes, writes and reports nothing any more. */
  lemma {:induction false} DoneIsFinal(cfg: Config, script: seq<Env>, more: seq<Env>)
    requires Run(cfg, script).phase == Done
    ensures var b, after := Run(cfg, script), Run(cfg, script + more);
      after.(closed := b.closed) == b
  {
    if more == [] {
      assert script + more == script;
    } else {
      var init := more[..|more| - 1];
      DoneIsFinal(cfg, script, init);
      assert (script + more)[..|script + more| - 1] == script + init;
    }
  }

  // ----- The status cell -----

  predicate Follows(a: Status, b: Status) {
    match a
    case Disconnected => b == Connecting
    case Connecting => b == Connected || b == Backoff
    case Connected => b == Backoff || b == Disconnected
    case Backoff => b == Connecting || b == Disconnected
  }

  function StatusOf(phase: Phase): Status {
    match phase
    case Spawned => Disconnected
    case Dialing => Connecting
    case Running => Connected
    case Waiting => Backoff
    case Done => Disconnected
  }

  /** Disconnected, then rounds of Connecting, perhaps Connected, and Backoff; Disconnected
      again only at the very end, after Connected or after Backoff. */
  ghost predicate TraceOk(b: Bridge) {
    && b.trace != [] && b.trace[0] == Disconnected
    && b.trace[|b.trace| - 1] == StatusOf(b.phase)
    && (forall i :: 0 <= i < |b.trace| - 1 ==> Follows(b.trace[i], b.trace[i + 1]))
    && (forall i :: 0 < i < |b.trace| ==> (b.trace[i] == Disconnected <==> b.phase == Done && i == |b.trace| - 1))
    && (b.phase == Spawned <==> |b.trace| == 1)
  }

  lemma EnterTrace(b: Bridge, phase: Phase)
    requires TraceOk(b) && b.phase != Done && phase != Spawned && Follows(StatusOf(b.phase), StatusOf(phase))
    ensures TraceOk(Enter(b, phase, StatusOf(phase)))
  {
    var t := Enter(b, phase, StatusOf(phase));
    forall i | 0 <= i < |t.trace| - 1 ensures Follows(t.trace[i], t.trace[i + 1]) {
      if i < |b.trace| - 1 {
        assert Follows(b.trace[i], b.trace[i + 1]);
      }
    }
  }

  /** A step writes a status exactly when it changes the phase. */
  lemma StepEnters(cfg: Config, b: Bridge, e: Env)
    ensures var next := Step(cfg, b, e);
      && next.trace == b.trace + (if next.phase == b.phase then [] else [StatusOf(next.phase)])
      && (next.phase != b.phase ==>
           b.phase != Done && next.phase != Spawned && Follows(StatusOf(b.phase), StatusOf(next.phase)))
  {
  }

  lemma {:induction false} StepTrace(cfg: Config, b: Bridge, e: Env)
    requires TraceOk(b)
    ensures TraceOk(Step(cfg, b, e))
  {
    hide Step;
    StepEnters(cfg, b, e);
    var next := Step(cfg, b, e);
    if next.phase != b.phase {
      EnterTrace(b, next.phase);
    }
  }

  lemma {:induction false} RunTrace(cfg: Config, script: seq<Env>)
    ensures TraceOk(Run(cfg, script))
  {
    if script != [] {
      RunTrace(cfg, script[..|script| - 1]);
      StepTrace(cfg, Run(cfg, script[..|script| - 1]), script[|script| - 1]);
    }
  }

  // ----- Back-off -----

  function Pow2(k: nat): nat {
    if k == 0 then 1 else 2 * Pow2(k - 1)
  }

  /** The k-th wait over the task's whole life. */
  function WaitTime(cfg: Config, k: nat): nat {
    if k == 0 then cfg.initial else Min(cfg.initial * Pow2(k), cfg.max)
  }

  lemma {:induction false} NextWait(cfg: Config, k: nat)
    ensures Min(WaitTime(cfg, k) * 2, cfg.max) == WaitTime(cfg, k + 1)
  {
    var x := cfg.initial * Pow2(k);
    assert cfg.initial * Pow2(k + 1) == 2 * x;
  }

  ghost predicate WaitsOk(cfg: Config, b: Bridge) {
    && (b.phase == Waiting ==> b.waits != [])
    && (forall k :: 0 <= k < |b.waits| ==> b.waits[k] == WaitTime(cfg, k))
    && b.retry == WaitTime(cfg, if b.phase == Waiting then |b.waits| - 1 else |b.waits|)
  }

  lemma StepWaits(cfg: Config, b: Bridge, e: Env)
    requires WaitsOk(cfg, b)
    ensures WaitsOk(cfg, Step(cfg, b, e))
  {
    if b.phase == Waiting {
      NextWait(cfg, |b.waits| - 1);
    }
  }

  /** In every run the k-th wait is the initial interval doubled k times, capped from the
      second wait on; a connection in between does not reset it. */
  lemma {:induction false} RunWaits(cfg: Config, script: seq<Env>)
    ensures WaitsOk(cfg, Run(cfg, script))
  {
    if script != [] {
      RunWaits(cfg, script[..|script| - 1]);
      StepWaits(cfg, Run(cfg, script[..|script| - 1]), script[|script| - 1]);
    }
  }

  // ----- What happened, counted -----

  /** How often the environment does something in a given situation of the bridge. */
  ghost function Times(cfg: Config, script: seq<Env>, what: (Bridge, Env) -> bool): nat {
    if script == [] then 0
    else
      var n := |script| - 1;
      Times(cfg, script[..n], what) + if what(Run(cfg, script[..n]), script[n]) then 1 else 0
  }

  /** How many commands of the ledger are as described. */
  ghost function Entries(ledger: seq<Entry>, which: Entry -> bool): nat {
    if ledger == [] then 0
    else Entries(ledger[..|ledger| - 1], which) + if which(ledger[|ledger| - 1]) then 1 else 0
  }

  ghost function StatusTimes(trace: seq<Status>, status: Status): nat {
    if trace == [] then 0
    else StatusTimes(trace[..|trace| - 1], status) + if trace[|trace| - 1] == status then 1 else 0
  }

  predicate FailsToConnect(b: Bridge, e: Env) {
    b.phase == Dialing && e == AttemptFails
  }

  predicate LosesConnection(b: Bridge, e: Env) {
    b.phase == Running && e == ConnectionLost
  }

  predicate Connects(b: Bridge, e: Env) {
    b.phase == Dialing && e == Established
  }

  predicate PublishFailed(entry: Entry) {
    entry.cmd.Publish? && entry.fate == Unwritten
  }

  /** A producer finds the task alive, the channel open and a place in it. */
  predicate Accepts(b: Bridge, e: Env) {
    e.Send? && b.phase != Done && !b.closed && |b.queue| < 1000
  }

  /** The message loop takes a command, other than a shutdown, and sends it with that outcome. */
  function Handles(outcome: Outcome): (Bridge, Env) -> bool {
    (b: Bridge, e: Env) => b.phase == Running && b.queue != [] && b.queue[0] != Shutdown && e == Receive(outcome)
  }

  /** A shutdown is at the head when the message loop, or the look after a back-off, takes it. */
  predicate TakesShutdown(b: Bridge, e: Env) {
    && b.queue != [] && b.queue[0] == Shutdown
    && ((b.phase == Running && e.Receive?) || (b.phase == Waiting && e == WaitElapsed))
  }

  /** A back-off ends with every sender gone and nothing left to take. */
  predicate Abandoned(b: Bridge, e: Env) {
    b.phase == Waiting && e == WaitElapsed && b.queue == [] && b.closed
  }

  function Met(fate: Fate): Entry -> bool {
    (entry: Entry) => entry.fate == fate
  }

  lemma EntriesMore(ledger: seq<Entry>, entry: Entry, which: Entry -> bool)
    ensures Entries(ledger + [entry], which) == Entries(ledger, which) + if which(entry) then 1 else 0
  {
    assert (ledger + [entry])[..|ledger|] == ledger;
  }

  lemma StatusMore(trace: seq<Status>, next: Status, status: Status)
    ensures StatusTimes(trace + [next], status) == StatusTimes(trace, status) + if next == status then 1 else 0
  {
    assert (trace + [next])[..|trace|] == trace;
  }

  /** What becomes of the command at the head, if the step takes it. */
  ghost function Taken(b: Bridge, e: Env): Option<Fate> {
    if Handles(Sent)(b, e) then Some(Written)
    else if Handles(EncodeError)(b, e) then Some(Unencodable)
    else if Handles(WriteError)(b, e) then Some(Unwritten)
    else if TakesShutdown(b, e) then Some(Obeyed)
    else if b.phase == Waiting && e == WaitElapsed && b.queue != [] then Some(Discarded)
    else None
  }

  lemma {:induction false} LedgerStep(cfg: Config, b: Bridge, e: Env)
    ensures Taken(b, e).Some? ==> b.queue != []
    ensures Step(cfg, b, e).ledger
      == b.ledger + if Taken(b, e).Some? then [Entry(b.queue[0], Taken(b, e).value)] else []
  {
  }

  lemma {:induction false} EntriesStep(cfg: Config, b: Bridge, e: Env, which: Entry -> bool)
    ensures Entries(Step(cfg, b, e).ledger, which)
      == Entries(b.ledger, which)
         + if Taken(b, e).Some? && b.queue != [] && which(Entry(b.queue[0], Taken(b, e).value)) then 1 else 0
  {
    hide Step, Entries, Taken;
    LedgerStep(cfg, b, e);
    if Taken(b, e).Some? {
      EntriesMore(b.ledger, Entry(b.queue[0], Taken(b, e).value), which);
    } else {
      assert b.ledger + [] == b.ledger;
    }
  }

  lemma {:induction false} WaitsStep(cfg: Config, b: Bridge, e: Env)
    ensures |Step(cfg, b, e).waits| == |b.waits|
      + if FailsToConnect(b, e) || LosesConnection(b, e) || (Handles(WriteError)(b, e) && b.queue[0].Publish?)
        then 1 else 0
  {
  }

  lemma {:induction false} PhaseStep(cfg: Config, b: Bridge, e: Env)
    ensures var next := Step(cfg, b, e);
      && |next.sent| == |b.sent| + (if Accepts(b, e) then 1 else 0)
      && (next.phase == Done <==> b.phase == Done || TakesShutdown(b, e) || Abandoned(b, e))
      && (next.phase != b.phase && next.phase == Running <==> Connects(b, e))
  {
  }

  /** Over every run there is a wait for every failed attempt, every lost connection and every
      publish that could not be written, and for nothing else. */
  lemma {:induction false} RunFailures(cfg: Config, script: seq<Env>)
    ensures var b := Run(cfg, script);
      |b.waits| == Times(cfg, script, FailsToConnect) + Times(cfg, script, LosesConnection)
                   + Entries(b.ledger, PublishFailed)
  {
    hide Step, Handles;
    if script != [] {
      var n := |script| - 1;
      var b, e := Run(cfg, script[..n]), script[n];
      RunFailures(cfg, script[..n]);
      WaitsStep(cfg, b, e);
      EntriesStep(cfg, b, e, PublishFailed);
      PublishFailedIff(b, e);
    }
  }

  lemma PublishFailedIff(b: Bridge, e: Env)
    ensures Handles(WriteError)(b, e) && b.queue[0].Publish?
      <==> Taken(b, e).Some? && b.queue != [] && PublishFailed(Entry(b.queue[0], Taken(b, e).value))
    ensures Handles(WriteError)(b, e) ==> !FailsToConnect(b, e) && !LosesConnection(b, e)
  {
  }

  /** Over every run each outcome of sending is on the ledger as often as it happened. */
  lemma {:induction false} RunOutcomes(cfg: Config, script: seq<Env>)
    ensures var ledger := Run(cfg, script).ledger;
      && Entries(ledger, Met(Written)) == Times(cfg, script, Handles(Sent))
      && Entries(ledger, Met(Unencodable)) == Times(cfg, script, Handles(EncodeError))
      && Entries(ledger, Met(Unwritten)) == Times(cfg, script, Handles(WriteError))
      && Entries(ledger, Met(Obeyed)) == Times(cfg, script, TakesShutdown)
  {
    hide Step, Handles, TakesShutdown;
    if script != [] {
      var n := |script| - 1;
      var b, e := Run(cfg, script[..n]), script[n];
      RunOutcomes(cfg, script[..n]);
      EntriesStep(cfg, b, e, Met(Written));
      EntriesStep(cfg, b, e, Met(Unencodable));
      EntriesStep(cfg, b, e, Met(Unwritten));
      EntriesStep(cfg, b, e, Met(Obeyed));
      OneOutcome(b, e);
    }
  }

  lemma OneOutcome(b: Bridge, e: Env)
    ensures Handles(Sent)(b, e) <==> Taken(b, e) == Some(Written)
    ensures Handles(EncodeError)(b, e) <==> Taken(b, e) == Some(Unencodable)
    ensures Handles(WriteError)(b, e) <==> Taken(b, e) == Some(Unwritten)
    ensures TakesShutdown(b, e) <==> Taken(b, e) == Some(Obeyed)
    ensures Taken(b, e).Some? ==> b.queue != []
  {
  }

  /** Over every run the channel accepts exactly what is sent while the task lives, the channel is
      open and fewer than 1000 commands wait; there is a Connected for every established connection;
      and the task has ended exactly when it took a shutdown or was abandoned. */
  lemma {:induction false} RunPhases(cfg: Config, script: seq<Env>)
    ensures var b := Run(cfg, script);
      && |b.sent| == Times(cfg, script, Accepts)
      && StatusTimes(b.trace, Connected) == Times(cfg, script, Connects)
      && (b.phase == Done <==> Times(cfg, script, TakesShutdown) + Times(cfg, script, Abandoned) > 0)
  {
    hide Step, Accepts, Connects, TakesShutdown, Abandoned;
    if script == [] {
      assert [Disconnected][..0] == [];
    } else {
      var n := |script| - 1;
      var b, e := Run(cfg, script[..n]), script[n];
      RunPhases(cfg, script[..n]);
      PhaseStep(cfg, b, e);
      StepEnters(cfg, b, e);
      var next := Step(cfg, b, e);
      assert b.trace + [] == b.trace;
      StatusMore(b.trace, StatusOf(next.phase), Connected);
    }
  }

  /** A publish that cannot be written ends the connection; another command that cannot be does not. */
  lemma {:induction false} WriteErrorEnds(cfg: Config, script: seq<Env>)
    requires var b := Run(cfg, script); b.phase == Running && b.queue != [] && b.queue[0] != Shutdown
    ensures var b, after := Run(cfg, script), Run(cfg, script + [Receive(WriteError)]);
      && after.queue == b.queue[1..] && after.ledger == b.ledger + [Entry(b.queue[0], Unwritten)]
      && after.phase == (if b.queue[0].Publish? then Waiting else Running)
      && after.trace == b.trace + (if b.queue[0].Publish? then [Backoff] else [])
  {
    assert (script + [Receive(WriteError)])[..|script|] == script;
  }

  // ----- When nothing is lost -----

  /** A back-off ends with an ordinary command at the head of the queue. */
  ghost predicate WakesOnCommand(cfg: Config, script: seq<Env>, i: nat)
    requires i < |script|
  {
    var b := Run(cfg, script[..i]);
    script[i] == WaitElapsed && b.phase == Waiting && b.queue != [] && b.queue[0] != Shutdown
  }

  lemma TakeFate(b: Bridge, fate: Fate, wanted: Fate)
    requires b.queue != []
    ensures WithFate(Take(b, fate).ledger, wanted) == WithFate(b.ledger, wanted)
      + if fate == wanted then [b.queue[0]] else []
  {
    assert Take(b, fate).ledger[..|b.ledger|] == b.ledger;
  }

  lemma StepDiscards(cfg: Config, b: Bridge, e: Env)
    ensures WithFate(Step(cfg, b, e).ledger, Discarded)
            == WithFate(b.ledger, Discarded)
               + if e == WaitElapsed && b.phase == Waiting && b.queue != [] && b.queue[0] != Shutdown
                 then [b.queue[0]] else []
  {
    hide WithFate;
    if b.queue != [] {
      TakeFate(b, Discarded, Discarded);
      TakeFate(b, Obeyed, Discarded);
      TakeFate(b, Written, Discarded);
      TakeFate(b, Unencodable, Discarded);
      TakeFate(b, Unwritten, Discarded);
    }
    assert WithFate(b.ledger, Discarded) + [] == WithFate(b.ledger, Discarded);
  }

  /** The bridge discards no command exactly when no back-off ends with an ordinary
      command waiting at the head of the queue. */
  lemma {:induction false} NothingDiscardedIff(cfg: Config, script: seq<Env>)
    ensures WithFate(Run(cfg, script).ledger, Discarded) == []
            <==> forall i :: 0 <= i < |script| ==> !WakesOnCommand(cfg, script, i)
  {
    hide Step;
    if script != [] {
      var n := |script| - 1;
      var before := WithFate(Run(cfg, script[..n]).ledger, Discarded);
      NothingDiscardedIff(cfg, script[..n]);
      StepDiscards(cfg, Run(cfg, script[..n]), script[n]);
      SameWakes(cfg, script, n);
      if before == [] && !WakesOnCommand(cfg, script, n) {
        forall i | 0 <= i < |script| ensures !WakesOnCommand(cfg, script, i) {
          assert i < n ==> !WakesOnCommand(cfg, script[..n], i);
        }
      } else if before != [] {
        var i :| 0 <= i < n && WakesOnCommand(cfg, script[..n], i);
        assert WakesOnCommand(cfg, script, i);
      }
    }
  }

  lemma SameWakes(cfg: Config, script: seq<Env>, n: nat)
    requires n <= |script|
    ensures forall i :: 0 <= i < n ==> WakesOnCommand(cfg, script[..n], i) == WakesOnCommand(cfg, script, i)
  {
    forall i | 0 <= i < n ensures WakesOnCommand(cfg, script[..n], i) == WakesOnCommand(cfg, script, i) {
      assert script[..n][..i] == script[..i];
    }
  }

  /** A publish accepted while the bridge is backing off is lost. */
  lemma {:induction false} PublishLostInBackoff(cfg: Config, cmd: Command)
    requires cmd != Shutdown
    ensures Run(cfg, [Begin, AttemptFails, Send(cmd), WaitElapsed]).ledger == [Entry(cmd, Discarded)]
  {
    var script := [Begin, AttemptFails, Send(cmd), WaitElapsed];
    assert script[..3] == [Begin, AttemptFails, Send(cmd)];
    assert script[..3][..2] == [Begin, AttemptFails];
    assert script[..3][..2][..1] == [Begin];
    assert script[..3][..2][..1][..0] == [];
    assert Run(cfg, script[..3][..2][..1]) == Step(cfg, Initial(cfg), Begin);
    assert Run(cfg, script[..3][..2]) == Step(cfg, Run(cfg, [Begin]), AttemptFails);
  }
}

/** The task's own loops, run against a script of the environment's choices. */
module BridgeTasks {
  import opened Wrappers
  import opened BridgeProtocol

  datatype Exit = Graceful | Failed | Unfinished

  class BridgeTask {
    const cfg: Config
    const script: seq<Env>
    var pos: nat
    var status: Status
    ghost var shown: seq<Status>    // every value the status has had
    var queue: seq<Command>
    var closed: bool
    var retryInterval: nat
    var slept: seq<nat>         // the back-off sleeps, in order
    var wire: seq<Command>      // the packets written to the broker, over all connections

    /** What the script so far makes of the protocol. */
    ghost function Model(): Bridge
      requires pos <= |script|
      reads this
    {
      Run(cfg, script[..pos])
    }

    ghost predicate At(phase: Phase)
      reads this
    {
      && pos <= |script|
      && Model().phase == phase && status == StatusOf(phase)
      && queue == Model().queue && closed == Model().closed && retryInterval == Model().retry
      && slept == Model().waits && wire == WithFate(Model().ledger, Written)
      && shown == Model().trace
    }

    /** As `At`, but the caller still has to write the status and, after a failure, to sleep. */
    ghost predicate Ended(phase: Phase)
      reads this
    {
      && pos <= |script|
      && Model().phase == phase
      && queue == Model().queue && closed == Model().closed && retryInterval == Model().retry
      && (if phase == Waiting then slept + [retryInterval] else slept) == Model().waits
      && wire == WithFate(Model().ledger, Written)
      && shown + [StatusOf(phase)] == Model().trace
    }

    constructor (cfg: Config, script: seq<Env>)
      ensures this.cfg == cfg && this.script == script && pos == 0 && At(Spawned)
    {
      this.cfg, this.script := cfg, script;
      pos, status, queue, closed, retryInterval := 0, Disconnected, [], false, cfg.initial;
      slept, wire, shown := [], [], [Disconnected];
      new;
      assert script[..0] == [];
    }

    lemma Advance()
      requires pos < |script|
      ensures script[..pos + 1][..pos] == script[..pos]
      ensures Run(cfg, script[..pos + 1]) == Step(cfg, Run(cfg, script[..pos]), script[pos])
    {
      assert script[..pos + 1][..pos] == script[..pos];
    }

    /** What ends an await in each phase; anything else in the script leaves the task alone. */
    predicate Awaited(phase: Phase, e: Env)
      reads this
    {
      match phase
      case Spawned => e == Begin
      case Dialing => e == AttemptFails || e == Established
      case Running => e == ConnectionLost || (e.Receive? && queue != [])
      case Waiting => e == WaitElapsed
      case Done => false
    }

    /** An await point: producers run until the task has something to do. */
    method Await(phase: Phase) returns (e: Option<Env>)
      requires At(phase) && phase != Done
      modifies this`pos, this`queue, this`closed
      ensures At(phase) && pos >= old(pos)
      ensures e.None? ==> pos == |script|
      ensures e.Some? ==> pos < |script| && script[pos] == e.value && Awaited(phase, e.value)
    {
      hide Run, WithFate;
      while pos < |script| && !Awaited(phase, script[pos])
        invariant At(phase) && pos >= old(pos)
        decreases |script| - pos
      {
        Advance();
        match script[pos] {
          case Send(cmd) =>
            if !closed && |queue| < CHANNEL_CAPACITY {
              queue := queue + [cmd];
            }
          case CloseSenders =>
            closed := true;
          case _ =>
        }
        pos := pos + 1;
      }
      e := if pos < |script| then Some(script[pos]) else None;
    }

    method SetStatus(s: Status)
      modifies this`status, this`shown
      ensures status == s && shown == old(shown) + [s]
    {
      status, shown := s, shown + [s];
    }

    /** One connection: dialling, then the message loop until it ends. */
    method ConnectAndRun() returns (exit: Exit)
      requires At(Dialing)
      modifies this
      ensures pos <= |script| && pos >= old(pos)
      ensures exit == Unfinished ==> pos == |script| && (At(Dialing) || At(Running))
      ensures exit == Failed ==> Ended(Waiting)
      ensures exit == Graceful ==> Ended(Done)
      ensures exit != Unfinished ==> pos > old(pos)
    {
      hide Run, WithFate;
      var e := Await(Dialing);
      if e.None? {
        return Unfinished;
      }
      Advance();
      pos := pos + 1;
      if e.value == AttemptFails {
        return Failed;
      }
      SetStatus(Connected);
      exit := MessageLoop();
    }

    method MessageLoop() returns (exit: Exit)
      requires At(Running)
      modifies this`pos, this`queue, this`closed, this`wire
      ensures pos <= |script| && pos >= old(pos)
      ensures exit == Unfinished ==> pos == |script| && At(Running)
      ensures exit == Failed ==> Ended(Waiting)
      ensures exit == Graceful ==> Ended(Done)
    {
      hide Run, WithFate;
      while true
        invariant pos >= old(pos) && At(Running)
        decreases |script| - pos
      {
        var e := Await(Running);
        if e.None? {
          return Unfinished;
        }
        if e.value == ConnectionLost {
          Advance();
          pos := pos + 1;
          return Failed;
        }
        var next := TakeCommand(e.value.outcome);
        if next.Some? {
          return next.value;
        }
      }
    }

    /** The command branch of the message loop. */
    method TakeCommand(outcome: Outcome) returns (exit: Option<Exit>)
      requires At(Running) && queue != [] && pos < |script| && script[pos] == Receive(outcome)
      modifies this`pos, this`queue, this`wire
      ensures pos == old(pos) + 1
      ensures exit.None? ==> At(Running)
      ensures exit.Some? ==> exit.value != Unfinished && Ended(if exit.value == Failed then Waiting else Done)
    {
      hide Run, WithFate;
      Advance();
      var cmd := queue[0];
      TakeFate(Model(), if cmd == Shutdown then Obeyed else FateOf(outcome), Written);
      pos, queue := pos + 1, queue[1..];
      if cmd == Shutdown {
        return Some(Graceful);
      }
      if outcome == Sent {
        wire := wire + [cmd];
      }
      exit := if cmd.Publish? && outcome == WriteError then Some(Failed) else None;
    }

    /** The task from its first scheduling on: whatever the script, the fields end up as the
        protocol says. */
    method ConnectionLoop() returns (finished: bool)
      requires pos == 0 && At(Spawned)
      modifies this
      ensures pos <= |script|
      ensures finished ==> At(Done)
      ensures !finished ==> pos == |script| && exists phase :: phase != Done && At(phase)
    {
      hide Run, WithFate;
      var e := Await(Spawned);
      if e.None? {
        return false;
      }
      Advance();
      pos := pos + 1;
      SetStatus(Connecting);
      while true
        invariant At(Dialing)
        decreases |script| - pos
      {
        var exit := ConnectAndRun();
        if exit == Unfinished {
          return false;
        }
        if exit == Graceful {
          SetStatus(Disconnected);
          return true;
        }
        exit := BackOff();
        if exit != Failed {
          return exit == Graceful;
        }
      }
    }

    /** Sleeping after a failure, and what follows; `Failed` asks for another attempt. */
    method BackOff() returns (exit: Exit)
      requires Ended(Waiting)
      modifies this
      ensures pos <= |script| && pos >= old(pos)
      ensures exit == Unfinished ==> pos == |script| && At(Waiting)
      ensures exit == Graceful ==> At(Done)
      ensures exit == Failed ==> At(Dialing) && pos > old(pos)
    {
      hide Run, WithFate, Step;
      SetStatus(Backoff);
      slept := slept + [retryInterval];
      var e := Await(Waiting);
      if e.None? {
        return Unfinished;
      }
      retryInterval := Min(retryInterval * 2, cfg.max);
      var shutdown := TryReceive();
      SetStatus(if shutdown then Disconnected else Connecting);
      exit := if shutdown then Graceful else Failed;
    }

    /** `try_recv` after a back-off: true on a shutdown or a closed, empty channel; any other
        command at the head is dropped. */
    method TryReceive() returns (shutdown: bool)
      requires pos < |script| && script[pos] == WaitElapsed
      requires Model().phase == Waiting && queue == Model().queue && closed == Model().closed
      requires retryInterval == Min(Model().retry * 2, cfg.max)
      requires slept == Model().waits && wire == WithFate(Model().ledger, Written) && shown == Model().trace
      modifies this`pos, this`queue
      ensures pos == old(pos) + 1 && Ended(if shutdown then Done else Dialing)
    {
      hide Run, WithFate;
      Advance();
      if queue == [] {
        pos := pos + 1;
        return closed;
      }
      shutdown := queue[0] == Shutdown;
      TakeFate(Model(), if shutdown then Obeyed else Discarded, Written);
      pos, queue := pos + 1, queue[1..];
    }
  }
}
