/** The two relays and the goroutine that supervises them, in every interleaving
    (internal/bridge/bridge.go, `Bridge` and `relay`; internal/server/idleconn.go).

    One I/O operation is three atomic steps: arm the deadline (client side only, under the wrapper's
    mutex), enter the system call, leave it. An operation entered when its deadline has expired
    fails; one already in progress may still succeed or fail. What a successful read leads to is
    chosen freely, which covers every input and every processor state. */
module BridgeRace {
  import opened IdleConn
  import opened Relay

  const PAST := 1_000_000_000

  datatype Who = FromBackend | FromClient
  datatype Op = Read | Reply | Forward

  /** What the chunk just read still requires. */
  datatype Todo = Todo(reply: bool, forward: bool, escaped: bool, failed: bool)

  datatype Pc =
    | Next(op: Op, todo: Todo)
    | Ready(op: Op, todo: Todo)
    | Busy(op: Op, todo: Todo, doomed: bool)
    | Finished(cause: Cause)
    | Sent

  datatype Stage = AwaitFirst | CutBackend | CutClient | AwaitSecond | Reset | Returned

  datatype World = World(
    stage: Stage,
    first: Cause,
    relays: Who -> Pc,
    queue: seq<Cause>,
    log: seq<Cause>,          // every cause ever sent, in order
    client: State,
    backendBy: Deadline)

  datatype Result = Failed | Done(todo: Todo)

  datatype Action =
    | ArmIt(who: Who, now: int)
    | Enter(who: Who, now: int)
    | Leave(who: Who, result: Result)
    | Send(who: Who)
    | Supervise

  const NOTHING := Todo(false, false, false, false)

  function CloseCause(who: Who): Cause { if who == FromBackend then BackendClosed else ClientClosed }

  /** Whether the operation is on the client connection. */
  predicate OnClient(who: Who, op: Op) { (who == FromClient) == (op != Forward) }

  function DeadlineOf(w: World, who: Who, op: Op): Deadline {
    if !OnClient(who, op) then w.backendBy else if op == Read then w.client.readBy else w.client.writeBy
  }

  function AfterForward(who: Who, t: Todo): Pc {
    if t.escaped then Finished(UserEscaped)
    else if t.failed then Finished(CloseCause(who))
    else Next(Read, NOTHING)
  }

  function AfterReply(who: Who, t: Todo): Pc { if t.forward then Next(Forward, t) else AfterForward(who, t) }

  function AfterRead(who: Who, t: Todo): Pc { if t.reply then Next(Reply, t) else AfterReply(who, t) }

  function Left(who: Who, op: Op, todo: Todo, result: Result): Pc {
    match op
    case Read => if result.Failed? then Finished(CloseCause(who)) else AfterRead(who, result.todo)
    case Reply => if result.Failed? then Finished(Error) else AfterReply(who, todo)
    case Forward => if result.Failed? then Finished(Error) else AfterForward(who, todo)
  }

  function Set(relays: Who -> Pc, who: Who, pc: Pc): Who -> Pc { w => if w == who then pc else relays(w) }

  predicate Enabled(w: World, a: Action) {
    match a
    case ArmIt(who, now) => w.relays(who).Next? && now > PAST
    case Enter(who, now) => w.relays(who).Ready? && now > PAST
    case Leave(who, result) =>
      && w.relays(who).Busy?
      && (w.relays(who).doomed ==> result == Failed)
      // only the client side watches for the escape AID
      && (result.Done? && result.todo.escaped ==> who == FromClient)
    case Send(who) => w.relays(who).Finished?
    case Supervise =>
      match w.stage
      case AwaitFirst => w.queue != []
      case AwaitSecond => w.queue != []
      case Returned => false
      case _ => true
  }

  function Apply(w: World, a: Action): World
    requires Enabled(w, a)
  {
    match a
    case ArmIt(who, now) =>
      var pc := w.relays(who);
      w.(relays := Set(w.relays, who, Ready(pc.op, pc.todo)),
         client := if OnClient(who, pc.op) then Armed(w.client, now) else w.client)
    case Enter(who, now) =>
      var pc := w.relays(who);
      var d := DeadlineOf(w, who, pc.op);
      w.(relays := Set(w.relays, who, Busy(pc.op, pc.todo, d.At? && d.t <= now)))
    case Leave(who, result) =>
      var pc := w.relays(who);
      w.(relays := Set(w.relays, who, Left(who, pc.op, pc.todo, result)))
    case Send(who) =>
      var c := w.relays(who).cause;
      w.(relays := Set(w.relays, who, Sent), queue := w.queue + [c], log := w.log + [c])
    case Supervise =>
      match w.stage
      case AwaitFirst => w.(stage := CutBackend, first := w.queue[0], queue := w.queue[1..])
      case CutBackend => w.(stage := CutClient, backendBy := At(PAST))
      case CutClient => w.(stage := AwaitSecond, client := Explicit(w.client, At(PAST)))
      case AwaitSecond => w.(stage := Reset, queue := w.queue[1..])
      case Reset => w.(stage := Returned, client := Explicit(w.client, Never))
      case Returned => w
  }

  /** Both relays about to read, on a client connection under some regime and no explicit deadline. */
  function Start(client: State): World {
    World(AwaitFirst, Error, _ => Next(Read, NOTHING), [], [], client, Never)
  }

  predicate Legal(w: World, acts: seq<Action>)
    decreases |acts|, 0
  {
    acts == [] || (Legal(w, acts[..|acts| - 1]) && Enabled(Exec(w, acts[..|acts| - 1]), acts[|acts| - 1]))
  }

  function Exec(w: World, acts: seq<Action>): World
    requires Legal(w, acts)
    decreases |acts|, 1
  {
    if acts == [] then w else Apply(Exec(w, acts[..|acts| - 1]), acts[|acts| - 1])
  }

  // ---------------------------------------------------------------- invariant

  function Count(w: World): nat {
    (if w.relays(FromBackend).Sent? then 1 else 0) + (if w.relays(FromClient).Sent? then 1 else 0)
  }

  predicate Interrupted(w: World) { w.stage == AwaitSecond || w.stage == Reset }

  predicate Inv(w: World, regime: State) {
    && w.client.idle == regime.idle && w.client.hard == regime.hard
    && w.client.manual == Interrupted(w)
    && (Interrupted(w) ==> w.client.readBy == At(PAST) && w.client.writeBy == At(PAST))
    && (w.stage != AwaitFirst && w.stage != CutBackend ==> w.backendBy == At(PAST))
    && |w.log| == Count(w)
    && (w.stage == AwaitFirst ==> w.queue == w.log)
    && (w.stage in {CutBackend, CutClient, AwaitSecond} ==> |w.log| > 0 && w.queue == w.log[1..])
    && (w.stage in {Reset, Returned} ==> |w.log| == 2 && w.queue == [])
    && (w.stage != AwaitFirst ==> w.first == w.log[0])
    && (w.stage == Returned ==> w.client == State(regime.idle, regime.hard, false, Never, Never))
  }

  lemma StepKeepsInv(w: World, a: Action, regime: State)
    requires Inv(w, regime) && Enabled(w, a)
    ensures Inv(Apply(w, a), regime)
  {
  }

  lemma {:induction false} ReachableInv(client: State, acts: seq<Action>)
    requires !client.manual && Legal(Start(client), acts)
    ensures Inv(Exec(Start(client), acts), client)
  {
    if acts != [] {
      ReachableInv(client, acts[..|acts| - 1]);
      StepKeepsInv(Exec(Start(client), acts[..|acts| - 1]), acts[|acts| - 1], client);
    }
  }

  // ---------------------------------------------------------------- what Bridge promises

  /** In every interleaving, from the moment the client's deadline is cut until it is reset, no
      auto-arm replaces it: every operation entered in between is doomed. */
  lemma InterruptIsNotOverwritten(client: State, acts: seq<Action>, who: Who, op: Op, now: int)
    requires !client.manual && Legal(Start(client), acts) && now > PAST
    ensures var w := Exec(Start(client), acts);
            Interrupted(w) ==>
              DeadlineOf(w, who, op) == At(PAST) && Armed(w.client, now) == w.client
  {
    ReachableInv(client, acts);
  }

  /** When Bridge returns, both relays have ended, the cause is the first one sent, and the client
      connection is back under the regime it came with: no deadline, auto-arming on. */
  lemma BridgeReturnsFirstCause(client: State, acts: seq<Action>)
    requires !client.manual && Legal(Start(client), acts)
    ensures var w := Exec(Start(client), acts);
            w.stage == Returned ==>
              && |w.log| == 2 && w.first == w.log[0]
              && w.relays(FromBackend).Sent? && w.relays(FromClient).Sent?
              && w.client == State(client.idle, client.hard, false, Never, Never)
  {
    ReachableInv(client, acts);
  }

  /** Steps a relay can still take once both connections are interrupted. */
  function Left1(pc: Pc): nat {
    match pc
    case Busy(_, _, doomed) => if doomed then 2 else 5
    case Next(_, _) => 4
    case Ready(_, _) => 3
    case Finished(_) => 1
    case Sent => 0
  }

  function StepsLeft(w: World): nat { Left1(w.relays(FromBackend)) + Left1(w.relays(FromClient)) }

  lemma InterruptedStepCounts(w: World, a: Action, regime: State)
    requires Inv(w, regime) && w.stage == AwaitSecond && Enabled(w, a) && !a.Supervise?
    ensures Apply(w, a).stage == AwaitSecond
    ensures StepsLeft(Apply(w, a)) < StepsLeft(w)
  {
  }

  /** After the interrupt the relays take at most ten steps between them, whatever the peers do, and
      Bridge is never stuck waiting for one that cannot move. */
  lemma {:induction false} TeardownIsBounded(client: State, acts: seq<Action>, more: seq<Action>)
    requires !client.manual && Legal(Start(client), acts) && Exec(Start(client), acts).stage == AwaitSecond
    requires Legal(Exec(Start(client), acts), more)
    requires forall i :: 0 <= i < |more| ==> !more[i].Supervise?
    ensures var w := Exec(Exec(Start(client), acts), more);
            w.stage == AwaitSecond && |more| + StepsLeft(w) <= StepsLeft(Exec(Start(client), acts)) <= 10
    ensures Inv(Exec(Exec(Start(client), acts), more), client)
  {
    ReachableInv(client, acts);
    if more != [] {
      var u := more[..|more| - 1];
      TeardownIsBounded(client, acts, u);
      var w := Exec(Exec(Start(client), acts), u);
      InterruptedStepCounts(w, more[|more| - 1], client);
      StepKeepsInv(w, more[|more| - 1], client);
    }
  }

  /** Until Bridge returns something can always move; while it waits for the second relay, some relay
      can move or the result it waits for is already there. */
  lemma NeverStuck(client: State, acts: seq<Action>)
    requires !client.manual && Legal(Start(client), acts)
    ensures var w := Exec(Start(client), acts);
            && (w.stage != Returned ==> exists a :: Enabled(w, a))
            && (w.stage == AwaitSecond && w.queue == [] ==> exists a: Action :: Enabled(w, a) && !a.Supervise?)
  {
    ReachableInv(client, acts);
    var w := Exec(Start(client), acts);
    if w.stage != Returned && !Enabled(w, Supervise) {
      var who := if w.relays(FromBackend).Sent? then FromClient else FromBackend;
      var a := match w.relays(who)
               case Next(_, _) => ArmIt(who, PAST + 1)
               case Ready(_, _) => Enter(who, PAST + 1)
               case Busy(_, _, _) => Leave(who, Failed)
               case Finished(_) => Send(who)
               case Sent => Supervise;
      assert Enabled(w, a);
    }
  }

  // ---------------------------------------------------------------- what decides the cause

  /** The results of one relay's operations, oldest first. */
  function Results(acts: seq<Action>, who: Who): seq<Result> {
    if acts == [] then []
    else
      var a := acts[|acts| - 1];
      Results(acts[..|acts| - 1], who) + (if a.Leave? && a.who == who then [a.result] else [])
  }

  /** Who has handed over a cause, in order. */
  function Senders(acts: seq<Action>): seq<Who> {
    if acts == [] then []
    else
      var a := acts[|acts| - 1];
      Senders(acts[..|acts| - 1]) + (if a.Send? then [a.who] else [])
  }

  /** A read that returned, with the results of the writes its chunk required. */
  predicate Handled(chunk: seq<Result>) {
    && chunk != [] && chunk[0].Done?
    && |chunk| == 1 + (if chunk[0].todo.reply then 1 else 0) + (if chunk[0].todo.forward then 1 else 0)
  }

  /** Where the results of the latest chunk begin: each read starts one once the chunk before it has been
      handled. */
  function ChunkStart(rs: seq<Result>): (k: nat)
    ensures k <= |rs| && (rs != [] ==> k < |rs|)
  {
    if rs == [] then 0
    else
      var u := rs[..|rs| - 1];
      if Handled(u[ChunkStart(u)..]) then |u| else ChunkStart(u)
  }

  function LastChunk(rs: seq<Result>): seq<Result> { rs[ChunkStart(rs)..] }

  predicate AllDone(chunk: seq<Result>) { forall i :: 0 <= i < |chunk| ==> chunk[i].Done? }

  /** The read failed with nothing read, or with a chunk that was handled and had no escape. */
  predicate ReadFailed(c: seq<Result>) {
    c == [Failed] || (Handled(c) && AllDone(c) && c[0].todo.failed && !c[0].todo.escaped)
  }

  /** The chunk read had the escape in it, and what it required was written. */
  predicate Escaped(c: seq<Result>) { Handled(c) && AllDone(c) && c[0].todo.escaped }

  /** A write the chunk required was refused. */
  predicate WriteFailed(c: seq<Result>) { |c| > 1 && c[|c| - 1].Failed? }

  /** A relay whose last chunk went like this ends with this cause. */
  predicate Decides(who: Who, c: seq<Result>, cause: Cause) {
    && (cause == ClientClosed <==> who == FromClient && ReadFailed(c))
    && (cause == BackendClosed <==> who == FromBackend && ReadFailed(c))
    && (cause == UserEscaped <==> who == FromClient && Escaped(c))
    && (cause == Error <==> WriteFailed(c))
  }

  predicate Ended(pc: Pc) { pc.Finished? || pc.Sent? }

  /** Nothing of the last chunk is left to write, and it did not end the relay. */
  predicate Over(c: seq<Result>) {
    c == [] || (Handled(c) && AllDone(c) && !c[0].todo.escaped && !c[0].todo.failed)
  }

  /** This write is the one the last chunk requires next. */
  predicate Owes(who: Who, op: Op, todo: Todo, c: seq<Result>) {
    && c != [] && AllDone(c) && c[0].todo == todo && (todo.escaped ==> who == FromClient)
    && op == (if todo.reply && |c| == 1 then Reply else Forward)
    && |c| < 1 + (if todo.reply then 1 else 0) + (if todo.forward then 1 else 0)
  }

  /** What a relay is doing follows from the results of its last chunk. */
  predicate Tracks(who: Who, pc: Pc, c: seq<Result>) {
    match pc
    case Finished(cause) => Decides(who, c, cause)
    case Sent => ReadFailed(c) || Escaped(c) || WriteFailed(c)
    case _ => if pc.op == Read then Over(c) else Owes(who, pc.op, pc.todo, c)
  }

  lemma ChunkSnoc(rs: seq<Result>, r: Result)
    ensures LastChunk(rs + [r]) == if LastChunk(rs) == [] || Handled(LastChunk(rs)) then [r] else LastChunk(rs) + [r]
  {
    assert (rs + [r])[..|rs|] == rs;
  }

  lemma ReadTracks(who: Who, todo: Todo, r: Result)
    requires r.Done? && r.todo.escaped ==> who == FromClient
    ensures Tracks(who, Left(who, Read, todo, r), [r])
  {
  }

  lemma WriteTracks(who: Who, op: Op, todo: Todo, r: Result, c: seq<Result>)
    requires op != Read && Owes(who, op, todo, c)
    ensures !Handled(c) && Tracks(who, Left(who, op, todo, r), c + [r])
  {
    assert (c + [r])[|c|] == r && (c + [r])[0] == c[0];
  }

  lemma ResultsSnoc(u: seq<Action>, a: Action, who: Who)
    ensures Results(u + [a], who) == if a.Leave? && a.who == who then Results(u, who) + [a.result] else Results(u, who)
  {
    assert (u + [a])[..|u|] == u;
  }

  lemma StepTracks(w: World, a: Action, who: Who, rs: seq<Result>)
    requires Enabled(w, a) && Tracks(who, w.relays(who), LastChunk(rs))
    ensures Tracks(who, Apply(w, a).relays(who), LastChunk(if a.Leave? && a.who == who then rs + [a.result] else rs))
  {
    if a.Leave? && a.who == who {
      var pc := w.relays(who);
      ChunkSnoc(rs, a.result);
      if pc.op == Read {
        ReadTracks(who, pc.todo, a.result);
      } else {
        WriteTracks(who, pc.op, pc.todo, a.result, LastChunk(rs));
      }
    }
  }

  lemma {:induction false} ResultsTrack(client: State, acts: seq<Action>, who: Who)
    requires Legal(Start(client), acts)
    ensures Tracks(who, Exec(Start(client), acts).relays(who), LastChunk(Results(acts, who)))
  {
    if acts == [] {
      assert LastChunk([]) == [];
    } else {
      var u, a := acts[..|acts| - 1], acts[|acts| - 1];
      ResultsTrack(client, u, who);
      StepTracks(Exec(Start(client), u), a, who, Results(u, who));
      assert acts == u + [a];
      ResultsSnoc(u, a, who);
    }
  }

  lemma FinishedEarlier(client: State, u: seq<Action>, a: Action, who: Who)
    requires Legal(Start(client), u + [a]) && Exec(Start(client), u).relays(who).Sent?
    ensures Legal(Start(client), u) && Exec(Start(client), u + [a]).relays(who).Sent?
    ensures Results(u + [a], who) == Results(u, who)
  {
    assert (u + [a])[..|u|] == u;
  }

  /** Every cause handed over is the one decided by the results of the relay that sent it. */
  predicate LogDecided(client: State, acts: seq<Action>)
    requires Legal(Start(client), acts)
  {
    var w, senders := Exec(Start(client), acts), Senders(acts);
    && |w.log| == |senders|
    && forall i :: 0 <= i < |senders| ==>
         w.relays(senders[i]).Sent? && Decides(senders[i], LastChunk(Results(acts, senders[i])), w.log[i])
  }

  lemma LogStep(client: State, u: seq<Action>, a: Action)
    requires Legal(Start(client), u + [a]) && Legal(Start(client), u) && LogDecided(client, u)
    ensures LogDecided(client, u + [a])
  {
    var before, senders := Senders(u), Senders(u + [a]);
    assert (u + [a])[..|u|] == u;
    forall i | 0 <= i < |before| ensures
        Exec(Start(client), u + [a]).relays(before[i]).Sent? && Results(u + [a], before[i]) == Results(u, before[i])
    {
      FinishedEarlier(client, u, a, before[i]);
    }
    if a.Send? {
      assert senders == before + [a.who];
      ResultsTrack(client, u, a.who);
      ResultsSnoc(u, a, a.who);
    } else {
      assert senders == before;
    }
  }

  lemma {:induction false} LogIsDecided(client: State, acts: seq<Action>)
    requires Legal(Start(client), acts)
    ensures LogDecided(client, acts)
  {
    if acts != [] {
      LogIsDecided(client, acts[..|acts| - 1]);
      assert acts == acts[..|acts| - 1] + [acts[|acts| - 1]];
      LogStep(client, acts[..|acts| - 1], acts[|acts| - 1]);
    }
  }

  /** Over every interleaving the cause a relay ends with follows from what its own reads and writes
      returned: a close, its own side's, exactly when its last read failed and no escape was read with
      it; an escape exactly when the client's last chunk held one and its writes went through; an error
      exactly when a write was refused. It ends when one of these has happened, and not before. */
  lemma CauseIsDecided(client: State, acts: seq<Action>, who: Who)
    requires Legal(Start(client), acts)
    ensures var pc, c := Exec(Start(client), acts).relays(who), LastChunk(Results(acts, who));
            && (pc.Finished? ==> Decides(who, c, pc.cause))
            && (Ended(pc) <==> ReadFailed(c) || Escaped(c) || WriteFailed(c))
  {
    ResultsTrack(client, acts, who);
  }

  /** The cause Bridge returns is the one so decided for the relay that was first to hand its cause over. */
  lemma BridgeReturnsDecidedCause(client: State, acts: seq<Action>)
    requires !client.manual && Legal(Start(client), acts)
    ensures var w, senders := Exec(Start(client), acts), Senders(acts);
            w.stage == Returned ==>
              |senders| == 2 && senders[0] != senders[1]
              && Decides(senders[0], LastChunk(Results(acts, senders[0])), w.first)
  {
    LogIsDecided(client, acts);
    ReachableInv(client, acts);
    SendersDiffer(client, acts);
  }

  lemma {:induction false} SendersDiffer(client: State, acts: seq<Action>)
    requires Legal(Start(client), acts)
    ensures forall i, j :: 0 <= i < j < |Senders(acts)| ==> Senders(acts)[i] != Senders(acts)[j]
  {
    if acts != [] {
      SendersDiffer(client, acts[..|acts| - 1]);
      LogIsDecided(client, acts[..|acts| - 1]);
    }
  }

  // ---------------------------------------------------------------- the client's idle limit

  predicate UsesClient(who: Who, op: Op) {
    (who == FromClient && op in {Read, Reply}) || (who == FromBackend && op == Forward)
  }

  /** The reads and writes of the client connection that have armed it: the client's relay reads and
      answers there, the backend's relay writes there. */
  function ClientArms(client: State, acts: seq<Action>): seq<int>
    requires Legal(Start(client), acts)
  {
    if acts == [] then []
    else
      var u, a := acts[..|acts| - 1], acts[|acts| - 1];
      ClientArms(client, u) +
      (if a.ArmIt? && UsesClient(a.who, Exec(Start(client), u).relays(a.who).op) then [a.now] else [])
  }

  lemma ArmedSnoc(s: State, times: seq<int>, now: int)
    ensures ArmedAt(s, times + [now]) == Armed(ArmedAt(s, times), now)
  {
    assert (times + [now])[..|times|] == times;
  }

  lemma {:induction false} ClientIsArmedByItsUse(client: State, acts: seq<Action>)
    requires !client.manual && Legal(Start(client), acts)
    ensures var w := Exec(Start(client), acts);
            w.stage in {AwaitFirst, CutBackend, CutClient} ==> w.client == ArmedAt(client, ClientArms(client, acts))
  {
    if acts != [] {
      var u, a := acts[..|acts| - 1], acts[|acts| - 1];
      ClientIsArmedByItsUse(client, u);
      var times := ClientArms(client, u);
      if a.ArmIt? { ArmedSnoc(client, times, a.now); }
      assert times + [] == times;
    }
  }

  /** Entering an operation dooms it exactly when the idle window has run out since the client was last
      used, and only if the operation is on the client. */
  predicate DoomedByIdling(w: World, who: Who, now: int, idle: int, arms: seq<int>)
    requires Enabled(w, Enter(who, now))
  {
    Apply(w, Enter(who, now)).relays(who).doomed <==>
      UsesClient(who, w.relays(who).op) && arms != [] && idle > 0 && arms[|arms| - 1] + idle <= now
  }

  lemma EnteredAt(w: World, client: State, who: Who, now: int, idle: int, arms: seq<int>)
    requires Enabled(w, Enter(who, now)) && !client.manual && w.backendBy == Never
    requires w.client == ArmedAt(Window(client, idle), arms) && (UsesClient(who, w.relays(who).op) ==> arms != [])
    ensures DoomedByIdling(w, who, now, idle, arms)
  {
    if arms != [] { WindowArmsExactly(client, idle, arms); }
  }

  /** Until a relay has ended, an operation on the client is doomed exactly when a whole idle window has
      passed since the last use of that connection, in either direction, and never under a window of
      zero; one on the backend is never doomed. */
  lemma IdleLimitIsExact(client: State, idle: int, acts: seq<Action>, who: Who, now: int)
    requires !client.manual && Legal(Start(Window(client, idle)), acts)
    requires var w := Exec(Start(Window(client, idle)), acts); w.stage == AwaitFirst && Enabled(w, Enter(who, now))
    ensures var c := Window(client, idle);
            DoomedByIdling(Exec(Start(c), acts), who, now, idle, ClientArms(c, acts))
  {
    var c := Window(client, idle);
    ClientIsArmedByItsUse(c, acts);
    ReadyIsArmed(c, acts, who);
    BackendHasNoDeadline(c, acts);
    EnteredAt(Exec(Start(c), acts), client, who, now, idle, ClientArms(c, acts));
  }

  lemma {:induction false} ReadyIsArmed(client: State, acts: seq<Action>, who: Who)
    requires Legal(Start(client), acts)
    ensures var pc := Exec(Start(client), acts).relays(who);
            (pc.Ready? || pc.Busy?) && UsesClient(who, pc.op) ==> ClientArms(client, acts) != []
  {
    if acts != [] { ReadyIsArmed(client, acts[..|acts| - 1], who); }
  }

  lemma {:induction false} BackendHasNoDeadline(client: State, acts: seq<Action>)
    requires Legal(Start(client), acts)
    ensures Exec(Start(client), acts).stage in {AwaitFirst, CutBackend} ==> Exec(Start(client), acts).backendBy == Never
  {
    if acts != [] { BackendHasNoDeadline(client, acts[..|acts| - 1]); }
  }
}
