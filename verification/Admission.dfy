/** Connection admission: the limiter shared by all listeners (internal/server/limiter.go), who takes
    and returns its slots (internal/server/server.go, `Serve` and `handle`), and which error brings
    the process down (`ServeAll`). */
module Admission {
  import opened Prelude

  /** A remote address: its host part, or "" when it cannot be parsed. */
  datatype Addr = Addr(host: string)

  datatype Limiter = Limiter(cap: nat, maxPerIP: int, held: nat, perIP: map<string, int>)

  function InUse(l: Limiter, key: string): int { if key in l.perIP then l.perIP[key] else 0 }

  /** Whether a connection takes a per-IP slot at all. */
  predicate Tracked(maxPerIP: int, addr: Addr, trusted: bool) { maxPerIP > 0 && !trusted && addr.host != "" }

  predicate Admits(l: Limiter, addr: Addr, trusted: bool) {
    !Tracked(l.maxPerIP, addr, trusted) || InUse(l, addr.host) < l.maxPerIP
  }

  function Admitted(l: Limiter, addr: Addr, trusted: bool): Limiter {
    if Tracked(l.maxPerIP, addr, trusted) && Admits(l, addr, trusted)
    then l.(perIP := l.perIP[addr.host := InUse(l, addr.host) + 1])
    else l
  }

  function ReleasedIP(l: Limiter, addr: Addr, trusted: bool): Limiter {
    if !Tracked(l.maxPerIP, addr, trusted) then l
    else if InUse(l, addr.host) <= 1 then l.(perIP := l.perIP - {addr.host})
    else l.(perIP := l.perIP[addr.host := InUse(l, addr.host) - 1])
  }

  class ConnLimiter {
    const cap: nat
    const maxPerIP: int
    var held: nat
    var perIP: map<string, int>

    function Snapshot(): Limiter
      reads this
    {
      Limiter(cap, maxPerIP, held, perIP)
    }

    constructor (maxConns: nat, maxPerIP: int)
      ensures Snapshot() == Limiter(maxConns, maxPerIP, 0, map[])
    {
      cap, this.maxPerIP, held, perIP := maxConns, maxPerIP, 0, map[];
    }

    /** One attempt to send on the semaphore channel; false means the caller would block. */
    method TryAcquire() returns (ok: bool)
      modifies this`held
      ensures ok == (old(held) < cap)
      ensures held == old(held) + (if ok then 1 else 0)
    {
      if held >= cap { return false; }
      held := held + 1;
      return true;
    }

    /** One attempt to receive from it; false means the caller would block. */
    method TryReleaseGlobal() returns (ok: bool)
      modifies this`held
      ensures ok == (old(held) > 0)
      ensures held == old(held) - (if ok then 1 else 0)
    {
      if held == 0 { return false; }
      held := held - 1;
      return true;
    }

    method AdmitIP(addr: Addr, trusted: bool) returns (ok: bool)
      modifies this`perIP
      ensures ok == Admits(old(Snapshot()), addr, trusted)
      ensures Snapshot() == Admitted(old(Snapshot()), addr, trusted)
    {
      if maxPerIP <= 0 || trusted { return true; }
      var key := addr.host;
      if key == "" { return true; }
      var n := if key in perIP then perIP[key] else 0;
      if n >= maxPerIP { return false; }
      perIP := perIP[key := n + 1];
      return true;
    }

    method ReleaseIP(addr: Addr, trusted: bool)
      modifies this`perIP
      ensures Snapshot() == ReleasedIP(old(Snapshot()), addr, trusted)
    {
      if maxPerIP <= 0 || trusted { return; }
      var key := addr.host;
      if key == "" { return; }
      var n := if key in perIP then perIP[key] else 0;
      if n <= 1 {
        perIP := perIP - {key};
      } else {
        perIP := perIP[key := n - 1];
      }
    }
  }

  // ---------------------------------------------------------------- the serving process

  datatype Failure = Genuine(listener: nat, code: int) | ListenerClosed

  /** An accept loop between two atomic steps. */
  datatype Loop =
    | Acquiring
    | Accepting                                  // holds a slot
    | Screening(addr: Addr, trusted: bool)       // holds a slot, connection accepted
    | Rejecting                                  // holds a slot, over the per-IP cap
    | Failing(error: Failure)                    // holds a slot, Accept failed
    | Recording(error: Failure)                  // slot returned
    | Stopped

  datatype Phase = Serving | Closing | ReturningSlot

  /** A handler goroutine; the trust decision travels with it. */
  datatype Handler = Handler(addr: Addr, trusted: bool, phase: Phase)

  datatype Process = Process(
    limiter: Limiter,
    loops: seq<Loop>,
    handlers: map<nat, Handler>,
    closed: bool,
    first: seq<Failure>)                         // empty until the sync.Once has fired

  datatype Event =
    | Acquire(i: nat)
    | Accept(i: nat, addr: Addr, trusted: bool)
    | AcceptFails(i: nat, code: int, shutdown: bool)   // shutdown: the error our own Close provokes
    | Screen(i: nat, id: nat)
    | Reject(i: nat)
    | GiveBack(i: nat)
    | Record(i: nat)
    | EndHandler(id: nat)                        // Handle returned or panicked; the conn is closed
    | FreeIP(id: nat)
    | FreeSlot(id: nat)

  predicate Holds(l: Loop) { l.Accepting? || l.Screening? || l.Rejecting? || l.Failing? }

  predicate Enabled(p: Process, e: Event) {
    match e
    case Acquire(i) => i < |p.loops| && p.loops[i].Acquiring? && p.limiter.held < p.limiter.cap
    case Accept(i, _, _) => i < |p.loops| && p.loops[i].Accepting?
    case AcceptFails(i, _, shutdown) => i < |p.loops| && p.loops[i].Accepting? && (shutdown ==> p.closed)
    case Screen(i, id) => i < |p.loops| && p.loops[i].Screening? && id !in p.handlers
    case Reject(i) => i < |p.loops| && p.loops[i].Rejecting? && p.limiter.held > 0
    case GiveBack(i) => i < |p.loops| && p.loops[i].Failing? && p.limiter.held > 0
    case Record(i) => i < |p.loops| && p.loops[i].Recording?
    case EndHandler(id) => id in p.handlers && p.handlers[id].phase == Serving
    case FreeIP(id) => id in p.handlers && p.handlers[id].phase == Closing
    case FreeSlot(id) => id in p.handlers && p.handlers[id].phase == ReturningSlot && p.limiter.held > 0
  }

  function Apply(p: Process, e: Event): Process
    requires Enabled(p, e)
  {
    match e
    case Acquire(i) =>
      p.(limiter := p.limiter.(held := p.limiter.held + 1), loops := p.loops[i := Accepting])
    case Accept(i, addr, trusted) => p.(loops := p.loops[i := Screening(addr, trusted)])
    case AcceptFails(i, code, shutdown) =>
      p.(loops := p.loops[i := Failing(if shutdown then ListenerClosed else Genuine(i, code))])
    case Screen(i, id) =>
      var l := p.loops[i];
      if Admits(p.limiter, l.addr, l.trusted) then
        p.(limiter := Admitted(p.limiter, l.addr, l.trusted),
           loops := p.loops[i := Acquiring],
           handlers := p.handlers[id := Handler(l.addr, l.trusted, Serving)])
      else p.(loops := p.loops[i := Rejecting])
    case Reject(i) =>
      p.(limiter := p.limiter.(held := p.limiter.held - 1), loops := p.loops[i := Acquiring])
    case GiveBack(i) =>
      p.(limiter := p.limiter.(held := p.limiter.held - 1), loops := p.loops[i := Recording(p.loops[i].error)])
    case Record(i) =>
      if p.first == [] then p.(loops := p.loops[i := Stopped], first := [p.loops[i].error], closed := true)
      else p.(loops := p.loops[i := Stopped])
    case EndHandler(id) => p.(handlers := p.handlers[id := p.handlers[id].(phase := Closing)])
    case FreeIP(id) =>
      var h := p.handlers[id];
      p.(limiter := ReleasedIP(p.limiter, h.addr, h.trusted),
         handlers := p.handlers[id := h.(phase := ReturningSlot)])
    case FreeSlot(id) =>
      p.(limiter := p.limiter.(held := p.limiter.held - 1), handlers := p.handlers - {id})
  }

  function Start(maxConns: nat, maxPerIP: int, listeners: nat): Process {
    Process(Limiter(maxConns, maxPerIP, 0, map[]), seq(listeners, _ => Acquiring), map[], false, [])
  }

  predicate Legal(p: Process, es: seq<Event>)
    decreases |es|, 0
  {
    es == [] || (Legal(p, es[..|es| - 1]) && Enabled(Exec(p, es[..|es| - 1]), es[|es| - 1]))
  }

  function Exec(p: Process, es: seq<Event>): Process
    requires Legal(p, es)
    decreases |es|, 1
  {
    if es == [] then p else Apply(Exec(p, es[..|es| - 1]), es[|es| - 1])
  }

  // ---------------------------------------------------------------- conservation

  function Holding(loops: seq<Loop>): nat {
    if loops == [] then 0
    else Holding(loops[..|loops| - 1]) + (if Holds(loops[|loops| - 1]) then 1 else 0)
  }

  /** Live handlers that took a per-IP slot of this key and have not given it back. */
  function Users(p: Process, key: string): set<nat> {
    set id | id in p.handlers && p.handlers[id].phase != ReturningSlot
             && Tracked(p.limiter.maxPerIP, p.handlers[id].addr, p.handlers[id].trusted)
             && p.handlers[id].addr.host == key
  }

  ghost predicate Conserved(p: Process) {
    && p.limiter.held == Holding(p.loops) + |p.handlers|
    && p.limiter.held <= p.limiter.cap
    && (forall key :: InUse(p.limiter, key) == |Users(p, key)|)
    && (forall key :: key in p.limiter.perIP ==> 1 <= p.limiter.perIP[key] <= p.limiter.maxPerIP)
  }

  lemma {:induction false} HoldingUpdate(loops: seq<Loop>, i: nat, l: Loop)
    requires i < |loops|
    ensures Holding(loops[i := l]) ==
            Holding(loops) - (if Holds(loops[i]) then 1 else 0) + (if Holds(l) then 1 else 0)
  {
    var u := loops[..|loops| - 1];
    if i == |loops| - 1 {
      assert loops[i := l][..i] == u;
    } else {
      assert loops[i := l][..|loops| - 1] == u[i := l];
      HoldingUpdate(u, i, l);
    }
  }

  lemma {:induction false} HolderCounts(loops: seq<Loop>, i: nat)
    requires i < |loops| && Holds(loops[i])
    ensures Holding(loops) >= 1
  {
    if i < |loops| - 1 { HolderCounts(loops[..|loops| - 1], i); }
  }

  /** Whether a handler takes a per-IP slot of this key. */
  predicate Takes(maxPerIP: int, h: Handler, key: string) { Tracked(maxPerIP, h.addr, h.trusted) && h.addr.host == key }

  lemma UsersOfKeyAfterAdmit(p: Process, q: Process, id: nat, h: Handler, key: string)
    requires id !in p.handlers && q.handlers == p.handlers[id := h] && q.limiter.maxPerIP == p.limiter.maxPerIP
    requires h.phase == Serving
    ensures |Users(q, key)| == |Users(p, key)| + (if Takes(p.limiter.maxPerIP, h, key) then 1 else 0)
  {
    if Takes(p.limiter.maxPerIP, h, key) {
      assert Users(q, key) == Users(p, key) + {id};
    } else {
      assert Users(q, key) == Users(p, key);
    }
  }

  lemma UsersAfterAdmit(p: Process, q: Process, id: nat, h: Handler)
    requires id !in p.handlers && q.handlers == p.handlers[id := h] && q.limiter.maxPerIP == p.limiter.maxPerIP
    requires h.phase == Serving
    ensures forall key :: |Users(q, key)| == |Users(p, key)| + (if Takes(p.limiter.maxPerIP, h, key) then 1 else 0)
  {
    forall key ensures |Users(q, key)| == |Users(p, key)| + (if Takes(p.limiter.maxPerIP, h, key) then 1 else 0) {
      UsersOfKeyAfterAdmit(p, q, id, h, key);
    }
  }

  lemma UsersAfterFree(p: Process, q: Process, id: nat)
    requires id in p.handlers && p.handlers[id].phase == Closing
    requires q.handlers == p.handlers[id := p.handlers[id].(phase := ReturningSlot)]
    requires q.limiter.maxPerIP == p.limiter.maxPerIP
    ensures var h := p.handlers[id];
            forall key :: |Users(q, key)| ==
              |Users(p, key)| -
              (if Tracked(p.limiter.maxPerIP, h.addr, h.trusted) && h.addr.host == key then 1 else 0)
  {
    var h := p.handlers[id];
    forall key ensures |Users(q, key)| ==
                |Users(p, key)| -
                (if Tracked(p.limiter.maxPerIP, h.addr, h.trusted) && h.addr.host == key then 1 else 0)
    {
      if Tracked(p.limiter.maxPerIP, h.addr, h.trusted) && h.addr.host == key {
        assert Users(p, key) == Users(q, key) + {id};
      } else {
        assert Users(q, key) == Users(p, key);
      }
    }
  }

  lemma SameUsers(p: Process, q: Process)
    requires q.limiter.maxPerIP == p.limiter.maxPerIP
    requires forall id :: id in q.handlers && q.handlers[id].phase != ReturningSlot <==>
                          id in p.handlers && p.handlers[id].phase != ReturningSlot
    requires forall id :: id in q.handlers && q.handlers[id].phase != ReturningSlot ==>
                          q.handlers[id].addr == p.handlers[id].addr && q.handlers[id].trusted == p.handlers[id].trusted
    ensures forall key :: Users(q, key) == Users(p, key)
  {
  }

  lemma ScreenConserves(p: Process, i: nat, id: nat)
    requires Conserved(p) && Enabled(p, Screen(i, id))
    ensures Conserved(Apply(p, Screen(i, id)))
  {
    var l, q := p.loops[i], Apply(p, Screen(i, id));
    if Admits(p.limiter, l.addr, l.trusted) {
      HoldingUpdate(p.loops, i, Acquiring);
      UsersAfterAdmit(p, q, id, Handler(l.addr, l.trusted, Serving));
    } else {
      HoldingUpdate(p.loops, i, Rejecting);
      SameUsers(p, q);
    }
  }

  lemma FreeIPConserves(p: Process, id: nat)
    requires Conserved(p) && Enabled(p, FreeIP(id))
    ensures Conserved(Apply(p, FreeIP(id)))
  {
    var h, q := p.handlers[id], Apply(p, FreeIP(id));
    UsersAfterFree(p, q, id);
    assert q.handlers.Keys == p.handlers.Keys;
    if Tracked(p.limiter.maxPerIP, h.addr, h.trusted) {
      assert id in Users(p, h.addr.host);
      assert |Users(p, h.addr.host)| >= 1;
    }
  }

  lemma FreeSlotConserves(p: Process, id: nat)
    requires Conserved(p) && Enabled(p, FreeSlot(id))
    ensures Conserved(Apply(p, FreeSlot(id)))
  {
    var q := Apply(p, FreeSlot(id));
    SameUsers(p, q);
    assert q.handlers.Keys == p.handlers.Keys - {id};
  }

  lemma LoopStepConserves(p: Process, e: Event)
    requires Conserved(p) && Enabled(p, e)
    requires !e.Screen? && !e.FreeIP? && !e.FreeSlot? && !e.EndHandler?
    ensures Conserved(Apply(p, e))
  {
    var q := Apply(p, e);
    HoldingUpdate(p.loops, e.i, q.loops[e.i]);
    SameUsers(p, q);
  }

  /** Every atomic step keeps the books: the global slots taken are exactly those held by accept
      loops and live handlers, and each per-IP counter is exactly the number of live tracked
      connections of that key. A handler's end is the same step whether it returned or panicked. */
  lemma StepConserves(p: Process, e: Event)
    requires Conserved(p) && Enabled(p, e)
    ensures Conserved(Apply(p, e))
  {
    match e {
      case Screen(i, id) => ScreenConserves(p, i, id);
      case FreeIP(id) => FreeIPConserves(p, id);
      case FreeSlot(id) => FreeSlotConserves(p, id);
      case EndHandler(id) =>
        SameUsers(p, Apply(p, e));
        assert Apply(p, e).handlers.Keys == p.handlers.Keys;
      case _ => LoopStepConserves(p, e);
    }
  }

  lemma {:induction false} NoneHolding(n: nat)
    ensures Holding(seq(n, _ => Acquiring)) == 0
  {
    if n > 0 {
      assert seq(n, _ => Acquiring)[..n - 1] == seq(n - 1, _ => Acquiring);
      NoneHolding(n - 1);
    }
  }

  lemma {:induction false} SlotsConserved(maxConns: nat, maxPerIP: int, listeners: nat, es: seq<Event>)
    requires Legal(Start(maxConns, maxPerIP, listeners), es)
    ensures Conserved(Exec(Start(maxConns, maxPerIP, listeners), es))
  {
    var s := Start(maxConns, maxPerIP, listeners);
    if es == [] {
      NoneHolding(listeners);
      assert forall key :: Users(s, key) == {};
    } else {
      SlotsConserved(maxConns, maxPerIP, listeners, es[..|es| - 1]);
      StepConserves(Exec(s, es[..|es| - 1]), es[|es| - 1]);
    }
  }

  lemma {:induction false} LimitsStay(maxConns: nat, maxPerIP: int, listeners: nat, es: seq<Event>)
    requires Legal(Start(maxConns, maxPerIP, listeners), es)
    ensures var l := Exec(Start(maxConns, maxPerIP, listeners), es).limiter; l.cap == maxConns && l.maxPerIP == maxPerIP
  {
    if es != [] { LimitsStay(maxConns, maxPerIP, listeners, es[..|es| - 1]); }
  }

  /** The live connections from this host that were not trusted when accepted, those whose handler is done
      with the address apart. */
  function From(p: Process, host: string): set<nat> {
    set id | id in p.handlers && p.handlers[id].phase != ReturningSlot
             && !p.handlers[id].trusted && p.handlers[id].addr.host == host
  }

  lemma FromAreUsers(p: Process, host: string)
    requires p.limiter.maxPerIP > 0 && host != ""
    ensures From(p, host) == Users(p, host)
  {
  }

  /** After any run a connection just accepted gets a handler exactly if there is no cap, or it is trusted, or
      its address cannot be read, or fewer untrusted connections than the cap are live from its host;
      otherwise its loop is left to turn it away, with no counter changed. */
  lemma AdmissionIsExact(maxConns: nat, maxPerIP: int, listeners: nat, es: seq<Event>, i: nat, id: nat)
    requires Legal(Start(maxConns, maxPerIP, listeners), es)
    requires Enabled(Exec(Start(maxConns, maxPerIP, listeners), es), Screen(i, id))
    ensures var p := Exec(Start(maxConns, maxPerIP, listeners), es);
            var q, l := Apply(p, Screen(i, id)), p.loops[i];
            if maxPerIP <= 0 || l.trusted || l.addr.host == "" || |From(p, l.addr.host)| < maxPerIP
            then q.handlers == p.handlers[id := Handler(l.addr, l.trusted, Serving)] && q.loops[i].Acquiring?
            else q.handlers == p.handlers && q.loops[i].Rejecting? && q.limiter == p.limiter
  {
    SlotsConserved(maxConns, maxPerIP, listeners, es);
    LimitsStay(maxConns, maxPerIP, listeners, es);
    var p := Exec(Start(maxConns, maxPerIP, listeners), es);
    var host := p.loops[i].addr.host;
    if maxPerIP > 0 && host != "" { FromAreUsers(p, host); }
    assert InUse(p.limiter, host) == |Users(p, host)|;
  }

  /** So no host ever has more untrusted connections live than its cap, nor the gateway more connections,
      accepted or about to be, than its limit; and a loop waiting for a slot can take one exactly when
      the limit is not reached. */
  lemma CapsHold(maxConns: nat, maxPerIP: int, listeners: nat, es: seq<Event>, host: string, i: nat)
    requires Legal(Start(maxConns, maxPerIP, listeners), es)
    ensures var p := Exec(Start(maxConns, maxPerIP, listeners), es);
            && (maxPerIP > 0 && host != "" ==> |From(p, host)| <= maxPerIP)
            && Holding(p.loops) + |p.handlers| <= maxConns
            && (i < |p.loops| && p.loops[i].Acquiring? ==>
                  (Enabled(p, Acquire(i)) <==> Holding(p.loops) + |p.handlers| < maxConns))
  {
    SlotsConserved(maxConns, maxPerIP, listeners, es);
    LimitsStay(maxConns, maxPerIP, listeners, es);
    var p := Exec(Start(maxConns, maxPerIP, listeners), es);
    if maxPerIP > 0 && host != "" { FromAreUsers(p, host); }
    assert InUse(p.limiter, host) == |Users(p, host)|;
  }

  /** Returning a slot never blocks, whoever returns it and whenever. */
  lemma ReleaseNeverBlocks(maxConns: nat, maxPerIP: int, listeners: nat, es: seq<Event>, i: nat, id: nat)
    requires Legal(Start(maxConns, maxPerIP, listeners), es)
    ensures var p := Exec(Start(maxConns, maxPerIP, listeners), es);
            && (i < |p.loops| && p.loops[i].Rejecting? ==> Enabled(p, Reject(i)))
            && (i < |p.loops| && p.loops[i].Failing? ==> Enabled(p, GiveBack(i)))
            && (id in p.handlers && p.handlers[id].phase == ReturningSlot ==> Enabled(p, FreeSlot(id)))
  {
    SlotsConserved(maxConns, maxPerIP, listeners, es);
    var p := Exec(Start(maxConns, maxPerIP, listeners), es);
    if i < |p.loops| && Holds(p.loops[i]) { HolderCounts(p.loops, i); }
    if id in p.handlers { assert p.handlers.Keys != {}; assert |p.handlers| >= 1; }
  }

  /** With every loop waiting for a slot or stopped and every handler gone, all counters are empty,
      however trust was decided along the way. */
  lemma QuietIsEmpty(maxConns: nat, maxPerIP: int, listeners: nat, es: seq<Event>)
    requires Legal(Start(maxConns, maxPerIP, listeners), es)
    requires var p := Exec(Start(maxConns, maxPerIP, listeners), es);
             p.handlers == map[] && forall i :: 0 <= i < |p.loops| ==> !Holds(p.loops[i])
    ensures var p := Exec(Start(maxConns, maxPerIP, listeners), es);
            p.limiter.held == 0 && p.limiter.perIP == map[]
  {
    SlotsConserved(maxConns, maxPerIP, listeners, es);
    var p := Exec(Start(maxConns, maxPerIP, listeners), es);
    NoHolder(p.loops);
    forall key ensures key !in p.limiter.perIP {
      assert Users(p, key) == {};
      assert InUse(p.limiter, key) == 0;
    }
  }

  lemma {:induction false} NoHolder(loops: seq<Loop>)
    requires forall i :: 0 <= i < |loops| ==> !Holds(loops[i])
    ensures Holding(loops) == 0
  {
    if loops != [] { NoHolder(loops[..|loops| - 1]); }
  }

  // ---------------------------------------------------------------- the first error

  predicate FirstIsGenuine(p: Process) {
    && |p.first| <= 1
    && p.closed == (p.first != [])
    && (p.first != [] ==> p.first[0].Genuine?)
    && (forall i :: 0 <= i < |p.loops| && p.loops[i].Failing? && p.loops[i].error == ListenerClosed ==> p.closed)
    && (forall i :: 0 <= i < |p.loops| && p.loops[i].Recording? && p.loops[i].error == ListenerClosed ==> p.closed)
    && (forall i :: 0 <= i < |p.loops| && p.loops[i].Stopped? ==> p.closed)
  }

  lemma StepKeepsFirst(p: Process, e: Event)
    requires FirstIsGenuine(p) && Enabled(p, e)
    ensures FirstIsGenuine(Apply(p, e)) && |Apply(p, e).loops| == |p.loops|
    ensures p.first != [] ==> Apply(p, e).first == p.first
  {
  }

  lemma {:induction false} FirstStaysGenuine(maxConns: nat, maxPerIP: int, listeners: nat, es: seq<Event>)
    requires Legal(Start(maxConns, maxPerIP, listeners), es)
    ensures var p := Exec(Start(maxConns, maxPerIP, listeners), es);
            FirstIsGenuine(p) && |p.loops| == listeners
  {
    if es != [] {
      FirstStaysGenuine(maxConns, maxPerIP, listeners, es[..|es| - 1]);
      StepKeepsFirst(Exec(Start(maxConns, maxPerIP, listeners), es[..|es| - 1]), es[|es| - 1]);
    }
  }

  /** A listener's failure still to be returned is one that Accept reported. */
  predicate Reported(es: seq<Event>, error: Failure) {
    error.Genuine? ==> AcceptFails(error.listener, error.code, false) in es
  }

  predicate AllReported(es: seq<Event>, p: Process) {
    && (forall i :: 0 <= i < |p.loops| && p.loops[i].Failing? ==> Reported(es, p.loops[i].error))
    && (forall i :: 0 <= i < |p.loops| && p.loops[i].Recording? ==> Reported(es, p.loops[i].error))
    && (forall f :: f in p.first ==> Reported(es, f))
  }

  lemma StepReports(es: seq<Event>, p: Process, e: Event)
    requires AllReported(es, p) && Enabled(p, e)
    ensures AllReported(es + [e], Apply(p, e))
  {
    assert e in es + [e];
  }

  /** The error ServeAll keeps is one that a listener's Accept reported, code and all. */
  lemma {:induction false} FirstErrorWasReported(maxConns: nat, maxPerIP: int, listeners: nat, es: seq<Event>)
    requires Legal(Start(maxConns, maxPerIP, listeners), es)
    ensures AllReported(es, Exec(Start(maxConns, maxPerIP, listeners), es))
  {
    if es != [] {
      FirstErrorWasReported(maxConns, maxPerIP, listeners, es[..|es| - 1]);
      StepReports(es[..|es| - 1], Exec(Start(maxConns, maxPerIP, listeners), es[..|es| - 1]), es[|es| - 1]);
      assert es[..|es| - 1] + [es[|es| - 1]] == es;
    }
  }

  /** Once recorded, the first error never changes. */
  lemma {:induction false} FirstErrorStays(maxConns: nat, maxPerIP: int, listeners: nat, es: seq<Event>, n: nat)
    requires Legal(Start(maxConns, maxPerIP, listeners), es) && n <= |es|
    ensures Legal(Start(maxConns, maxPerIP, listeners), es[..n])
    ensures var earlier := Exec(Start(maxConns, maxPerIP, listeners), es[..n]);
            earlier.first != [] ==> Exec(Start(maxConns, maxPerIP, listeners), es).first == earlier.first
    decreases |es|
  {
    if n == |es| {
      assert es[..n] == es;
    } else {
      var u := es[..|es| - 1];
      assert u[..n] == es[..n];
      FirstErrorStays(maxConns, maxPerIP, listeners, u, n);
      FirstStaysGenuine(maxConns, maxPerIP, listeners, u);
      StepKeepsFirst(Exec(Start(maxConns, maxPerIP, listeners), u), es[|es| - 1]);
    }
  }

  /** When every loop has stopped, ServeAll has exactly one error to report and it is a listener's own
      failure, never the "closed" error its own shutdown provokes. */
  lemma ServeAllReportsRootCause(maxConns: nat, maxPerIP: int, listeners: nat, es: seq<Event>)
    requires listeners > 0 && Legal(Start(maxConns, maxPerIP, listeners), es)
    requires var p := Exec(Start(maxConns, maxPerIP, listeners), es);
             forall i :: 0 <= i < |p.loops| ==> p.loops[i].Stopped?
    ensures var p := Exec(Start(maxConns, maxPerIP, listeners), es);
            |p.first| == 1 && p.first[0].Genuine?
  {
    FirstStaysGenuine(maxConns, maxPerIP, listeners, es);
    assert Exec(Start(maxConns, maxPerIP, listeners), es).loops[0].Stopped?;
  }

  // ---------------------------------------------------------------- waiting for the last loops

  predicate AllStopped(p: Process) { forall i :: 0 <= i < |p.loops| ==> p.loops[i].Stopped? }

  /** Every loop that has not stopped is queued for a slot. */
  predicate AllQueued(p: Process) { forall i :: 0 <= i < |p.loops| ==> p.loops[i].Stopped? || p.loops[i].Acquiring? }

  predicate ByLoop(e: Event) { !e.EndHandler? && !e.FreeIP? && !e.FreeSlot? }

  ghost predicate NoLoopCanMove(p: Process) { forall e: Event :: ByLoop(e) ==> !Enabled(p, e) }

  /** No accept loop can take a step exactly when every unfinished one is queued for a slot and the
      handlers hold all slots. */
  lemma LoopsBlockExactly(maxConns: nat, maxPerIP: int, listeners: nat, es: seq<Event>)
    requires Legal(Start(maxConns, maxPerIP, listeners), es)
    ensures var p := Exec(Start(maxConns, maxPerIP, listeners), es);
            NoLoopCanMove(p) <==> AllStopped(p) || (AllQueued(p) && |p.handlers| == p.limiter.cap)
  {
    SlotsConserved(maxConns, maxPerIP, listeners, es);
    var p := Exec(Start(maxConns, maxPerIP, listeners), es);
    if NoLoopCanMove(p) {
      forall i: nat | i < |p.loops| ensures Settled(p, p.loops[i]) {
        if !Settled(p, p.loops[i]) { LoopMoves(p, i); }
      }
      NoHolder(p.loops);
    } else if AllQueued(p) {
      NoHolder(p.loops);
    }
  }

  predicate Settled(p: Process, l: Loop) { l.Stopped? || (l.Acquiring? && p.limiter.held == p.limiter.cap) }

  lemma LoopMoves(p: Process, i: nat)
    requires Conserved(p) && i < |p.loops| && !Settled(p, p.loops[i])
    ensures !NoLoopCanMove(p)
  {
    if Holds(p.loops[i]) { HolderCounts(p.loops, i); }
    var e := match p.loops[i]
      case Acquiring => Acquire(i)
      case Accepting => AcceptFails(i, 0, false)
      case Screening(_, _) => Screen(i, NextId(p.handlers))
      case Rejecting => Reject(i)
      case Failing(_) => GiveBack(i)
      case _ => Record(i);
    assert ByLoop(e) && Enabled(p, e);
  }

  /** While the handlers hold all slots, a queued loop stays queued through any steps in which none of
      them gives its slot back: closing the listeners does not wake it. */
  lemma {:induction false} QueuedUntilSlotFreed(p: Process, es: seq<Event>, i: nat)
    requires Conserved(p) && Legal(p, es) && forall k :: 0 <= k < |es| ==> !es[k].FreeSlot?
    requires |p.handlers| == p.limiter.cap && i < |p.loops| && p.loops[i].Acquiring?
    ensures var q := Exec(p, es);
            Conserved(q) && |q.handlers| == q.limiter.cap && i < |q.loops| && q.loops[i].Acquiring?
  {
    if es != [] {
      var u, e := es[..|es| - 1], es[|es| - 1];
      QueuedUntilSlotFreed(p, u, i);
      var q := Exec(p, u);
      StepConserves(q, e);
      QueuedStep(q, e, i);
    }
  }

  lemma QueuedStep(q: Process, e: Event, i: nat)
    requires Conserved(q) && Enabled(q, e) && !e.FreeSlot?
    requires |q.handlers| == q.limiter.cap && i < |q.loops| && q.loops[i].Acquiring?
    ensures var r := Apply(q, e);
            |r.handlers| == r.limiter.cap && i < |r.loops| && r.loops[i].Acquiring?
  {
    if e.Screen? { HolderCounts(q.loops, e.i); }
    if e.EndHandler? || e.FreeIP? { assert Apply(q, e).handlers.Keys == q.handlers.Keys; }
  }

  lemma {:induction false} LegalAppend(p: Process, a: seq<Event>, b: seq<Event>)
    requires Legal(p, a) && Legal(Exec(p, a), b)
    ensures Legal(p, a + b) && Exec(p, a + b) == Exec(Exec(p, a), b)
    decreases |b|
  {
    if b == [] {
      assert a + b == a;
    } else {
      var u, e := b[..|b| - 1], b[|b| - 1];
      LegalAppend(p, a, u);
      assert (a + b)[..|a + b| - 1] == a + u && (a + b)[|a + b| - 1] == e;
    }
  }

  lemma OneStep(p: Process, e: Event)
    requires Enabled(p, e)
    ensures Legal(p, [e]) && Exec(p, [e]) == Apply(p, e)
  {
    assert [e][..0] == [];
    assert Legal(p, []) && Exec(p, []) == p;
  }

  lemma TwoRuns(p: Process, a: seq<Event>, e: Event)
    requires Legal(p, a) && Enabled(Exec(p, a), e)
    ensures Legal(p, a + [e]) && Exec(p, a + [e]) == Apply(Exec(p, a), e)
  {
    OneStep(Exec(p, a), e);
    LegalAppend(p, a, [e]);
  }

  /** With a slot free and the listeners closed, a queued loop can stop in four steps of its own. */
  lemma StopOne(p: Process, i: nat) returns (es: seq<Event>)
    requires p.closed && p.first != [] && i < |p.loops| && p.loops[i].Acquiring? && p.limiter.held < p.limiter.cap
    ensures Legal(p, es) && forall k :: 0 <= k < |es| ==> ByLoop(es[k])
    ensures Exec(p, es) == p.(loops := p.loops[i := Stopped])
  {
    es := [];
    var steps := [Acquire(i), AcceptFails(i, 0, true), GiveBack(i), Record(i)];
    TwoRuns(p, [], steps[0]);
    TwoRuns(p, [] + [steps[0]], steps[1]);
    TwoRuns(p, [] + [steps[0]] + [steps[1]], steps[2]);
    TwoRuns(p, [] + [steps[0]] + [steps[1]] + [steps[2]], steps[3]);
    es := [] + [steps[0]] + [steps[1]] + [steps[2]] + [steps[3]];
    assert Exec(p, es).loops == p.loops[i := Stopped];
  }

  lemma {:induction false} StopAll(p: Process, n: nat) returns (es: seq<Event>)
    requires p.closed && p.first != [] && AllQueued(p) && p.limiter.held < p.limiter.cap && n <= |p.loops|
    requires forall i :: n <= i < |p.loops| ==> p.loops[i].Stopped?
    ensures Legal(p, es) && (forall k :: 0 <= k < |es| ==> ByLoop(es[k]))
    ensures AllStopped(Exec(p, es))
    decreases n
  {
    if n == 0 {
      es := [];
    } else if p.loops[n - 1].Stopped? {
      es := StopAll(p, n - 1);
    } else {
      var a := StopOne(p, n - 1);
      var b := StopAll(Exec(p, a), n - 1);
      LegalAppend(p, a, b);
      es := a + b;
    }
  }

  /** The loops can all stop, with no handler giving up its slot. */
  ghost predicate CanReturnUnaided(p: Process) {
    exists es: seq<Event> :: Legal(p, es) && (forall k :: 0 <= k < |es| ==> !es[k].FreeSlot?) && AllStopped(Exec(p, es))
  }

  predicate NoneScreening(p: Process) { forall i :: 0 <= i < |p.loops| ==> !p.loops[i].Screening? }

  lemma {:induction false} RunConserves(p: Process, es: seq<Event>)
    requires Conserved(p) && Legal(p, es)
    ensures Conserved(Exec(p, es))
  {
    if es != [] {
      RunConserves(p, es[..|es| - 1]);
      StepConserves(Exec(p, es[..|es| - 1]), es[|es| - 1]);
    }
  }

  /** What a loop that is neither queued, stopped nor screening comes to rest as, listeners closed. */
  function Rested(l: Loop): Loop { if l.Rejecting? then Acquiring else Stopped }

  /** It gets there by steps of its own. */
  lemma SettleOne(p: Process, i: nat) returns (es: seq<Event>)
    requires Conserved(p) && p.closed && p.first != [] && i < |p.loops|
    requires !p.loops[i].Screening? && !p.loops[i].Acquiring? && !p.loops[i].Stopped?
    ensures Legal(p, es) && forall k :: 0 <= k < |es| ==> ByLoop(es[k])
    ensures Exec(p, es) == p.(limiter := Exec(p, es).limiter, loops := p.loops[i := Rested(p.loops[i])])
    ensures Exec(p, es).limiter.cap == p.limiter.cap
  {
    if Holds(p.loops[i]) { HolderCounts(p.loops, i); }
    if p.loops[i].Rejecting? {
      es := [Reject(i)];
      OneStep(p, Reject(i));
    } else if p.loops[i].Recording? {
      es := [Record(i)];
      OneStep(p, Record(i));
    } else if p.loops[i].Failing? {
      es := SettleFailing(p, i);
    } else {
      OneStep(p, AcceptFails(i, 0, true));
      var q := Apply(p, AcceptFails(i, 0, true));
      var rest := SettleFailing(q, i);
      LegalAppend(p, [AcceptFails(i, 0, true)], rest);
      es := [AcceptFails(i, 0, true)] + rest;
      assert Exec(p, es).loops == p.loops[i := Stopped];
    }
  }

  lemma SettleFailing(p: Process, i: nat) returns (es: seq<Event>)
    requires p.limiter.held > 0 && p.closed && p.first != [] && i < |p.loops| && p.loops[i].Failing?
    ensures Legal(p, es) && forall k :: 0 <= k < |es| ==> ByLoop(es[k])
    ensures Exec(p, es) == p.(limiter := Exec(p, es).limiter, loops := p.loops[i := Stopped])
    ensures Exec(p, es).limiter.cap == p.limiter.cap
  {
    OneStep(p, GiveBack(i));
    TwoRuns(p, [GiveBack(i)], Record(i));
    es := [GiveBack(i)] + [Record(i)];
    assert Exec(p, es).loops == p.loops[i := Stopped];
  }

  /** q is p with every loop at rest: queued or stopped. */
  ghost predicate AtRest(p: Process, q: Process) {
    && AllQueued(q) && q.closed && q.first != [] && q.handlers == p.handlers
    && q.limiter.cap == p.limiter.cap && |q.loops| == |p.loops|
  }

  ghost predicate AllByLoop(es: seq<Event>) { forall k :: 0 <= k < |es| ==> ByLoop(es[k]) }

  /** The loops from n on are queued or have stopped, and the rest may still have to. */
  ghost predicate Settling(p: Process, n: nat) {
    && Conserved(p) && p.closed && p.first != [] && NoneScreening(p) && n <= |p.loops|
    && forall i :: n <= i < |p.loops| ==> p.loops[i].Stopped? || p.loops[i].Acquiring?
  }

  /** q is p after some loops have moved on. */
  ghost predicate OnlyLoopsMoved(p: Process, q: Process) {
    q.handlers == p.handlers && q.limiter.cap == p.limiter.cap && |q.loops| == |p.loops|
  }

  lemma SettleNext(p: Process, n: nat) returns (es: seq<Event>)
    requires Settling(p, n) && n > 0 && !p.loops[n - 1].Stopped? && !p.loops[n - 1].Acquiring?
    ensures Legal(p, es) && AllByLoop(es) && Settling(Exec(p, es), n - 1) && OnlyLoopsMoved(p, Exec(p, es))
  {
    es := SettleOne(p, n - 1);
    RunConserves(p, es);
  }

  lemma SettleJoin(p: Process, a: seq<Event>, b: seq<Event>)
    requires Legal(p, a) && AllByLoop(a) && OnlyLoopsMoved(p, Exec(p, a))
    requires Legal(Exec(p, a), b) && AllByLoop(b) && AtRest(Exec(p, a), Exec(Exec(p, a), b))
    ensures Legal(p, a + b) && AllByLoop(a + b) && AtRest(p, Exec(p, a + b))
  {
    LegalAppend(p, a, b);
  }

  /** Closed listeners bring every loop that is not screening to rest without any handler's help. */
  lemma {:induction false} SettleAll(p: Process, n: nat) returns (es: seq<Event>)
    requires Settling(p, n)
    ensures Legal(p, es) && AllByLoop(es) && AtRest(p, Exec(p, es))
    decreases n
  {
    if n == 0 {
      es := [];
    } else if p.loops[n - 1].Stopped? || p.loops[n - 1].Acquiring? {
      es := SettleAll(p, n - 1);
    } else {
      var a := SettleNext(p, n);
      var b := SettleAll(Exec(p, a), n - 1);
      SettleJoin(p, a, b);
      es := a + b;
    }
  }

  lemma UnaidedReturn(p: Process) returns (es: seq<Event>)
    requires Conserved(p) && p.closed && p.first != [] && NoneScreening(p)
    requires |p.handlers| < p.limiter.cap || forall i :: 0 <= i < |p.loops| ==> !p.loops[i].Acquiring?
    ensures CanReturnUnaided(p)
  {
    var a := SettleAll(p, |p.loops|);
    var q := Exec(p, a);
    RunConserves(p, a);
    NoHolder(q.loops);
    if |p.handlers| == p.limiter.cap {
      NoHolderIfFull(p);
      NeverQueues(p, a);
      es := a;
    } else {
      var b := StopAll(q, |q.loops|);
      LegalAppend(p, a, b);
      es := a + b;
    }
    assert Legal(p, es) && AllStopped(Exec(p, es));
  }

  lemma NoHolderIfFull(p: Process)
    requires Conserved(p) && |p.handlers| == p.limiter.cap
    ensures forall i :: 0 <= i < |p.loops| ==> !Holds(p.loops[i])
  {
    forall i: nat | i < |p.loops| ensures !Holds(p.loops[i]) {
      if Holds(p.loops[i]) { HolderCounts(p.loops, i); }
    }
  }

  /** Every loop has stopped or has only to record its error. */
  ghost predicate Ending(p: Process) {
    forall i :: 0 <= i < |p.loops| ==> p.loops[i].Stopped? || p.loops[i].Recording?
  }

  /** Such loops never queue again. */
  lemma {:induction false} NeverQueues(p: Process, es: seq<Event>)
    requires Legal(p, es) && Ending(p)
    ensures Ending(Exec(p, es))
  {
    if es != [] { NeverQueues(p, es[..|es| - 1]); }
  }

  /** After the first error, in any state in which no loop is just screening a connection: ServeAll can
      return without any connection ending exactly when some slot is not held by a handler or no loop is
      queued for one. */
  lemma ServeAllWaitsForHandlersExactly(maxConns: nat, maxPerIP: int, listeners: nat, es: seq<Event>)
    requires Legal(Start(maxConns, maxPerIP, listeners), es)
    requires var p := Exec(Start(maxConns, maxPerIP, listeners), es);
             p.first != [] && NoneScreening(p)
    ensures var p := Exec(Start(maxConns, maxPerIP, listeners), es);
            CanReturnUnaided(p) <==>
            |p.handlers| < p.limiter.cap || forall i :: 0 <= i < |p.loops| ==> !p.loops[i].Acquiring?
  {
    SlotsConserved(maxConns, maxPerIP, listeners, es);
    FirstStaysGenuine(maxConns, maxPerIP, listeners, es);
    var p := Exec(Start(maxConns, maxPerIP, listeners), es);
    if |p.handlers| < p.limiter.cap || forall i :: 0 <= i < |p.loops| ==> !p.loops[i].Acquiring? {
      var more := UnaidedReturn(p);
    } else {
      var i :| 0 <= i < |p.loops| && p.loops[i].Acquiring?;
      forall more: seq<Event> | Legal(p, more) && forall k :: 0 <= k < |more| ==> !more[k].FreeSlot?
        ensures !AllStopped(Exec(p, more))
      {
        QueuedUntilSlotFreed(p, more, i);
      }
    }
  }
}
