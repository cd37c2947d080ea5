/** The deadline wrapper around a client connection (internal/server/idleconn.go). */
module IdleConn {
  /** A deadline or a ceiling; `Never` is the zero time. Times are nanoseconds. */
  datatype Deadline = Never | At(t: int)

  /** The wrapper's fields and the two deadlines in force on the wrapped connection. */
  datatype State = State(idle: int, hard: Deadline, manual: bool, readBy: Deadline, writeBy: Deadline)

  function Earlier(a: Deadline, b: Deadline): Deadline {
    if b.Never? then a else if a.Never? || b.t < a.t then b else a
  }

  /** The deadline auto-arming would choose at time now. */
  function Bound(s: State, now: int): Deadline {
    Earlier(if s.idle > 0 then At(now + s.idle) else Never, s.hard)
  }

  function Armed(s: State, now: int): State {
    if s.manual then s else s.(readBy := Bound(s, now), writeBy := Bound(s, now))
  }

  function PreAuth(s: State, idle: int, max: int, now: int): State { s.(idle := idle, hard := At(now + max)) }

  function Window(s: State, idle: int): State { s.(idle := idle, hard := Never) }

  function Explicit(s: State, d: Deadline): State { s.(manual := d != Never, readBy := d, writeBy := d) }

  class IdleConnection {
    var idle: int
    var hard: Deadline
    var manual: bool
    var readBy: Deadline
    var writeBy: Deadline

    function Snapshot(): State
      reads this
    {
      State(idle, hard, manual, readBy, writeBy)
    }

    constructor (idle: int)
      ensures Snapshot() == State(idle, Never, false, Never, Never)
    {
      this.idle := idle;
      hard, manual, readBy, writeBy := Never, false, Never, Never;
    }

    /** Runs before every Read and Write. */
    method Arm(now: int)
      modifies this
      ensures Snapshot() == Armed(old(Snapshot()), now)
    {
      if manual { return; }
      var d := Never;
      if idle > 0 { d := At(now + idle); }
      if hard != Never && (d == Never || hard.t < d.t) { d := hard; }
      readBy, writeBy := d, d;
    }

    method SetPreAuth(idle: int, max: int, now: int)
      modifies this
      ensures Snapshot() == PreAuth(old(Snapshot()), idle, max, now)
    {
      this.idle := idle;
      hard := At(now + max);
    }

    method SetWindow(idle: int)
      modifies this
      ensures Snapshot() == Window(old(Snapshot()), idle)
    {
      this.idle := idle;
      hard := Never;
    }

    method SetDeadline(d: Deadline)
      modifies this
      ensures Snapshot() == Explicit(old(Snapshot()), d)
    {
      manual := d != Never;
      readBy, writeBy := d, d;
    }

    method SetReadDeadline(d: Deadline)
      modifies this
      ensures Snapshot() == Explicit(old(Snapshot()), d).(writeBy := old(writeBy))
    {
      manual := d != Never;
      readBy := d;
    }

    method SetWriteDeadline(d: Deadline)
      modifies this
      ensures Snapshot() == Explicit(old(Snapshot()), d).(readBy := old(readBy))
    {
      manual := d != Never;
      writeBy := d;
    }
  }

  /** Reads and writes at the given times, oldest first. */
  function ArmedAt(s: State, times: seq<int>): State {
    if times == [] then s else Armed(ArmedAt(s, times[..|times| - 1]), times[|times| - 1])
  }

  /** However much the peer trickles, no read or write after a fresh pre-auth regime runs under a
      deadline later than the ceiling, and the ceiling does not move. */
  lemma {:induction false} CeilingHolds(s: State, idle: int, max: int, now: int, times: seq<int>)
    requires !s.manual
    ensures var r := ArmedAt(PreAuth(s, idle, max, now), times);
            && r.hard == At(now + max) && !r.manual
            && (times != [] ==> r.readBy == r.writeBy && r.readBy.At? && r.readBy.t <= now + max)
            && (times != [] && idle > 0 ==> r.readBy.t <= times[|times| - 1] + idle)
    decreases |times|
  {
    if times != [] {
      CeilingHolds(s, idle, max, now, times[..|times| - 1]);
      ArmingKeepsRegime(PreAuth(s, idle, max, now), times[..|times| - 1]);
    }
  }

  lemma {:induction false} ArmingKeepsRegime(s: State, times: seq<int>)
    ensures ArmedAt(s, times) == s.(readBy := ArmedAt(s, times).readBy, writeBy := ArmedAt(s, times).writeBy)
  {
    if times != [] { ArmingKeepsRegime(s, times[..|times| - 1]); }
  }

  /** An explicit deadline survives any number of reads and writes; clearing it brings back exactly
      the regime in force before it, with no deadline pending. */
  lemma {:induction false} ExplicitDeadlineHolds(s: State, d: Deadline, times: seq<int>)
    requires d != Never
    ensures ArmedAt(Explicit(s, d), times) == Explicit(s, d)
    ensures Explicit(ArmedAt(Explicit(s, d), times), Never) == State(s.idle, s.hard, false, Never, Never)
  {
    if times != [] { ExplicitDeadlineHolds(s, d, times[..|times| - 1]); }
  }

  /** Under a plain window the deadline after any reads and writes is exactly the window past the last of
      them; with no window there is none. */
  lemma WindowArmsExactly(s: State, idle: int, times: seq<int>)
    requires !s.manual && times != []
    ensures var c := ArmedAt(Window(s, idle), times);
            && c.readBy == (if idle > 0 then At(times[|times| - 1] + idle) else Never)
            && c.writeBy == c.readBy
  {
    ArmingKeepsRegime(Window(s, idle), times[..|times| - 1]);
  }

  /** Under the pre-auth regime it is exactly the earlier of that and the ceiling. */
  lemma PreAuthArmsExactly(s: State, idle: int, max: int, now: int, times: seq<int>)
    requires !s.manual && times != []
    ensures var c, last := ArmedAt(PreAuth(s, idle, max, now), times), times[|times| - 1];
            && c.readBy == At(if 0 < idle && last + idle <= now + max then last + idle else now + max)
            && c.writeBy == c.readBy
  {
    ArmingKeepsRegime(PreAuth(s, idle, max, now), times[..|times| - 1]);
  }
}
