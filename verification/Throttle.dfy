/** Per-user backoff on failed authentication (internal/server/auththrottle.go). */
module Throttle {
  import opened Prelude
  import Text

  datatype Entry = Entry(count: int, last: int)

  /** The throttle's fields; times are nanoseconds. */
  datatype State = State(entries: map<string, Entry>, lastSweep: Option<int>)

  function Key(username: string): string { Text.ToUpper(Text.TrimSpace(username)) }

  function Swept(s: State, now: int, window: int): State {
    if window <= 0 || (s.lastSweep.Some? && now - s.lastSweep.value < window) then s
    else State(map k | k in s.entries && now - s.entries[k].last <= window :: s.entries[k], Some(now))
  }

  function Failed(s: State, username: string, now: int, window: int): State {
    var t := Swept(s, now, window);
    t.(entries := t.entries[Key(username) := Entry(Counted(s, username, now, window), now)])
  }

  /** The count `Fail` returns. */
  function Counted(s: State, username: string, now: int, window: int): int {
    var t := Swept(s, now, window);
    if Key(username) in t.entries && now - t.entries[Key(username)].last <= window
    then t.entries[Key(username)].count + 1 else 1
  }

  function ResetTo(s: State, username: string): State { s.(entries := s.entries - {Key(username)}) }

  class AuthThrottle {
    var entries: map<string, Entry>
    var lastSweep: Option<int>

    function Snapshot(): State
      reads this
    {
      State(entries, lastSweep)
    }

    /** Every stored count is positive. */
    predicate Valid()
      reads this
    {
      forall k :: k in entries ==> entries[k].count > 0
    }

    constructor ()
      ensures Valid() && Snapshot() == State(map[], None)
    {
      entries, lastSweep := map[], None;
    }

    method Sweep(now: int, window: int)
      requires Valid()
      modifies this
      ensures Valid() && Snapshot() == Swept(old(Snapshot()), now, window)
    {
      if window <= 0 { return; }
      if lastSweep.Some? && now - lastSweep.value < window { return; }
      lastSweep := Some(now);
      var todo := entries.Keys;
      while todo != {}
        invariant todo <= entries.Keys <= old(entries).Keys
        invariant forall k :: k in entries ==> entries[k] == old(entries)[k]
        invariant forall k :: k in old(entries) && k !in todo ==>
                    (k in entries <==> now - old(entries)[k].last <= window)
        invariant lastSweep == Some(now)
        decreases todo
      {
        var k :| k in todo;
        todo := todo - {k};
        if now - entries[k].last > window { entries := entries - {k}; }
      }
    }

    method Fail(username: string, now: int, window: int) returns (count: int)
      requires Valid()
      modifies this
      ensures Valid()
      ensures Snapshot() == Failed(old(Snapshot()), username, now, window)
      ensures count == Counted(old(Snapshot()), username, now, window)
    {
      var key := Key(username);
      Sweep(now, window);
      var e := if key in entries then entries[key] else Entry(0, 0);
      if e.count > 0 && now - e.last > window { e := e.(count := 0); }
      e := Entry(e.count + 1, now);
      entries := entries[key := e];
      return e.count;
    }

    method Reset(username: string)
      requires Valid()
      modifies this
      ensures Valid() && Snapshot() == ResetTo(old(Snapshot()), username)
    {
      entries := entries - {Key(username)};
    }
  }

  // ---------------------------------------------------------------- the simple history

  datatype Event = Failure(username: string, at: int) | Success(username: string)

  /** The latest failure of key since its last reset. */
  function LastFailure(h: seq<Event>, key: string): Option<int> {
    if h == [] then None
    else
      var e := h[|h| - 1];
      if Key(e.username) != key then LastFailure(h[..|h| - 1], key)
      else if e.Success? then None else Some(e.at)
  }

  /** How many failures of key end the history since its last reset, each at most a window after the
      one before. */
  function RunLength(h: seq<Event>, key: string, window: int): nat {
    if h == [] then 0
    else
      var e, g := h[|h| - 1], h[..|h| - 1];
      if Key(e.username) != key then RunLength(g, key, window)
      else if e.Success? then 0
      else if LastFailure(g, key).Some? && e.at - LastFailure(g, key).value <= window
      then RunLength(g, key, window) + 1
      else 1
  }

  /** Failure times never go backwards. */
  predicate Chronological(h: seq<Event>) {
    forall i, j :: 0 <= i < j < |h| && h[i].Failure? && h[j].Failure? ==> h[i].at <= h[j].at
  }

  function Replay(h: seq<Event>, window: int): State {
    if h == [] then State(map[], None)
    else
      var s, e := Replay(h[..|h| - 1], window), h[|h| - 1];
      if e.Failure? then Failed(s, e.username, e.at, window) else ResetTo(s, e.username)
  }

  function LatestTime(h: seq<Event>): Option<int> {
    if h == [] then None
    else if h[|h| - 1].Failure? then Some(h[|h| - 1].at) else LatestTime(h[..|h| - 1])
  }

  /** What the map knows of a key: the run and its last time, or nothing when there is no run or the
      run is already too old to be continued at any time from `now` on. */
  predicate Knows(s: State, h: seq<Event>, key: string, window: int, now: int) {
    var last := LastFailure(h, key);
    if key in s.entries
    then last.Some? && s.entries[key] == Entry(RunLength(h, key, window), last.value)
    else last.Some? ==> now - last.value > window
  }

  lemma LastFailureBounds(h: seq<Event>, key: string)
    requires Chronological(h)
    ensures LastFailure(h, key).Some? ==>
              LatestTime(h).Some? && LastFailure(h, key).value <= LatestTime(h).value
    ensures LatestTime(h).Some? ==> exists i :: 0 <= i < |h| && h[i].Failure? && h[i].at == LatestTime(h).value
  {
    if h != [] {
      var g := h[..|h| - 1];
      LastFailureBounds(g, key);
      if LatestTime(g).Some? {
        var i :| 0 <= i < |g| && g[i].Failure? && g[i].at == LatestTime(g).value;
        assert h[i] == g[i];
      }
    }
  }

  lemma FailKnows(s: State, g: seq<Event>, e: Event, key: string, window: int, before: int)
    requires window > 0 && e.Failure? && before <= e.at
    requires Knows(s, g, key, window, before)
    requires LastFailure(g, key).Some? ==> LastFailure(g, key).value <= before
    ensures Knows(Failed(s, e.username, e.at, window), g + [e], key, window, e.at)
    ensures Key(e.username) == key ==>
              Counted(s, e.username, e.at, window) == RunLength(g + [e], key, window)
  {
    assert (g + [e])[..|g|] == g;
  }

  lemma SuccessKnows(s: State, g: seq<Event>, e: Event, key: string, window: int, now: int)
    requires e.Success? && Knows(s, g, key, window, now)
    ensures Knows(ResetTo(s, e.username), g + [e], key, window, now)
  {
    assert (g + [e])[..|g|] == g;
  }

  lemma {:induction false} MapAgreesWithHistory(h: seq<Event>, window: int, key: string)
    requires window > 0 && Chronological(h)
    ensures Knows(Replay(h, window), h, key, window, if LatestTime(h).Some? then LatestTime(h).value else 0)
  {
    if h != [] {
      var g, e := h[..|h| - 1], h[|h| - 1];
      assert h == g + [e];
      assert Chronological(g);
      MapAgreesWithHistory(g, window, key);
      LastFailureBounds(g, key);
      if e.Failure? {
        if LatestTime(g).Some? {
          var i :| 0 <= i < |g| && g[i].Failure? && g[i].at == LatestTime(g).value;
          assert h[i] == g[i];
          FailKnows(Replay(g, window), g, e, key, window, LatestTime(g).value);
        } else {
          assert LastFailure(g, key).None?;
          FailKnows(Replay(g, window), g, e, key, window, e.at);
        }
      } else {
        SuccessKnows(Replay(g, window), g, e, key, window, if LatestTime(g).Some? then LatestTime(g).value else 0);
      }
    }
  }

  /** Whatever was swept in between, `Fail` returns the length of the user's current run of failures.
      Usernames that differ only in case or surrounding space share one run. */
  lemma FailReturnsRunLength(h: seq<Event>, e: Event, window: int)
    requires window > 0 && e.Failure? && Chronological(h + [e])
    ensures Counted(Replay(h, window), e.username, e.at, window) == RunLength(h + [e], Key(e.username), window)
  {
    var key := Key(e.username);
    assert Chronological(h) by { assert forall i :: 0 <= i < |h| ==> (h + [e])[i] == h[i]; }
    MapAgreesWithHistory(h, window, key);
    LastFailureBounds(h, key);
    if LatestTime(h).Some? {
      var i :| 0 <= i < |h| && h[i].Failure? && h[i].at == LatestTime(h).value;
      assert (h + [e])[i] == h[i] && (h + [e])[|h|] == e;
      FailKnows(Replay(h, window), h, e, key, window, LatestTime(h).value);
    } else {
      FailKnows(Replay(h, window), h, e, key, window, e.at);
    }
  }

  /** Equal but for the case of an ASCII letter. */
  predicate SameLetter(a: char, b: char) {
    || a == b
    || ('a' <= a <= 'z' && a as int - b as int == 32)
    || ('a' <= b <= 'z' && b as int - a as int == 32)
  }

  predicate SameLetters(x: string, y: string) {
    |x| == |y| && forall i :: 0 <= i < |x| ==> SameLetter(x[i], y[i])
  }

  lemma UpperAgrees(a: char, b: char)
    ensures Text.UpperChar(a) == Text.UpperChar(b) <==> SameLetter(a, b)
  {
  }

  lemma UppersAgree(x: string, y: string)
    ensures Text.ToUpper(x) == Text.ToUpper(y) <==> SameLetters(x, y)
  {
    var u, v := Text.ToUpper(x), Text.ToUpper(y);
    forall i | 0 <= i < |x| && i < |y| ensures u[i] == v[i] <==> SameLetter(x[i], y[i]) { UpperAgrees(x[i], y[i]); }
    if SameLetters(x, y) { assert forall i :: 0 <= i < |u| ==> u[i] == v[i]; }
  }

  /** Two usernames share one run exactly when they differ at most in letter case and in white space around
      them, x and y being what is inside it. */
  lemma NamesShareARunExactly(u: string, x: string, v: string, y: string)
    requires Text.Stripped(u, x) && Text.Stripped(v, y)
    ensures Key(u) == Key(v) <==> SameLetters(x, y)
  {
    Text.TrimSpaceStrips(u, x);
    Text.TrimSpaceStrips(v, y);
    UppersAgree(x, y);
  }

  /** Every entry was at most a window old at the last sweep, or came later. */
  predicate RecentSince(s: State, window: int) {
    && (s.lastSweep.None? ==> s.entries == map[])
    && (s.lastSweep.Some? ==> forall k :: k in s.entries ==> s.lastSweep.value - s.entries[k].last <= window)
  }

  lemma {:induction false} MapStaysSmall(h: seq<Event>, window: int)
    requires window > 0 && Chronological(h)
    ensures RecentSince(Replay(h, window), window)
    ensures Replay(h, window).lastSweep.Some? ==>
              exists i :: 0 <= i < |h| && h[i].Failure? && h[i].at == Replay(h, window).lastSweep.value
  {
    if h != [] {
      var g := h[..|h| - 1];
      MapStaysSmall(g, window);
      if Replay(g, window).lastSweep.Some? {
        var i :| 0 <= i < |g| && g[i].Failure? && g[i].at == Replay(g, window).lastSweep.value;
        assert h[i] == g[i];
      }
      var e := h[|h| - 1];
      if e.Failure? && Replay(h, window).lastSweep == Some(e.at) { assert h[|h| - 1].at == e.at; }
    }
  }

  /** Right after a failure is recorded nothing in the map is two windows old, so a spray of distinct
      usernames cannot make it grow without bound. */
  lemma RetainedEntriesAreYoung(h: seq<Event>, e: Event, window: int, k: string)
    requires window > 0 && e.Failure? && Chronological(h + [e])
    requires k in Replay(h + [e], window).entries
    ensures e.at - Replay(h + [e], window).entries[k].last < 2 * window
  {
    assert Chronological(h) by { assert forall i :: 0 <= i < |h| ==> (h + [e])[i] == h[i]; }
    MapStaysSmall(h, window);
    assert (h + [e])[..|h|] == h;
  }

  // ---------------------------------------------------------------- the delay

  newtype int64 = x: int | -0x8000_0000_0000_0000 <= x < 0x8000_0000_0000_0000

  const SECOND: int64 := 1_000_000_000
  const MAX_DELAY: int64 := 3600 * SECOND
  const MAX_INPUT_SECS: int64 := MAX_DELAY / SECOND

  function Min(a: int, b: int): int { if a < b then a else b }

  /** The delay the design asks for, over unbounded integers: base * min(count, tries) seconds capped
      at an hour, or none when any of the three is not positive. */
  function IntendedDelay(count: int, base: int, tries: int): int {
    if base <= 0 || Min(count, tries) <= 0 then 0
    else Min(base * Min(count, tries), 3600) * 1_000_000_000
  }

  lemma ProductAtLeast(a: int, b: int)
    requires a > 0 && b > 0
    ensures a * b >= a && a * b >= b
  {
    assert a * b == a + a * (b - 1);
    assert a * b == b + (a - 1) * b;
  }

  lemma ProductBelow(a: int, b: int, n: int)
    requires 0 < a < n && 0 < b < n
    ensures 0 < a * b < n * n
  {
    assert a * b < a * n;
    assert a * n < n * n;
  }

  /** For every int64 setting and count the machine arithmetic never overflows and gives exactly the
      intended delay. */
  method ThrottleDelay(count: int64, baseSecs: int64, maxTries: int64) returns (d: int64)
    ensures d as int == IntendedDelay(count as int, baseSecs as int, maxTries as int)
  {
    if baseSecs <= 0 { return 0; }
    var mult := count;
    if mult > maxTries { mult := maxTries; }
    if mult <= 0 { return 0; }
    ProductAtLeast(baseSecs as int, mult as int);
    if baseSecs >= MAX_INPUT_SECS || mult >= MAX_INPUT_SECS { return MAX_DELAY; }
    ProductBelow(baseSecs as int, mult as int, 3600);
    var secs := baseSecs * mult;
    if secs >= MAX_INPUT_SECS { return MAX_DELAY; }
    return secs * SECOND;
  }

  /** One more failure never shortens the delay, and no setting makes it negative or longer than an
      hour. */
  lemma DelayIsMonotone(count: int, more: int, base: int, tries: int)
    requires count <= more
    ensures 0 <= IntendedDelay(count, base, tries) <= IntendedDelay(more, base, tries) <= 3600 * 1_000_000_000
  {
    var a, b := Min(count, tries), Min(more, tries);
    if base > 0 && a > 0 {
      assert base * b == base * a + base * (b - a);
      assert base * (b - a) >= 0;
      ProductAtLeast(base, a);
    } else if base > 0 && b > 0 {
      ProductAtLeast(base, b);
    }
  }

  /** Failure by failure: each adds exactly the base, in seconds, until the number of tries or the hour is
      reached; after that none adds anything. */
  lemma DelayGrowsByBase(count: int, base: int, tries: int)
    ensures count <= 0 || base <= 0 || tries <= 0 ==> IntendedDelay(count, base, tries) == 0
    ensures base > 0 && 0 <= count < tries ==>
              IntendedDelay(count + 1, base, tries) ==
              if base * (count + 1) <= 3600 then IntendedDelay(count, base, tries) + base * 1_000_000_000
              else 3_600_000_000_000
    ensures count >= tries ==> IntendedDelay(count + 1, base, tries) == IntendedDelay(count, base, tries)
  {
    assert base * (count + 1) == base * count + base;
    if base > 0 && 0 < count < tries {
      assert Min(count, tries) == count && Min(count + 1, tries) == count + 1;
    }
  }
}
