/** The admin list and detail screens' drivers (internal/ui3270/list.go, internal/ui3270/detail.go):
    which key presses make a confirm-gated command commit. Data, the user's keys and the handlers'
    answers are chosen freely by a script; its end is a dead connection. */
module ListDriver {
  import opened Layout
  import opened Prelude

  // ---------------------------------------------------------------- lists

  /** A line command: `blocks` is its confirm capability's veto, absent when it commits at once. */
  datatype Command<!T> = Command(key: char, blocks: Option<T -> bool>)

  datatype Keys = Keys(cmd: char, row: nat, pf: int)

  const NO_COMMAND := '\0'

  predicate PlainEnter(k: Keys) { k.cmd == NO_COMMAND && k.pf == 0 }

  datatype Fetch<T> = Rows(rows: seq<T>) | FetchError

  /** One turn of the loop: what Fetch returns, the keys pressed (or a dead connection), and whether
      the handler called in this turn reports a fatal error. */
  datatype Turn<T> = Turn(fetch: Fetch<T>, keys: Option<Keys>, fatal: bool)

  datatype Obs<T> =
    | Shown(page: seq<T>)
    | FetchFailed
    | Pressed(keys: Keys)
    | Armed(key: char, item: T)
    | Committed(key: char, item: T, gated: bool)
    | Added

  function Find<T>(cmds: seq<Command<T>>, key: char): (c: Option<Command<T>>)
    ensures c.Some? ==> c.value in cmds && c.value.key == key
  {
    if cmds == [] then None else if cmds[0].key == key then Some(cmds[0]) else Find(cmds[1..], key)
  }

  /** Item x was on the page shown just before the keys at position i, on the row they name. */
  predicate Chosen<T(==)>(trace: seq<Obs<T>>, i: int, key: char, x: T) {
    && 1 <= i < |trace|
    && trace[i].Pressed? && trace[i].keys.cmd == key && key != NO_COMMAND
    && trace[i - 1].Shown? && trace[i].keys.row < |trace[i - 1].page|
    && trace[i - 1].page[trace[i].keys.row] == x
  }

  /** Where a commit or an arming may stand: a gated commit right after a plain Enter on the first
      screen after the arming, an ungated one right after its own keys, an arming right after its own
      keys for a command whose confirm does not veto the item. */
  predicate Placed<T(==)>(trace: seq<Obs<T>>, i: int, cmds: seq<Command<T>>)
    requires 0 <= i < |trace|
  {
    match trace[i]
    case Committed(key, x, gated) =>
      if gated then
        && 3 <= i
        && trace[i - 1].Pressed? && PlainEnter(trace[i - 1].keys)
        && trace[i - 2].Shown?
        && trace[i - 3] == Armed(key, x)
      else
        && Chosen(trace, i - 1, key, x)
        && Find(cmds, key).Some? && Find(cmds, key).value.blocks.None?
    case Armed(key, x) =>
      && Chosen(trace, i - 1, key, x)
      && Find(cmds, key).Some? && Find(cmds, key).value.blocks.Some?
      && !Find(cmds, key).value.blocks.value(x)
    case _ => true
  }

  /** A plain Enter on the screen right after an arming does commit. */
  predicate Honoured<T(==)>(trace: seq<Obs<T>>, i: int)
    requires 0 <= i < |trace|
  {
    2 <= i && trace[i].Pressed? && PlainEnter(trace[i].keys) && trace[i - 1].Shown? && trace[i - 2].Armed? ==>
      i + 1 < |trace| && trace[i + 1] == Committed(trace[i - 2].key, trace[i - 2].item, true)
  }

  predicate Gated<T(==)>(trace: seq<Obs<T>>, cmds: seq<Command<T>>) {
    && (forall i :: 0 <= i < |trace| ==> Placed(trace, i, cmds))
    && (forall i :: 0 <= i < |trace| ==> Honoured(trace, i))
  }

  lemma PlacedStays<T>(trace: seq<Obs<T>>, more: seq<Obs<T>>, cmds: seq<Command<T>>)
    requires forall i :: 0 <= i < |trace| ==> Placed(trace, i, cmds)
    ensures forall i :: 0 <= i < |trace| ==> Placed(trace + more, i, cmds)
  {
    var all := trace + more;
    forall i | 0 <= i < |trace| ensures Placed(all, i, cmds) {
      assert Placed(trace, i, cmds);
      assert all[i] == trace[i];
      if i >= 1 { assert all[i - 1] == trace[i - 1]; }
      if i >= 2 { assert all[i - 2] == trace[i - 2]; }
      if i >= 3 { assert all[i - 3] == trace[i - 3]; }
    }
  }

  lemma HonouredStays<T>(trace: seq<Obs<T>>, more: seq<Obs<T>>)
    requires forall i :: 0 <= i < |trace| ==> Honoured(trace, i)
    ensures forall i :: 0 <= i < |trace| ==> Honoured(trace + more, i)
  {
    var all := trace + more;
    forall i | 0 <= i < |trace| ensures Honoured(all, i) {
      assert Honoured(trace, i);
      assert all[i] == trace[i];
      if i >= 1 { assert all[i - 1] == trace[i - 1]; }
      if i >= 2 { assert all[i - 2] == trace[i - 2]; }
      if i + 1 < |trace| { assert all[i + 1] == trace[i + 1]; }
    }
  }

  predicate ArmedLast<T>(trace: seq<Obs<T>>) { trace != [] && trace[|trace| - 1].Armed? }

  /** What one turn may add: a screen, the keys pressed on it, and what those keys lead to. */
  predicate Allowed<T(==)>(trace: seq<Obs<T>>, more: seq<Obs<T>>, cmds: seq<Command<T>>) {
    && 1 <= |more| <= 3
    && (more[0].Shown? || more[0].FetchFailed?)
    && (|more| >= 2 ==> more[1].Pressed?)
    && (|more| >= 2 && more[0].Shown? && ArmedLast(trace) && PlainEnter(more[1].keys) ==> |more| == 3)
    && (|more| == 3 ==> Leads(trace, more[0], more[1].keys, more[2], cmds))
  }

  predicate Picked<T(==)>(screen: Obs<T>, keys: Keys, key: char, x: T) {
    screen.Shown? && keys.cmd == key && key != NO_COMMAND && keys.row < |screen.page| && screen.page[keys.row] == x
  }

  predicate Leads<T(==)>(trace: seq<Obs<T>>, screen: Obs<T>, keys: Keys, o: Obs<T>, cmds: seq<Command<T>>) {
    if screen.Shown? && ArmedLast(trace) && PlainEnter(keys) then
      o == Committed(trace[|trace| - 1].key, trace[|trace| - 1].item, true)
    else
      match o
      case Committed(key, x, gated) =>
        !gated && Picked(screen, keys, key, x) && Find(cmds, key).Some? && Find(cmds, key).value.blocks.None?
      case Armed(key, x) =>
        && Picked(screen, keys, key, x)
        && Find(cmds, key).Some? && Find(cmds, key).value.blocks.Some? && !Find(cmds, key).value.blocks.value(x)
      case Added => true
      case _ => false
  }

  lemma TurnGated<T>(trace: seq<Obs<T>>, more: seq<Obs<T>>, cmds: seq<Command<T>>)
    requires Gated(trace, cmds) && Allowed(trace, more, cmds)
    ensures Gated(trace + more, cmds)
  {
    PlacedStays(trace, more, cmds);
    HonouredStays(trace, more);
    var all, n := trace + more, |trace|;
    assert all[n] == more[0];
    if n > 0 { assert all[n - 1] == trace[n - 1]; }
    if |more| >= 2 { assert all[n + 1] == more[1]; }
    if |more| == 3 { assert all[n + 2] == more[2]; }
    forall i | n <= i < |all| ensures Placed(all, i, cmds) && Honoured(all, i) {
      assert i == n || i == n + 1 || i == n + 2;
    }
  }

  datatype End = Left | Dead | Fatal

  // ---------------------------------------------------------------- turns

  /** One turn as it happened: the page asked for, the screen shown, the keys pressed on it, and what
      they led to. */
  datatype Taken<T> = Taken(asked: int, screen: Obs<T>, keys: Option<Keys>, reply: Option<Obs<T>>)

  function Fetched<T>(f: Fetch<T>): seq<T> { if f.Rows? then f.rows else [] }

  function Screen<T>(f: Fetch<T>, asked: int, rows: int): Obs<T> {
    var b := PageBounds(asked, |Fetched(f)|, rows);
    if f.Rows? then Shown(f.rows[b.start..b.end]) else FetchFailed
  }

  function PageRows<T>(screen: Obs<T>): seq<T> { if screen.Shown? then screen.page else [] }

  /** The page asked for after a turn. */
  function NextPage<T>(t: Taken<T>, f: Fetch<T>, rows: int): int {
    var b := PageBounds(t.asked, |Fetched(f)|, rows);
    if t.keys.Some? && t.keys.value.pf == 7 then b.page - 1
    else if t.keys.Some? && t.keys.value.pf == 8 && b.end < |Fetched(f)| then b.page + 1
    else b.page
  }

  /** The arming that waits when turn i's keys are pressed: the previous turn's, unless the fetch since
      has failed. */
  function Pending<T>(turns: seq<Taken<T>>, i: nat, screen: Obs<T>): Option<(char, T)>
    requires i <= |turns|
  {
    if i > 0 && turns[i - 1].reply.Some? && turns[i - 1].reply.value.Armed? && screen.Shown?
    then Some((turns[i - 1].reply.value.key, turns[i - 1].reply.value.item))
    else None
  }

  /** What keys lead to. */
  function Reply<T>(pending: Option<(char, T)>, page: seq<T>, k: Keys, cmds: seq<Command<T>>, hasAdd: bool)
    : Option<Obs<T>>
  {
    if pending.Some? && PlainEnter(k) then Some(Committed(pending.value.0, pending.value.1, true))
    else if k.pf == 4 then (if hasAdd then Some(Added) else None)
    else if k.pf in {3, 7, 8} || k.cmd == NO_COMMAND || k.row >= |page| then None
    else
      var c := Find(cmds, k.cmd);
      if c.None? then None
      else if c.value.blocks.None? then Some(Committed(k.cmd, page[k.row], false))
      else if c.value.blocks.value(page[k.row]) then None
      else Some(Armed(k.cmd, page[k.row]))
  }

  /** Turn i is the script's i-th: its fetch on the page asked for, its keys, and what they lead to. */
  ghost predicate TurnAt<T>(cmds: seq<Command<T>>, hasAdd: bool, rows: int, script: seq<Turn<T>>,
                            turns: seq<Taken<T>>, i: nat)
    requires i < |turns| <= |script|
  {
    var t := turns[i];
    && t.asked == (if i == 0 then 0 else NextPage(turns[i - 1], script[i - 1].fetch, rows))
    && t.screen == Screen(script[i].fetch, t.asked, rows)
    && t.keys == script[i].keys
    && t.reply == if t.keys.None? then None
                  else Reply(Pending(turns, i, t.screen), PageRows(t.screen), t.keys.value, cmds, hasAdd)
  }

  ghost predicate Chronicle<T>(cmds: seq<Command<T>>, hasAdd: bool, rows: int, script: seq<Turn<T>>,
                               turns: seq<Taken<T>>)
  {
    |turns| <= |script| && forall i :: 0 <= i < |turns| ==> TurnAt(cmds, hasAdd, rows, script, turns, i)
  }

  lemma TurnSnoc<T>(cmds: seq<Command<T>>, hasAdd: bool, rows: int, script: seq<Turn<T>>,
                    turns: seq<Taken<T>>, t: Taken<T>)
    requires Chronicle(cmds, hasAdd, rows, script, turns) && |turns| < |script|
    requires TurnAt(cmds, hasAdd, rows, script, turns + [t], |turns|)
    ensures Chronicle(cmds, hasAdd, rows, script, turns + [t])
  {
    var all := turns + [t];
    forall i: nat | i < |all| ensures TurnAt(cmds, hasAdd, rows, script, all, i) {
      if i < |turns| {
        assert TurnAt(cmds, hasAdd, rows, script, turns, i);
        assert all[i] == turns[i] && (i > 0 ==> all[i - 1] == turns[i - 1]);
      }
    }
  }

  /** How turn i ends the run, if it does: a dead connection, a handler's fatal error, or PF3 with no
      arming to cancel. */
  function EndOf<T>(turns: seq<Taken<T>>, i: nat, fatal: bool): Option<End>
    requires i < |turns|
  {
    var t := turns[i];
    if t.keys.None? then Some(Dead)
    else if t.reply.Some? && !t.reply.value.Armed? then (if fatal then Some(Fatal) else None)
    else if t.keys.value.pf == 3 && Pending(turns, i, t.screen).None? then Some(Left)
    else None
  }

  /** No turn but the last ends the run; if the last does not either, the connection died. */
  predicate Explains<T>(end: End, turns: seq<Taken<T>>, script: seq<Turn<T>>)
    requires |turns| <= |script|
  {
    var n := |turns|;
    && (forall i :: 0 <= i < n - 1 ==> EndOf(turns, i, script[i].fatal).None?)
    && if n > 0 && EndOf(turns, n - 1, script[n - 1].fatal).Some?
       then EndOf(turns, n - 1, script[n - 1].fatal) == Some(end)
       else end == Dead && n == |script|
  }

  function Emitted<T>(t: Taken<T>): seq<Obs<T>> {
    [t.screen]
    + (if t.keys.Some? then [Pressed(t.keys.value)] else [])
    + (if t.reply.Some? then [t.reply.value] else [])
  }

  function Flat<T>(turns: seq<Taken<T>>): seq<Obs<T>> {
    if turns == [] then [] else Flat(turns[..|turns| - 1]) + Emitted(turns[|turns| - 1])
  }

  lemma FlatSnoc<T>(turns: seq<Taken<T>>, t: Taken<T>)
    ensures Flat(turns + [t]) == Flat(turns) + Emitted(t)
  {
    assert (turns + [t])[..|turns|] == turns;
  }

  /** The arming that waits for turn n's screen is the one that ended the trace. */
  predicate Waiting<T(==)>(turns: seq<Taken<T>>, n: nat, trace: seq<Obs<T>>)
    requires n <= |turns|
  {
    if n > 0 && turns[n - 1].reply.Some? && turns[n - 1].reply.value.Armed?
    then trace != [] && trace[|trace| - 1] == turns[n - 1].reply.value
    else !ArmedLast(trace)
  }

  lemma EmittedAllowed<T>(cmds: seq<Command<T>>, hasAdd: bool, rows: int, script: seq<Turn<T>>,
                          turns: seq<Taken<T>>, i: nat, trace: seq<Obs<T>>)
    requires i < |turns| <= |script| && TurnAt(cmds, hasAdd, rows, script, turns, i) && Waiting(turns, i, trace)
    ensures Allowed(trace, Emitted(turns[i]), cmds)
    ensures Waiting(turns, i + 1, trace + Emitted(turns[i]))
  {
  }

  /** Over every script: a gated command commits exactly on a plain Enter at the first good screen after
      its arming, on the item armed. */
  lemma {:induction false} RunIsGated<T>(cmds: seq<Command<T>>, hasAdd: bool, rows: int, script: seq<Turn<T>>,
                                         turns: seq<Taken<T>>, n: nat)
    requires Chronicle(cmds, hasAdd, rows, script, turns) && n <= |turns|
    ensures Gated(Flat(turns[..n]), cmds) && Waiting(turns, n, Flat(turns[..n]))
    decreases n
  {
    if n > 0 {
      RunIsGated(cmds, hasAdd, rows, script, turns, n - 1);
      var trace := Flat(turns[..n - 1]);
      assert turns[..n] == turns[..n - 1] + [turns[n - 1]];
      FlatSnoc(turns[..n - 1], turns[n - 1]);
      assert TurnAt(cmds, hasAdd, rows, script, turns, n - 1);
      EmittedAllowed(cmds, hasAdd, rows, script, turns, n - 1, trace);
      TurnGated(trace, Emitted(turns[n - 1]), cmds);
    }
  }

  /** What one turn's keys do once the screen is up. */
  method React<T>(cmds: seq<Command<T>>, hasAdd: bool, pending: Option<(char, T)>, page: seq<T>, keys: Keys,
                  fatal: bool)
    returns (reply: Option<Obs<T>>, over: Option<End>)
    ensures reply == Reply(pending, page, keys, cmds, hasAdd)
    ensures over == if reply.Some? && !reply.value.Armed? then (if fatal then Some(Fatal) else None)
                    else if keys.pf == 3 && pending.None? then Some(Left)
                    else None
  {
    reply, over := None, None;
    if pending.Some? && keys.cmd == NO_COMMAND && keys.pf == 0 {
      reply := Some(Committed(pending.value.0, pending.value.1, true));
      if fatal { over := Some(Fatal); }
    } else if pending.Some? && keys.pf == 3 {
      // only the pending confirm is cancelled
    } else if keys.pf == 3 {
      over := Some(Left);
    } else if keys.pf == 4 {
      if hasAdd {
        reply := Some(Added);
        if fatal { over := Some(Fatal); }
      }
    } else if keys.pf != 7 && keys.pf != 8 && keys.cmd != NO_COMMAND && keys.row < |page| {
      var cmd := Find(cmds, keys.cmd);
      if cmd.Some? && cmd.value.blocks.None? {
        reply := Some(Committed(keys.cmd, page[keys.row], false));
        if fatal { over := Some(Fatal); }
      } else if cmd.Some? && !cmd.value.blocks.value(page[keys.row]) {
        reply := Some(Armed(keys.cmd, page[keys.row]));
      }
    }
  }

  /** Turn i shows the script's i-th fetch, on the page its keys so far lead to, and carries out the
      script's i-th keys; a dead connection, a fatal handler or PF3 ends the run. The trace is gated. */
  method RunList<T(==)>(cmds: seq<Command<T>>, hasAdd: bool, rows: int, script: seq<Turn<T>>)
    returns (end: End, turns: seq<Taken<T>>, trace: seq<Obs<T>>)
    ensures Chronicle(cmds, hasAdd, rows, script, turns) && Explains(end, turns, script)
    ensures trace == Flat(turns) && Gated(trace, cmds)
  {
    var page := 0;
    var pending: Option<(char, T)> := None;
    turns, trace, end := [], [], Dead;
    while |turns| < |script|
      invariant Underway(cmds, hasAdd, rows, script, turns, page, pending) && trace == Flat(turns)
      invariant end == Dead
      decreases |script| - |turns|
    {
      var now := script[|turns|];
      if now.fetch.FetchError? { pending := None; }
      var t, over, next := TakeTurn(cmds, hasAdd, rows, now, page, pending);
      FlatSnoc(turns, t);
      GoesOn(cmds, hasAdd, rows, script, turns, t, page, pending, over, next);
      turns, trace := turns + [t], trace + Emitted(t);
      if over.Some? {
        end := over.value;
        break;
      }
      pending := ArmedBy(t);
      page := next;
    }
    assert turns == turns[..|turns|];
    RunIsGated(cmds, hasAdd, rows, script, turns, |turns|);
  }

  /** The command a turn leaves armed. */
  function ArmedBy<T>(t: Taken<T>): Option<(char, T)> {
    if t.reply.Some? && t.reply.value.Armed? then Some((t.reply.value.key, t.reply.value.item)) else None
  }

  /** The turns so far did not end the run, and left this page and this arming. */
  ghost predicate Underway<T>(cmds: seq<Command<T>>, hasAdd: bool, rows: int, script: seq<Turn<T>>,
                              turns: seq<Taken<T>>, page: int, pending: Option<(char, T)>)
  {
    && Chronicle(cmds, hasAdd, rows, script, turns)
    && page == AskedNext(turns, script, rows) && pending == Pending(turns, |turns|, Shown([]))
    && forall i :: 0 <= i < |turns| ==> EndOf(turns, i, script[i].fatal).None?
  }

  /** A turn just taken either ends the run or leaves it under way. */
  lemma GoesOn<T>(cmds: seq<Command<T>>, hasAdd: bool, rows: int, script: seq<Turn<T>>, turns: seq<Taken<T>>,
                  t: Taken<T>, page: int, pending: Option<(char, T)>, over: Option<End>, next: int)
    requires |turns| < |script|
    requires var now, before := script[|turns|], Pending(turns, |turns|, Shown([]));
             && Underway(cmds, hasAdd, rows, script, turns, page, before)
             && pending == (if now.fetch.FetchError? then None else before)
             && t.asked == page && t.screen == Screen(now.fetch, page, rows) && t.keys == now.keys
             && next == NextPage(t, now.fetch, rows)
             && t.reply == (if t.keys.None? then None
                            else Reply(pending, PageRows(t.screen), t.keys.value, cmds, hasAdd))
             && over == if t.keys.None? then Some(Dead)
                        else if t.reply.Some? && !t.reply.value.Armed? then (if now.fatal then Some(Fatal) else None)
                        else if t.keys.value.pf == 3 && pending.None? then Some(Left)
                        else None
    ensures if over.Some? then
              Chronicle(cmds, hasAdd, rows, script, turns + [t]) && Explains(over.value, turns + [t], script)
            else Underway(cmds, hasAdd, rows, script, turns + [t], next, ArmedBy(t))
  {
    TurnTaken(cmds, hasAdd, rows, script, turns, t, page, pending);
    var all := turns + [t];
    assert all[|turns|] == t;
  }

  function AskedNext<T>(turns: seq<Taken<T>>, script: seq<Turn<T>>, rows: int): int
    requires |turns| <= |script|
  {
    if turns == [] then 0 else NextPage(turns[|turns| - 1], script[|turns| - 1].fetch, rows)
  }

  /** The bookkeeping of one turn. */
  lemma TurnTaken<T>(cmds: seq<Command<T>>, hasAdd: bool, rows: int, script: seq<Turn<T>>, turns: seq<Taken<T>>,
                     t: Taken<T>, page: int, pending: Option<(char, T)>)
    requires Chronicle(cmds, hasAdd, rows, script, turns) && |turns| < |script|
    requires forall i :: 0 <= i < |turns| ==> EndOf(turns, i, script[i].fatal).None?
    requires page == AskedNext(turns, script, rows) && pending == Pending(turns, |turns|, t.screen)
    requires t.asked == page && t.screen == Screen(script[|turns|].fetch, page, rows) && t.keys == script[|turns|].keys
    requires t.reply == if t.keys.None? then None
                        else Reply(pending, PageRows(t.screen), t.keys.value, cmds, hasAdd)
    ensures Chronicle(cmds, hasAdd, rows, script, turns + [t])
    ensures forall i :: 0 <= i < |turns| ==> EndOf(turns + [t], i, script[i].fatal).None?
    ensures EndOf(turns + [t], |turns|, script[|turns|].fatal) ==
            if t.keys.None? then Some(Dead)
            else if t.reply.Some? && !t.reply.value.Armed? then (if script[|turns|].fatal then Some(Fatal) else None)
            else if t.keys.value.pf == 3 && pending.None? then Some(Left)
            else None
  {
    assert Pending(turns + [t], |turns|, t.screen) == pending;
    TurnSnoc(cmds, hasAdd, rows, script, turns, t);
    EndsStay(turns, t, script);
  }

  lemma EndsStay<T>(before: seq<Taken<T>>, t: Taken<T>, script: seq<Turn<T>>)
    requires |before| < |script| && forall i :: 0 <= i < |before| ==> EndOf(before, i, script[i].fatal).None?
    ensures forall i :: 0 <= i < |before| ==> EndOf(before + [t], i, script[i].fatal).None?
  {
    forall i | 0 <= i < |before| ensures EndOf(before + [t], i, script[i].fatal).None? {
      assert (before + [t])[i] == before[i] && (i > 0 ==> (before + [t])[i - 1] == before[i - 1]);
      assert EndOf(before, i, script[i].fatal).None?;
    }
  }

  /** One turn of the loop. */
  method TakeTurn<T>(cmds: seq<Command<T>>, hasAdd: bool, rows: int, now: Turn<T>, page: int,
                     pending: Option<(char, T)>)
    returns (t: Taken<T>, over: Option<End>, next: int)
    ensures next == NextPage(t, now.fetch, rows)
    ensures t.asked == page && t.screen == Screen(now.fetch, page, rows) && t.keys == now.keys
    ensures t.reply == if t.keys.None? then None
                       else Reply(pending, PageRows(t.screen), t.keys.value, cmds, hasAdd)
    ensures over == if t.keys.None? then Some(Dead)
                    else if t.reply.Some? && !t.reply.value.Armed? then (if now.fatal then Some(Fatal) else None)
                    else if t.keys.value.pf == 3 && pending.None? then Some(Left)
                    else None
  {
    var data: seq<T> := [];
    if now.fetch.Rows? { data := now.fetch.rows; }
    var bounds := PageBounds(page, |data|, rows);
    var pageRows := data[bounds.start..bounds.end];
    var screen: Obs<T> := FetchFailed;
    if now.fetch.Rows? { screen := Shown(pageRows); }
    next := bounds.page;
    if now.keys.None? { return Taken(page, screen, None, None), Some(Dead), next; }
    var keys := now.keys.value;
    var reply;
    reply, over := React(cmds, hasAdd, pending, pageRows, keys, now.fatal);
    if keys.pf == 7 {
      next := next - 1;
    } else if keys.pf == 8 {
      if bounds.end < |data| { next := next + 1; }
    }
    t := Taken(page, screen, now.keys, reply);
  }

  /** No arming commits twice, and nothing but one successful screen lies between the two. */
  lemma OncePerArming<T>(trace: seq<Obs<T>>, cmds: seq<Command<T>>, i: nat, j: nat)
    requires Gated(trace, cmds) && i < j < |trace|
    requires trace[i].Committed? && trace[i].gated && trace[j].Committed? && trace[j].gated
    ensures 3 <= i && trace[i - 3].Armed? && trace[j - 3].Armed? && i < j - 3
  {
    assert Placed(trace, i, cmds) && Placed(trace, j, cmds);
    assert trace[j - 1].Pressed? && trace[j - 2].Shown? && trace[j - 3].Armed?;
  }

  // ---------------------------------------------------------------- what the keys do

  /** This is the first of the commands with its key. */
  predicate FirstWith<T>(cmds: seq<Command<T>>, n: int, key: char) {
    0 <= n < |cmds| && cmds[n].key == key && forall m :: 0 <= m < n ==> cmds[m].key != key
  }

  lemma {:induction false} FindIsFirst<T>(cmds: seq<Command<T>>, key: char)
    ensures Find(cmds, key).None? <==> forall n :: 0 <= n < |cmds| ==> cmds[n].key != key
    ensures Find(cmds, key).Some? ==> exists n :: FirstWith(cmds, n, key) && Find(cmds, key).value == cmds[n]
  {
    if cmds != [] {
      FindIsFirst(cmds[1..], key);
      if cmds[0].key == key {
        assert FirstWith(cmds, 0, key);
      } else if Find(cmds[1..], key).Some? {
        var n :| FirstWith(cmds[1..], n, key) && Find(cmds[1..], key).value == cmds[1..][n];
        assert FirstWith(cmds, n + 1, key) && cmds[n + 1] == cmds[1..][n];
      } else {
        assert forall n :: 1 <= n < |cmds| ==> cmds[n] == cmds[1..][n - 1];
      }
    }
  }

  /** On a good screen the keys name an item, and the n-th command is the first with the key typed. */
  predicate Invokes<T(==)>(t: Taken<T>, cmds: seq<Command<T>>, n: int, x: T) {
    && t.keys.Some? && t.screen.Shown? && t.keys.value.cmd != '\0' && FirstWith(cmds, n, t.keys.value.cmd)
    && t.keys.value.row < |t.screen.page| && t.screen.page[t.keys.value.row] == x
    && t.keys.value.pf != 3 && t.keys.value.pf != 4 && t.keys.value.pf != 7 && t.keys.value.pf != 8
  }

  /** The turn before left this command armed on this item, and its screen is still good. */
  predicate Awaits<T(==)>(turns: seq<Taken<T>>, i: nat, key: char, x: T)
    requires i < |turns|
  {
    i > 0 && turns[i - 1].reply == Some(Armed(key, x)) && turns[i].screen.Shown?
  }

  /** What a turn's keys do, both ways. A plain Enter commits what is armed. Otherwise a command typed on a
      row commits there and then if it asks for no confirmation, and is armed if it does and does not
      veto the item; PF4 adds where adding is offered; and nothing else happens. */
  lemma KeysAreCarriedOut<T>(cmds: seq<Command<T>>, hasAdd: bool, rows: int, script: seq<Turn<T>>,
                             turns: seq<Taken<T>>, i: nat, key: char, x: T)
    requires Chronicle(cmds, hasAdd, rows, script, turns) && i < |turns|
    ensures var t := turns[i];
            && t.keys == script[i].keys
            && (t.reply == Some(Committed(key, x, true)) <==>
                  Awaits(turns, i, key, x) && t.keys.Some? && t.keys.value.cmd == '\0' && t.keys.value.pf == 0)
            && (t.reply == Some(Committed(key, x, false)) <==>
                  exists n :: Invokes(t, cmds, n, x) && cmds[n].key == key && cmds[n].blocks.None?)
            && (t.reply == Some(Armed(key, x)) <==>
                  exists n :: Invokes(t, cmds, n, x) && cmds[n].key == key && cmds[n].blocks.Some?
                              && !cmds[n].blocks.value(x))
            && (t.reply == Some(Added) <==> t.keys.Some? && t.keys.value.pf == 4 && hasAdd)
  {
    assert TurnAt(cmds, hasAdd, rows, script, turns, i);
    var t := turns[i];
    if t.keys.Some? {
      var k := t.keys.value;
      FindIsFirst(cmds, k.cmd);
      forall n | Invokes(t, cmds, n, x) ensures Find(cmds, k.cmd) == Some(cmds[n]) {
        OnlyFirst(cmds, n, k.cmd);
      }
    }
  }

  lemma OnlyFirst<T>(cmds: seq<Command<T>>, n: int, key: char)
    requires FirstWith(cmds, n, key)
    ensures Find(cmds, key) == Some(cmds[n])
  {
    FindIsFirst(cmds, key);
    var m :| FirstWith(cmds, m, key) && Find(cmds, key).value == cmds[m];
    assert m == n;
  }

  /** Over unchanged rows PF8 shows the rows after the page, if there are any, PF7 those before it, and any
      other key the same place again. */
  lemma KeysPage<T>(cmds: seq<Command<T>>, hasAdd: bool, rows: int, script: seq<Turn<T>>,
                    turns: seq<Taken<T>>, i: nat, all: seq<T>)
    requires Chronicle(cmds, hasAdd, rows, script, turns) && i + 1 < |turns| && turns[i].keys.Some?
    requires script[i].fetch == script[i + 1].fetch == Rows(all) && all != []
    ensures exists a, b, c, d :: 0 <= a < b <= |all| && 0 <= c < d <= |all|
              && turns[i].screen == Shown(all[a..b]) && turns[i + 1].screen == Shown(all[c..d])
              && (var pf := turns[i].keys.value.pf;
                  && (pf == 8 && b < |all| ==> c == b)
                  && (pf == 7 && a > 0 ==> d == a)
                  && (pf != 7 && pf != 8 ==> c == a))
  {
    assert TurnAt(cmds, hasAdd, rows, script, turns, i) && TurnAt(cmds, hasAdd, rows, script, turns, i + 1);
    var p := PageBounds(turns[i].asked, |all|, rows);
    var q := PageBounds(turns[i + 1].asked, |all|, rows);
    KeyTurns(turns[i].asked, turns[i + 1].asked, |all|, rows, turns[i].keys.value.pf);
    assert turns[i].screen == Shown(all[p.start..p.end]) && turns[i + 1].screen == Shown(all[q.start..q.end]);
  }

  /** The list is left by PF3 with nothing armed; a commit or an addition whose handler reports a fatal error
      ends it too, and so does a dead connection; nothing before the last turn did. */
  lemma LastKeyEnds<T>(cmds: seq<Command<T>>, hasAdd: bool, rows: int, script: seq<Turn<T>>, turns: seq<Taken<T>>,
                       end: End)
    requires Chronicle(cmds, hasAdd, rows, script, turns) && Explains(end, turns, script)
    ensures end == Left <==> turns != [] && LeavesAt(turns, |turns| - 1)
    ensures end == Fatal <==> turns != [] && Carried(turns[|turns| - 1]) && script[|turns| - 1].fatal
    ensures forall i :: 0 <= i < |turns| - 1 ==> !LeavesAt(turns, i) && !(Carried(turns[i]) && script[i].fatal)
  {
    forall i: nat | i < |turns|
      ensures LeavesAt(turns, i) <==> EndOf(turns, i, script[i].fatal) == Some(Left)
      ensures Carried(turns[i]) && script[i].fatal <==> EndOf(turns, i, script[i].fatal) == Some(Fatal)
    {
      assert TurnAt(cmds, hasAdd, rows, script, turns, i);
    }
  }

  /** PF3 was pressed, and no command was armed for it to cancel. */
  predicate LeavesAt<T(==)>(turns: seq<Taken<T>>, i: int)
    requires 0 <= i < |turns|
  {
    && turns[i].keys.Some? && turns[i].keys.value.pf == 3
    && !(i > 0 && turns[i - 1].reply.Some? && turns[i - 1].reply.value.Armed? && turns[i].screen.Shown?)
  }

  /** A handler was called. */
  predicate Carried<T>(t: Taken<T>) { t.reply.Some? && (t.reply.value.Committed? || t.reply.value.Added?) }

  // ---------------------------------------------------------------- the detail screen

  /** One turn: the PF key pressed (None: dead connection), whether Confirm would veto, and the refresh
      flag OnAct would return. */
  datatype DetailTurn = DetailTurn(pf: Option<int>, veto: bool, refresh: bool)

  datatype DetailObs = Key(pf: int) | Asked(vetoed: bool) | Acted(refresh: bool)

  /** The action stands right after two presses of its key with nothing but the first press's
      unvetoed prompt between them. */
  predicate TwoPresses(trace: seq<DetailObs>, i: int, actPF: int)
    requires 0 <= i < |trace|
  {
    trace[i].Acted? ==>
      3 <= i && trace[i - 1] == Key(actPF) && trace[i - 2] == Asked(false) && trace[i - 3] == Key(actPF)
  }

  /** What a trace of the detail screen shows: how often the action ran, and the refresh flag its last
      run asked for. */
  datatype Tally = Tally(acts: nat, refresh: bool)

  function Tallied(trace: seq<DetailObs>): Tally {
    if trace == [] then Tally(0, false)
    else
      var t, o := Tallied(trace[..|trace| - 1]), trace[|trace| - 1];
      if o.Acted? then Tally(t.acts + 1, o.refresh) else t
  }

  lemma TallySnoc(trace: seq<DetailObs>, o: DetailObs)
    ensures Tallied(trace + [o]) == if o.Acted? then Tally(Tallied(trace).acts + 1, o.refresh) else Tallied(trace)
  {
    assert (trace + [o])[..|trace|] == trace;
  }

  predicate AllTwoPresses(trace: seq<DetailObs>, actPF: int) {
    forall i :: 0 <= i < |trace| ==> TwoPresses(trace, i, actPF)
  }

  lemma TwoPressesSnoc(trace: seq<DetailObs>, o: DetailObs, actPF: int)
    requires AllTwoPresses(trace, actPF)
    requires o.Acted? ==> Primed(trace, actPF) && trace[|trace| - 1] == Key(actPF)
    ensures AllTwoPresses(trace + [o], actPF)
  {
    var all := trace + [o];
    forall i | 0 <= i < |all| ensures TwoPresses(all, i, actPF) {
      if i < |trace| {
        assert TwoPresses(trace, i, actPF);
        assert forall j :: 0 <= j < |trace| ==> all[j] == trace[j];
      }
    }
  }

  /** The last key but for the one just pressed was the action key, answered by an unvetoed prompt. */
  predicate Primed(trace: seq<DetailObs>, actPF: int) {
    |trace| >= 3 && trace[|trace| - 2] == Asked(false) && trace[|trace| - 3] == Key(actPF)
  }

  /** One press and what it led to. */
  datatype Press = Press(pf: int, reply: Option<DetailObs>)

  predicate HasActed(ps: seq<Press>, n: nat)
    requires n <= |ps|
  {
    n > 0 && (HasActed(ps, n - 1) || (ps[n - 1].reply.Some? && ps[n - 1].reply.value.Acted?))
  }

  lemma {:induction false} HasActedStays(ps: seq<Press>, p: Press, n: nat)
    requires n <= |ps|
    ensures HasActed(ps + [p], n) == HasActed(ps, n)
  {
    if n > 0 { HasActedStays(ps, p, n - 1); }
  }

  /** Press i is the script's i-th. The action key, live until the action has run, asks first, and acts
      when the press just before it asked without a veto; no other key does anything. */
  predicate PressAt(actPF: int, script: seq<DetailTurn>, ps: seq<Press>, i: nat)
    requires i < |ps| <= |script|
  {
    && script[i].pf == Some(ps[i].pf)
    && ps[i].reply ==
       if ps[i].pf == 3 || actPF == 0 || ps[i].pf != actPF || HasActed(ps, i) then None
       else if i > 0 && ps[i - 1].reply == Some(Asked(false)) then Some(Acted(script[i].refresh))
       else Some(Asked(script[i].veto))
  }

  /** Presses go on to PF3, a dead connection or the script's end. */
  predicate Presses(actPF: int, script: seq<DetailTurn>, ps: seq<Press>) {
    var n := |ps|;
    && n <= |script|
    && (forall i :: 0 <= i < n ==> PressAt(actPF, script, ps, i))
    && (forall i :: 0 <= i < n - 1 ==> ps[i].pf != 3)
  }

  predicate Over(script: seq<DetailTurn>, ps: seq<Press>)
    requires |ps| <= |script|
  {
    |ps| == |script| || script[|ps|].pf.None? || (ps != [] && ps[|ps| - 1].pf == 3)
  }

  lemma PressSnoc(actPF: int, script: seq<DetailTurn>, ps: seq<Press>, p: Press)
    requires Presses(actPF, script, ps) && |ps| < |script| && (ps != [] ==> ps[|ps| - 1].pf != 3)
    requires PressAt(actPF, script, ps + [p], |ps|)
    ensures Presses(actPF, script, ps + [p])
  {
    var all := ps + [p];
    forall i: nat | i < |all| ensures PressAt(actPF, script, all, i) {
      if i < |ps| {
        assert PressAt(actPF, script, ps, i);
        assert all[i] == ps[i] && (i > 0 ==> all[i - 1] == ps[i - 1]);
        HasActedStays(ps, p, i);
      }
    }
  }

  function Telling(p: Press): seq<DetailObs> { [Key(p.pf)] + (if p.reply.Some? then [p.reply.value] else []) }

  /** The trace of the first n presses. */
  function Told(ps: seq<Press>, n: nat): seq<DetailObs>
    requires n <= |ps|
  {
    if n == 0 then [] else Told(ps, n - 1) + Telling(ps[n - 1])
  }

  lemma {:induction false} ToldStays(ps: seq<Press>, p: Press, n: nat)
    requires n <= |ps|
    ensures Told(ps + [p], n) == Told(ps, n)
  {
    if n > 0 { ToldStays(ps, p, n - 1); }
  }

  /** What the first n presses have put in the trace. */
  predicate Guarded(actPF: int, ps: seq<Press>, n: nat, trace: seq<DetailObs>)
    requires n <= |ps|
  {
    && AllTwoPresses(trace, actPF)
    && Tallied(trace).acts == (if HasActed(ps, n) then 1 else 0)
    && (HasActed(ps, n) ==> actPF != 0 && actPF != 3)
    && (n > 0 && ps[n - 1].reply == Some(Asked(false)) ==>
          |trace| >= 2 && trace[|trace| - 1] == Asked(false) && trace[|trace| - 2] == Key(actPF))
  }

  lemma GuardedStep(actPF: int, script: seq<DetailTurn>, ps: seq<Press>, n: nat, trace: seq<DetailObs>)
    requires n < |ps| <= |script| && PressAt(actPF, script, ps, n) && Guarded(actPF, ps, n, trace)
    ensures Guarded(actPF, ps, n + 1, trace + Telling(ps[n]))
  {
    PressGuarded(trace, ps[n], actPF);
  }

  lemma {:induction false} PressesAreGuarded(actPF: int, script: seq<DetailTurn>, ps: seq<Press>, n: nat)
    requires Presses(actPF, script, ps) && n <= |ps|
    ensures Guarded(actPF, ps, n, Told(ps, n))
    decreases n
  {
    if n > 0 {
      PressesAreGuarded(actPF, script, ps, n - 1);
      GuardedStep(actPF, script, ps, n - 1, Told(ps, n - 1));
    }
  }

  /** One press more in the trace. */
  lemma PressGuarded(trace: seq<DetailObs>, p: Press, actPF: int)
    requires AllTwoPresses(trace, actPF)
    requires p.reply.Some? && p.reply.value.Acted? ==>
               p.pf == actPF && |trace| >= 2 && trace[|trace| - 1] == Asked(false) && trace[|trace| - 2] == Key(actPF)
    ensures AllTwoPresses(trace + Telling(p), actPF)
    ensures Tallied(trace + Telling(p)) ==
            if p.reply.Some? && p.reply.value.Acted? then Tally(Tallied(trace).acts + 1, p.reply.value.refresh)
            else Tallied(trace)
  {
    TallySnoc(trace, Key(p.pf));
    TwoPressesSnoc(trace, Key(p.pf), actPF);
    if p.reply.Some? {
      TallySnoc(trace + [Key(p.pf)], p.reply.value);
      TwoPressesSnoc(trace + [Key(p.pf)], p.reply.value, actPF);
      assert trace + Telling(p) == trace + [Key(p.pf)] + [p.reply.value];
    } else {
      assert trace + Telling(p) == trace + [Key(p.pf)];
    }
  }

  /** The presses are the script's own. The action runs at most once, only on two consecutive presses of
      its key, and the caller is told to refresh exactly as the action asked. */
  method RunDetail(actPF: int, script: seq<DetailTurn>) returns (refresh: bool, ps: seq<Press>)
    ensures Presses(actPF, script, ps) && Over(script, ps)
    ensures AllTwoPresses(Told(ps, |ps|), actPF)
    ensures Tallied(Told(ps, |ps|)).acts <= 1 && Tallied(Told(ps, |ps|)).refresh == refresh
    ensures actPF == 0 || actPF == 3 ==> Tallied(Told(ps, |ps|)).acts == 0
  {
    var armed, acted := false, false;
    refresh, ps := false, [];
    while |ps| < |script|
      invariant Presses(actPF, script, ps) && (ps != [] ==> ps[|ps| - 1].pf != 3)
      invariant acted == HasActed(ps, |ps|)
      invariant armed == (ps != [] && ps[|ps| - 1].reply == Some(Asked(false)))
      invariant refresh == Tallied(Told(ps, |ps|)).refresh
    {
      var turn := script[|ps|];
      var live := if acted then 0 else actPF;
      if turn.pf.None? { break; }
      var pf := turn.pf.value;
      var reply: Option<DetailObs> := None;
      var asked := armed;
      if pf != 3 {
        if live != 0 && pf == live {
          if armed {
            armed, acted, refresh := false, true, turn.refresh;
            reply := Some(Acted(turn.refresh));
          } else {
            reply := Some(Asked(turn.veto));
            armed := !turn.veto;
          }
        } else {
          armed := false;
        }
      }
      PressTaken(actPF, script, ps, Press(pf, reply), asked, HasActed(ps, |ps|));
      RefreshSnoc(ps, Press(pf, reply));
      ps := ps + [Press(pf, reply)];
      if pf == 3 { break; }
    }
    PressesAreGuarded(actPF, script, ps, |ps|);
  }

  lemma RefreshSnoc(ps: seq<Press>, p: Press)
    ensures Tallied(Told(ps + [p], |ps| + 1)).refresh ==
            if p.reply.Some? && p.reply.value.Acted? then p.reply.value.refresh else Tallied(Told(ps, |ps|)).refresh
  {
    var trace := Told(ps, |ps|);
    ToldStays(ps, p, |ps|);
    TallySnoc(trace, Key(p.pf));
    if p.reply.Some? {
      TallySnoc(trace + [Key(p.pf)], p.reply.value);
      assert trace + Telling(p) == trace + [Key(p.pf)] + [p.reply.value];
    } else {
      assert trace + Telling(p) == trace + [Key(p.pf)];
    }
  }

  /** The bookkeeping of one press. */
  lemma PressTaken(actPF: int, script: seq<DetailTurn>, ps: seq<Press>, p: Press, armed: bool, acted: bool)
    requires Presses(actPF, script, ps) && |ps| < |script| && (ps != [] ==> ps[|ps| - 1].pf != 3)
    requires acted == HasActed(ps, |ps|) && armed == (ps != [] && ps[|ps| - 1].reply == Some(Asked(false)))
    requires script[|ps|].pf == Some(p.pf)
    requires p.reply == if p.pf == 3 || actPF == 0 || p.pf != actPF || acted then None
                        else if armed then Some(Acted(script[|ps|].refresh)) else Some(Asked(script[|ps|].veto))
    ensures Presses(actPF, script, ps + [p])
    ensures HasActed(ps + [p], |ps| + 1) == (acted || (p.reply.Some? && p.reply.value.Acted?))
  {
    var all := ps + [p];
    HasActedStays(ps, p, |ps|);
    assert all[|ps|] == p;
    assert PressAt(actPF, script, all, |ps|);
    PressSnoc(actPF, script, ps, p);
  }

  /** The action runs on a press exactly when that press and the one before it are of the action key, the
      first was not vetoed, and it has not run before; the caller is then told what the action asks. */
  lemma ActsExactly(actPF: int, script: seq<DetailTurn>, ps: seq<Press>, i: nat)
    requires Presses(actPF, script, ps) && i < |ps|
    ensures ps[i].reply.Some? && ps[i].reply.value.Acted? <==>
              && i > 0 && actPF != 0 && actPF != 3
              && script[i].pf == script[i - 1].pf == Some(actPF) && !script[i - 1].veto
              && forall j :: 0 <= j < i ==> !(ps[j].reply.Some? && ps[j].reply.value.Acted?)
    ensures ps[i].reply.Some? && ps[i].reply.value.Acted? ==> ps[i].reply == Some(Acted(script[i].refresh))
  {
    assert PressAt(actPF, script, ps, i);
    ActedBefore(ps, i);
    if i > 0 {
      assert PressAt(actPF, script, ps, i - 1);
      ActedBefore(ps, i - 1);
    }
  }

  lemma {:induction false} ActedBefore(ps: seq<Press>, n: nat)
    requires n <= |ps|
    ensures HasActed(ps, n) <==> exists j :: 0 <= j < n && ps[j].reply.Some? && ps[j].reply.value.Acted?
  {
    if n > 0 { ActedBefore(ps, n - 1); }
  }
}
